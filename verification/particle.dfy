/**
 One particle of the trail sketch: a plain circle (`Particle`) or a spinning
 square (`ColoredParticle`). A particle moves by its velocity every frame,
 its velocity decays, its lifetime runs down by a random amount, and it
 drags a bounded trail of its recent positions behind it. The random amounts
 are arguments, constrained to the ranges p5's `random` returns.
 */
module Particle {
  import opened P5Math

  /** A 2D point or displacement. */
  datatype Vec = Vec(x: real, y: real) {
    function Add(v: Vec): Vec { Vec(x + v.x, y + v.y) }

    function Scale(k: real): Vec { Vec(k * x, k * y) }

    /** The squared Euclidean length. */
    function NormSq(): real { x * x + y * y }
  }

  /** A colour in the sketch's HSB mode. */
  datatype Color = Hsb(hue: real, sat: real, bri: real)

  /** The two particle classes. A rotating particle carries its angle and
      angular velocity, and the cosine and sine of the angular velocity,
      which the host's trigonometry supplies at creation. */
  datatype Kind =
    | Plain
    | Rotating(angle: real, angleVel: real, turnCos: real, turnSin: real)

  /** `id` stands for the object's identity, which the sketch uses to hold
      on to the particle being dragged. */
  datatype Particle = Particle(
    id: nat,
    pos: Vec,
    vel: Vec,
    lifetime: real,
    color: Color,
    size: real,
    trail: seq<Vec>,
    trailLength: real,
    kind: Kind)

  /** Velocity kept per frame. */
  const Damping: real := 0.98

  /** The trail holds at most `trailLength` positions. */
  predicate Capped(p: Particle) {
    |p.trail| as real <= p.trailLength
  }

  /** A particle as constructed: a capped trail and, for a rotating one, a
      turn given by a unit vector. */
  predicate Valid(p: Particle) {
    && Capped(p)
    && (p.kind.Rotating? ==> p.kind.turnCos * p.kind.turnCos + p.kind.turnSin * p.kind.turnSin == 1.0)
  }

  /** The per-frame lifetime decrement, `random(1, 3)`. */
  predicate Decrement(d: real) {
    Drawn(d, 1.0, 3.0)
  }

  /** `v` rotated by the angle whose cosine and sine are `c` and `s`. */
  function Rotate(v: Vec, c: real, s: real): Vec {
    Vec(v.x * c - v.y * s, v.x * s + v.y * c)
  }

  lemma RotateKeepsLength(v: Vec, c: real, s: real)
    requires c * c + s * s == 1.0
    ensures Rotate(v, c, s).NormSq() == v.NormSq()
  {
    calc {
      Rotate(v, c, s).NormSq();
      (v.x * c - v.y * s) * (v.x * c - v.y * s) + (v.x * s + v.y * c) * (v.x * s + v.y * c);
      (c * c + s * s) * (v.x * v.x) + (c * c + s * s) * (v.y * v.y);
      v.NormSq();
    }
  }

  lemma ScaleLength(v: Vec, k: real)
    ensures v.Scale(k).NormSq() == k * k * v.NormSq()
  {
    calc {
      v.Scale(k).NormSq();
      (k * v.x) * (k * v.x) + (k * v.y) * (k * v.y);
      k * k * (v.x * v.x) + k * k * (v.y * v.y);
    }
  }

  /** One frame of a particle, with `d` the drawn lifetime decrement. The
      position advances by the velocity, the velocity is damped, the lifetime
      drops by `d`, and the new position is appended to the trail, which
      drops its oldest entry when it grows past `trailLength`. A rotating
      particle also advances its angle and turns its velocity. */
  function Update(p: Particle, d: real): (r: Particle)
    requires Decrement(d)
    ensures r.pos == p.pos.Add(p.vel)
    ensures r.lifetime == p.lifetime - d
    ensures p.lifetime - 3.0 < r.lifetime <= p.lifetime - 1.0
    ensures p.kind.Plain? ==> r.kind.Plain? && r.vel == p.vel.Scale(Damping)
    ensures p.kind.Rotating? ==>
      && r.kind.Rotating?
      && r.kind.angle == p.kind.angle + p.kind.angleVel
      && r.kind.angleVel == p.kind.angleVel
      && r.kind.turnCos == p.kind.turnCos && r.kind.turnSin == p.kind.turnSin
    ensures r.id == p.id && r.color == p.color && r.size == p.size && r.trailLength == p.trailLength
  {
    var pos := p.pos.Add(p.vel);
    var vel := p.vel.Scale(Damping);
    var pushed := p.trail + [pos];
    var trail := if |pushed| as real > p.trailLength then pushed[1..] else pushed;
    match p.kind
    case Plain =>
      p.(pos := pos, vel := vel, lifetime := p.lifetime - d, trail := trail)
    case Rotating(angle, angleVel, c, s) =>
      p.(pos := pos, vel := Rotate(vel, c, s), lifetime := p.lifetime - d, trail := trail,
         kind := Rotating(angle + angleVel, angleVel, c, s))
  }

  /** The trail gains the new position as its newest entry and loses its
      oldest entry exactly when it would otherwise outgrow `trailLength`; so
      it grows by one until the capacity is reached and never exceeds it. */
  lemma UpdateTrail(p: Particle, d: real)
    requires Decrement(d)
    ensures var r := Update(p, d);
      && (|r.trail| == |p.trail| + 1 || |r.trail| == |p.trail|)
      && r.trail == (p.trail + [r.pos])[|p.trail| + 1 - |r.trail|..]
      && (|r.trail| > 0 ==> r.trail[|r.trail| - 1] == r.pos)
      && (1.0 <= p.trailLength ==> |r.trail| > 0)
      && ((|p.trail| + 1) as real <= p.trailLength ==> |r.trail| == |p.trail| + 1)
      && (p.trailLength < (|p.trail| + 1) as real ==> |r.trail| == |p.trail|)
      && (Capped(p) ==> Capped(r))
  {}

  /** An update keeps a particle valid: its trail within capacity and its
      turn a unit vector. */
  lemma UpdateKeepsValid(p: Particle, d: real)
    requires Decrement(d) && Valid(p)
    ensures Valid(Update(p, d))
  {
    UpdateTrail(p, d);
  }

  /** Damping takes 2% off the speed every frame; the turn of a rotating
      particle changes its heading but not its speed. */
  lemma UpdateDampsSpeed(p: Particle, d: real)
    requires Decrement(d) && Valid(p)
    ensures Update(p, d).vel.NormSq() == Damping * Damping * p.vel.NormSq()
  {
    var vel := p.vel.Scale(Damping);
    ScaleLength(p.vel, Damping);
    if p.kind.Rotating? {
      RotateKeepsLength(vel, p.kind.turnCos, p.kind.turnSin);
    }
  }

  /** The hit test: the point lies strictly inside the circle of diameter
      `size` around the position. The distance is compared through its
      square, since a negative or zero size contains no point. */
  predicate IsOver(p: Particle, x: real, y: real) {
    0.0 < p.size && (x - p.pos.x) * (x - p.pos.x) + (y - p.pos.y) * (y - p.pos.y) < p.size * p.size / 4.0
  }

  /** A particle of positive size is over its own centre. */
  lemma OverOwnCentre(p: Particle)
    requires 0.0 < p.size
    ensures IsOver(p, p.pos.x, p.pos.y)
  {
    var dx := p.pos.x - p.pos.x;
    assert dx == 0.0;
    assert dx * dx == 0.0;
    assert 0.0 < p.size * p.size;
  }

  /** The hit test agrees with the sketch's `isOver`, `dist(x, y, pos) < size / 2`, for
      the distance `dist`, the non-negative square root of the squared
      distance: a point on the boundary is not over the particle. */
  lemma IsOverIsDistanceTest(p: Particle, x: real, y: real, dist: real)
    requires 0.0 <= dist
    requires dist * dist == (x - p.pos.x) * (x - p.pos.x) + (y - p.pos.y) * (y - p.pos.y)
    ensures IsOver(p, x, y) <==> dist < p.size / 2.0
  {
    var h := p.size / 2.0;
    assert p.size * p.size / 4.0 == h * h;
    if 0.0 < p.size {
      if dist < h {
        SquareBelow(dist, h);
      } else {
        SquareAtMost(h, dist);
      }
    }
  }

  lemma SquareBelow(a: real, b: real)
    requires 0.0 <= a < b
    ensures a * a < b * b
  {
    calc {
      a * a;
    <= a * b;
    <  { assert 0.0 < b - a; assert 0.0 < (b - a) * b; } b * b;
    }
  }

  lemma SquareAtMost(a: real, b: real)
    requires 0.0 <= a <= b
    ensures a * a <= b * b
  {
    assert a * a <= a * b;
    assert a * b <= b * b;
  }

  /** The particle has run out of lifetime. */
  predicate IsFinished(p: Particle) {
    p.lifetime < 0.0
  }

  /** The random draws a particle's constructor makes: the unit direction of
      `random2D`, the speed `random(0.5, speedRange)`, the lifetime
      `random(100, 200)` and the trail capacity `random(10, 30)`. */
  datatype SpawnDraws = SpawnDraws(dir: Vec, speed: real, lifetime: real, trailLength: real)

  predicate ValidSpawn(g: SpawnDraws, speedRange: real) {
    && g.dir.NormSq() == 1.0
    && Drawn(g.speed, 0.5, speedRange)
    && Drawn(g.lifetime, 100.0, 200.0)
    && Drawn(g.trailLength, 10.0, 30.0)
  }

  /** The extra draws of a rotating particle: the angle `random(TWO_PI)`, the
      angular velocity `random(-0.1, 0.1)`, and the unit vector of that
      angular velocity's cosine and sine. */
  datatype SpinDraws = SpinDraws(angle: real, angleVel: real, turnCos: real, turnSin: real)

  predicate ValidSpin(w: SpinDraws) {
    && DrawnBelow(w.angle, TwoPi)
    && Drawn(w.angleVel, -0.1, 0.1)
    && w.turnCos * w.turnCos + w.turnSin * w.turnSin == 1.0
  }

  /** With a non-negative speed range, a drawn speed is at least the lower
      end of `random(0.5, speedRange)`, so its square is too. */
  lemma SpeedAtLeastLowerBound(speed: real, speedRange: real)
    ensures 0.0 <= speedRange && Drawn(speed, 0.5, speedRange) ==>
      Min(0.5, speedRange) * Min(0.5, speedRange) <= speed * speed
  {
    if 0.0 <= speedRange && Drawn(speed, 0.5, speedRange) {
      SquareAtMost(Min(0.5, speedRange), speed);
    }
  }

  /** The `Particle` constructor: at (x, y), with the given colour and size,
      a random heading and speed, lifetime in [100, 200), an empty trail and
      a trail capacity in [10, 30). */
  function NewPlain(id: nat, x: real, y: real, color: Color, size: real, speedRange: real, g: SpawnDraws): (p: Particle)
    requires ValidSpawn(g, speedRange)
    ensures p.id == id && p.pos == Vec(x, y) && p.color == color && p.size == size
    ensures p.kind.Plain?
    ensures p.trail == []
    ensures 100.0 <= p.lifetime < 200.0 && 10.0 <= p.trailLength < 30.0
    ensures p.vel.NormSq() == g.speed * g.speed
    ensures 0.0 <= speedRange ==> Min(0.5, speedRange) * Min(0.5, speedRange) <= p.vel.NormSq()
    ensures !IsFinished(p) && Valid(p)
  {
    ScaleLength(g.dir, g.speed);
    SpeedAtLeastLowerBound(g.speed, speedRange);
    Particle(id, Vec(x, y), g.dir.Scale(g.speed), g.lifetime, color, size, [], g.trailLength, Plain)
  }

  /** The `ColoredParticle` constructor: a plain particle's state plus an
      angle in [0, 2 pi) and an angular velocity in [-0.1, 0.1). */
  function NewRotating(id: nat, x: real, y: real, color: Color, size: real, speedRange: real,
                       g: SpawnDraws, w: SpinDraws): (p: Particle)
    requires ValidSpawn(g, speedRange) && ValidSpin(w)
    ensures p.id == id && p.pos == Vec(x, y) && p.color == color && p.size == size
    ensures p.kind.Rotating?
    ensures 0.0 <= p.kind.angle < TwoPi && -0.1 <= p.kind.angleVel < 0.1
    ensures p.trail == []
    ensures 100.0 <= p.lifetime < 200.0 && 10.0 <= p.trailLength < 30.0
    ensures p.vel.NormSq() == g.speed * g.speed
    ensures 0.0 <= speedRange ==> Min(0.5, speedRange) * Min(0.5, speedRange) <= p.vel.NormSq()
    ensures !IsFinished(p) && Valid(p)
  {
    NewPlain(id, x, y, color, size, speedRange, g).(kind := Rotating(w.angle, w.angleVel, w.turnCos, w.turnSin))
  }

  predicate Decrements(ds: seq<real>) {
    forall i :: 0 <= i < |ds| ==> Decrement(ds[i])
  }

  /** The particle after one update per draw in `ds`, in order. */
  function Age(p: Particle, ds: seq<real>): Particle
    requires Decrements(ds)
    decreases |ds|
  {
    if ds == [] then p else Age(Update(p, ds[0]), ds[1..])
  }

  /** Each update takes between 1 (inclusive) and 3 (exclusive) off the
      lifetime, so after n updates the lifetime has dropped by at least n and
      at most 3n. */
  lemma {:induction false} AgeLifetime(p: Particle, ds: seq<real>)
    requires Decrements(ds)
    decreases |ds|
    ensures p.lifetime - 3.0 * (|ds| as real) <= Age(p, ds).lifetime <= p.lifetime - (|ds| as real)
  {
    if ds != [] {
      AgeLifetime(Update(p, ds[0]), ds[1..]);
    }
  }

  /** A particle whose lifetime is below 200, as every constructed one is,
      is finished after at most 200 updates, and stays finished. */
  lemma FinishedWithin200(p: Particle, ds: seq<real>)
    requires Decrements(ds)
    requires p.lifetime < 200.0 && 200 <= |ds|
    ensures IsFinished(Age(p, ds))
  {
    AgeLifetime(p, ds);
  }

  /** A particle whose lifetime is at least 100, as every constructed one is,
      survives its first 33 updates. */
  lemma NotFinishedWithin33(p: Particle, ds: seq<real>)
    requires Decrements(ds)
    requires 100.0 <= p.lifetime && |ds| <= 33
    ensures !IsFinished(Age(p, ds))
  {
    AgeLifetime(p, ds);
  }

  /** The trail grows by one position per update until it reaches the
      largest whole number of positions its capacity allows, then holds that
      length; the newest entry is the current position. */
  lemma {:induction false} AgeTrail(p: Particle, ds: seq<real>)
    requires Decrements(ds)
    requires Capped(p)
    decreases |ds|
    ensures Capped(Age(p, ds))
    ensures |Age(p, ds).trail| == if |p.trail| + |ds| <= p.trailLength.Floor then |p.trail| + |ds| else p.trailLength.Floor
    ensures ds != [] && 1.0 <= p.trailLength ==>
      |Age(p, ds).trail| > 0 && Age(p, ds).trail[|Age(p, ds).trail| - 1] == Age(p, ds).pos
  {
    if ds != [] {
      var q := Update(p, ds[0]);
      UpdateTrail(p, ds[0]);
      assert |p.trail| <= p.trailLength.Floor;
      AgeTrail(q, ds[1..]);
      if ds[1..] == [] {
        assert Age(p, ds) == q;
      }
    }
  }
}
