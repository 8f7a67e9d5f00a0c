/**
 The sketch's global state and its entry points: the per-frame `draw`, the
 spawn handlers (`mouseMoved`, `mousePressed`), the drag handlers
 (`mouseDragged`, `mouseReleased`) and the knob handlers (`mouseWheel`,
 `keyPressed`). Each entry point is a function from the state before the
 event to the state after it; the event's payload, the mouse position and
 the random draws are its arguments.
 */
module Sketch {
  import opened P5Math
  import opened Settings
  import opened Particle

  datatype Option<T> = None | Some(value: T)

  /** The particle being dragged, held by identity, or none. */
  datatype Drag = Idle | Holding(id: nat)

  datatype Button = LeftButton | RightButton | CenterButton

  /** The particles in insertion order (`draw` paints them in reverse, so
      the oldest ends up on top), the knobs, the drag handle, and the identity
      the next spawned particle gets. */
  datatype State = State(particles: seq<Particle>, params: Params, dragged: Drag, nextId: nat)

  /** The state when the sketch loads. */
  const Init: State := State([], Initial, Idle, 0)

  predicate UniqueIds(ps: seq<Particle>) {
    forall i, j :: 0 <= i < j < |ps| ==> ps[i].id != ps[j].id
  }

  /** Knobs in range, distinct identities below `nextId`, every particle
      valid (in particular its trail within capacity), and a drag handle that
      names an identity already handed out: the sketch can only hold a
      particle that exists. */
  predicate Wf(s: State) {
    && InRange(s.params)
    && UniqueIds(s.particles)
    && (forall k :: 0 <= k < |s.particles| ==> s.particles[k].id < s.nextId && Valid(s.particles[k]))
    && (s.dragged.Holding? ==> s.dragged.id < s.nextId)
  }

  lemma InitWf()
    ensures Wf(Init)
  {
    InitialInRange();
  }

  // ---------------------------------------------------------------------
  // draw
  // ---------------------------------------------------------------------

  /** Every particle updated once, the k-th with the k-th draw. */
  function Advance(ps: seq<Particle>, ds: seq<real>): (r: seq<Particle>)
    requires |ps| <= |ds| && Decrements(ds)
    decreases |ps|
    ensures |r| == |ps|
    ensures forall k :: 0 <= k < |ps| ==> r[k] == Update(ps[k], ds[k])
  {
    if ps == [] then [] else [Update(ps[0], ds[0])] + Advance(ps[1..], ds[1..])
  }

  /** The unfinished particles, in their original order. */
  function Survivors(xs: seq<Particle>): (r: seq<Particle>)
    decreases |xs|
    ensures |r| <= |xs|
  {
    if xs == [] then []
    else (if IsFinished(xs[0]) then [] else [xs[0]]) + Survivors(xs[1..])
  }

  /** `Survivors` of a suffix peels off its first element. */
  lemma SurvivorsStep(xs: seq<Particle>, i: nat)
    requires i < |xs|
    ensures Survivors(xs[i..]) == (if IsFinished(xs[i]) then [] else [xs[i]]) + Survivors(xs[i + 1..])
  {
    assert xs[i..][1..] == xs[i + 1..];
  }

  /** The positions in `xs` of the particles `Survivors` keeps. */
  function SurvivorIndices(xs: seq<Particle>): seq<nat>
    decreases |xs|
  {
    if xs == [] then []
    else (if IsFinished(xs[0]) then [] else [0]) + Shift(SurvivorIndices(xs[1..]))
  }

  function Shift(idx: seq<nat>): seq<nat>
  {
    seq(|idx|, m requires 0 <= m < |idx| => idx[m] + 1)
  }

  lemma ShiftMembers(idx: seq<nat>, k: nat)
    ensures k in Shift(idx) <==> 1 <= k && k - 1 in idx
  {
    var sh := Shift(idx);
    if k in sh {
      var m :| 0 <= m < |sh| && sh[m] == k;
      assert idx[m] == k - 1;
    }
    if 1 <= k && k - 1 in idx {
      var m :| 0 <= m < |idx| && idx[m] == k - 1;
      assert sh[m] == k;
    }
  }

  /** The m-th survivor is the particle at the m-th kept position. */
  lemma {:induction false} SurvivorsAtIndices(xs: seq<Particle>)
    decreases |xs|
    ensures var idx, r := SurvivorIndices(xs), Survivors(xs);
      && |idx| == |r|
      && (forall m :: 0 <= m < |idx| ==> idx[m] < |xs| && r[m] == xs[idx[m]])
  {
    if xs != [] {
      var tail := xs[1..];
      SurvivorsAtIndices(tail);
      var ti, tr := SurvivorIndices(tail), Survivors(tail);
      var sh := Shift(ti);
      var idx, r := SurvivorIndices(xs), Survivors(xs);
      forall m | 0 <= m < |sh|
        ensures sh[m] < |xs| && tr[m] == xs[sh[m]]
      {
        assert tail[ti[m]] == xs[ti[m] + 1];
      }
      if IsFinished(xs[0]) {
        assert idx == sh && r == tr;
      } else {
        assert idx == [0] + sh && r == [xs[0]] + tr;
        forall m | 1 <= m < |idx|
          ensures idx[m] < |xs| && r[m] == xs[idx[m]]
        {
          assert idx[m] == sh[m - 1] && r[m] == tr[m - 1];
        }
      }
    }
  }

  /** Strictly increasing positions. */
  predicate Increasing(idx: seq<nat>) {
    forall m, n :: 0 <= m < n < |idx| ==> idx[m] < idx[n]
  }

  /** The kept positions are strictly increasing. */
  lemma {:induction false} SurvivorIndicesIncrease(xs: seq<Particle>)
    decreases |xs|
    ensures Increasing(SurvivorIndices(xs))
  {
    if xs != [] {
      var ti := SurvivorIndices(xs[1..]);
      SurvivorIndicesIncrease(xs[1..]);
      var sh := Shift(ti);
      assert Increasing(sh) by {
        forall m, n | 0 <= m < n < |sh|
          ensures sh[m] < sh[n]
        {
          assert ti[m] < ti[n];
        }
      }
      assert forall m :: 0 <= m < |sh| ==> 0 < sh[m];
    }
  }

  /** The kept positions are exactly those of unfinished particles. */
  lemma {:induction false} SurvivorIndicesExact(xs: seq<Particle>)
    decreases |xs|
    ensures var idx := SurvivorIndices(xs);
      forall k :: 0 <= k < |xs| ==> (k in idx <==> !IsFinished(xs[k]))
  {
    if xs != [] {
      var tail := xs[1..];
      var ti := SurvivorIndices(tail);
      SurvivorIndicesExact(tail);
      var idx := SurvivorIndices(xs);
      assert idx == (if IsFinished(xs[0]) then [] else [0]) + Shift(ti);
      forall k | 0 <= k < |xs|
        ensures k in idx <==> !IsFinished(xs[k])
      {
        ShiftMembers(ti, k);
        if 0 < k {
          assert xs[k] == tail[k - 1];
        }
      }
    }
  }

  /** `Survivors` keeps exactly the unfinished particles, each once, in the
      order they had: its m-th element is the element of `xs` at the m-th of
      a strictly increasing sequence of positions, and those positions are
      exactly the ones holding an unfinished particle. */
  lemma SurvivorsByIndex(xs: seq<Particle>)
    ensures var idx, r := SurvivorIndices(xs), Survivors(xs);
      && |idx| == |r|
      && (forall m :: 0 <= m < |idx| ==> idx[m] < |xs| && r[m] == xs[idx[m]])
      && Increasing(idx)
      && (forall k :: 0 <= k < |xs| ==> (k in idx <==> !IsFinished(xs[k])))
  {
    SurvivorsAtIndices(xs);
    SurvivorIndicesIncrease(xs);
    SurvivorIndicesExact(xs);
  }

  /** A list of finished particles has no survivors. */
  lemma {:induction false} NoneSurvive(xs: seq<Particle>)
    requires forall k :: 0 <= k < |xs| ==> IsFinished(xs[k])
    decreases |xs|
    ensures Survivors(xs) == []
  {
    if xs != [] {
      NoneSurvive(xs[1..]);
    }
  }

  /** A particle survives exactly when it is in the list and unfinished. */
  lemma SurvivorsMembers(xs: seq<Particle>)
    ensures forall x :: x in Survivors(xs) <==> x in xs && !IsFinished(x)
  {
    var idx, r := SurvivorIndices(xs), Survivors(xs);
    SurvivorsByIndex(xs);
    forall x | x in r
      ensures x in xs && !IsFinished(x)
    {
      var m :| 0 <= m < |r| && r[m] == x;
      assert idx[m] in idx;
    }
    forall x | x in xs && !IsFinished(x)
      ensures x in r
    {
      var k :| 0 <= k < |xs| && xs[k] == x;
      assert k in idx;
      var m :| 0 <= m < |idx| && idx[m] == k;
      assert r[m] == x;
    }
  }

  /** Removing finished particles keeps identities distinct. */
  lemma SurvivorsKeepUniqueIds(xs: seq<Particle>)
    requires UniqueIds(xs)
    ensures UniqueIds(Survivors(xs))
  {
    SurvivorsByIndex(xs);
  }

  /** Sets the dragged particle, if it is in the list, at the mouse. */
  function Pin(ps: seq<Particle>, dragged: Drag, x: real, y: real): seq<Particle>
  {
    seq(|ps|, k requires 0 <= k < |ps| =>
      if dragged == Holding(ps[k].id) then ps[k].(pos := Vec(x, y)) else ps[k])
  }

  /** The survivors of one `draw` before the drag pin. */
  function Sweep(ps: seq<Particle>, ds: seq<real>): seq<Particle>
    requires |ps| <= |ds| && Decrements(ds)
  {
    Survivors(Advance(ps, ds))
  }

  /** One call of `draw`, with `ds[k]` the lifetime decrement drawn for the
      k-th particle: every particle is updated, the finished ones are
      removed, and then the dragged particle is put at the mouse. */
  function Frame(s: State, ds: seq<real>, mouseX: real, mouseY: real): (r: State)
    requires |s.particles| <= |ds| && Decrements(ds)
    ensures r.params == s.params && r.dragged == s.dragged && r.nextId == s.nextId
    ensures |r.particles| <= |s.particles|
    ensures forall k :: 0 <= k < |r.particles| ==> !IsFinished(r.particles[k])
    ensures forall k :: 0 <= k < |r.particles| && s.dragged == Holding(r.particles[k].id) ==>
      r.particles[k].pos == Vec(mouseX, mouseY)
  {
    var swept := Sweep(s.particles, ds);
    SurvivorsMembers(Advance(s.particles, ds));
    assert forall k :: 0 <= k < |swept| ==> swept[k] in swept;
    s.(particles := Pin(swept, s.dragged, mouseX, mouseY))
  }

  /** Splicing out, or replacing, the element between a prefix and a suffix. */
  lemma SpliceParts<T>(pre: seq<T>, x: T, rest: seq<T>, y: T)
    ensures (pre + [x] + rest)[|pre|] == x
    ensures (pre + [x] + rest)[..|pre|] + (pre + [x] + rest)[|pre| + 1..] == pre + rest
    ensures (pre + [x] + rest)[|pre| := y] == pre + [y] + rest
  {
    var ps := pre + [x] + rest;
    assert ps[..|pre|] == pre;
    assert ps[|pre| + 1..] == rest;
  }

  /** One step of the in-place walk: with the list holding the untouched
      prefix up to `i` followed by the survivors after `i`, replacing the
      i-th particle by its update, or splicing it out when the update has
      finished, leaves the prefix before `i` followed by the survivors from
      `i` on. */
  lemma SweepStep(particles: seq<Particle>, all: seq<Particle>, ps: seq<Particle>, i: nat)
    requires i < |particles| == |all|
    requires ps == particles[..i + 1] + Survivors(all[i + 1..])
    ensures ps[i] == particles[i]
    ensures (if IsFinished(all[i]) then ps[..i] + ps[i + 1..] else ps[i := all[i]])
            == particles[..i] + Survivors(all[i..])
  {
    var pre, rest := particles[..i], Survivors(all[i + 1..]);
    assert particles[..i + 1] == pre + [particles[i]];
    SpliceParts(pre, particles[i], rest, all[i]);
    SurvivorsStep(all, i);
  }

  /** The loop of `draw` as written: walk the list from the end, update
      each particle, and splice it out in place if it has finished. It
      leaves exactly `Sweep` behind. */
  method SweepInPlace(particles: seq<Particle>, ds: seq<real>) returns (ps: seq<Particle>)
    requires |particles| <= |ds| && Decrements(ds)
    ensures ps == Sweep(particles, ds)
  {
    ghost var all := Advance(particles, ds);
    ps := particles;
    var i := |ps| - 1;
    while i >= 0
      invariant -1 <= i < |particles|
      invariant ps == particles[..i + 1] + Survivors(all[i + 1..])
    {
      SweepStep(particles, all, ps, i);
      var p := Update(ps[i], ds[i]);
      assert p == all[i];
      if IsFinished(p) {
        ps := ps[..i] + ps[i + 1..];
      } else {
        ps := ps[i := p];
      }
      i := i - 1;
    }
    assert all[0..] == all;
  }

  /** `draw`: the sweep, then the dragged particle is put at the mouse. It
      computes `Frame`. */
  method Draw(s: State, ds: seq<real>, mouseX: real, mouseY: real) returns (r: State)
    requires |s.particles| <= |ds| && Decrements(ds)
    ensures r == Frame(s, ds, mouseX, mouseY)
  {
    var ps := SweepInPlace(s.particles, ds);
    r := s.(particles := Pin(ps, s.dragged, mouseX, mouseY));
  }

  /** `draw` updates every particle exactly once and removes exactly the
      ones finished after their own update; the survivors keep their relative
      order and are the updated particles, except that the dragged one sits
      at the mouse. */
  lemma FrameKeepsOrder(s: State, ds: seq<real>, mouseX: real, mouseY: real)
    requires |s.particles| <= |ds| && Decrements(ds)
    ensures var r, idx := Frame(s, ds, mouseX, mouseY), SurvivorIndices(Advance(s.particles, ds));
      && |idx| == |r.particles|
      && (forall m, n :: 0 <= m < n < |idx| ==> idx[m] < idx[n])
      && (forall k :: 0 <= k < |s.particles| ==> (k in idx <==> !IsFinished(Update(s.particles[k], ds[k]))))
      && (forall m :: 0 <= m < |idx| ==>
            && idx[m] < |s.particles|
            && r.particles[m] == (if s.dragged == Holding(r.particles[m].id)
                                  then Update(s.particles[idx[m]], ds[idx[m]]).(pos := Vec(mouseX, mouseY))
                                  else Update(s.particles[idx[m]], ds[idx[m]])))
  {
    SurvivorsByIndex(Advance(s.particles, ds));
  }

  /** A particle that may sit in a well-formed state whose next identity is `n`. */
  predicate Fits(p: Particle, n: nat) {
    p.id < n && Valid(p)
  }

  lemma {:induction false} SurvivorsKeepFit(xs: seq<Particle>, n: nat)
    requires forall k :: 0 <= k < |xs| ==> Fits(xs[k], n)
    decreases |xs|
    ensures forall k :: 0 <= k < |Survivors(xs)| ==> Fits(Survivors(xs)[k], n)
  {
    if xs != [] {
      SurvivorsKeepFit(xs[1..], n);
    }
  }

  lemma AdvanceKeepsFit(ps: seq<Particle>, ds: seq<real>, n: nat)
    requires |ps| <= |ds| && Decrements(ds)
    requires forall k :: 0 <= k < |ps| ==> Fits(ps[k], n)
    ensures forall k :: 0 <= k < |ps| ==> Fits(Advance(ps, ds)[k], n)
  {
    forall k | 0 <= k < |ps|
      ensures Fits(Advance(ps, ds)[k], n)
    {
      UpdateKeepsValid(ps[k], ds[k]);
    }
  }

  lemma AdvanceKeepsUniqueIds(ps: seq<Particle>, ds: seq<real>)
    requires |ps| <= |ds| && Decrements(ds)
    requires UniqueIds(ps)
    ensures UniqueIds(Advance(ps, ds))
  {
    var all := Advance(ps, ds);
    forall i, j | 0 <= i < j < |all|
      ensures all[i].id != all[j].id
    {
      assert all[i].id == ps[i].id && all[j].id == ps[j].id;
    }
  }

  lemma PinKeepsWf(s: State, ps: seq<Particle>, x: real, y: real)
    requires Wf(s)
    requires UniqueIds(ps) && forall k :: 0 <= k < |ps| ==> Fits(ps[k], s.nextId)
    ensures Wf(s.(particles := Pin(ps, s.dragged, x, y)))
  {
    var pinned := Pin(ps, s.dragged, x, y);
    assert forall k :: 0 <= k < |pinned| ==> pinned[k].id == ps[k].id && Valid(pinned[k]) == Valid(ps[k]);
  }

  /** `draw` keeps the state well formed. */
  lemma FrameWf(s: State, ds: seq<real>, mouseX: real, mouseY: real)
    requires |s.particles| <= |ds| && Decrements(ds)
    requires Wf(s)
    ensures Wf(Frame(s, ds, mouseX, mouseY))
  {
    var all := Advance(s.particles, ds);
    AdvanceKeepsUniqueIds(s.particles, ds);
    AdvanceKeepsFit(s.particles, ds, s.nextId);
    SurvivorsKeepUniqueIds(all);
    SurvivorsKeepFit(all, s.nextId);
    PinKeepsWf(s, Survivors(all), mouseX, mouseY);
  }

  /** `draw` takes at least 1 off every surviving particle's lifetime: the
      m-th survivor comes from the particle at the m-th kept position, and its
      lifetime is at least 1 below that particle's. So lifetimes all below a
      bound end all below that bound minus 1. */
  lemma FrameLowersLifetimes(s: State, ds: seq<real>, mouseX: real, mouseY: real, bound: real)
    requires |s.particles| <= |ds| && Decrements(ds)
    requires forall k :: 0 <= k < |s.particles| ==> s.particles[k].lifetime < bound
    ensures var r, idx := Frame(s, ds, mouseX, mouseY), SurvivorIndices(Advance(s.particles, ds));
      && |idx| == |r.particles|
      && forall m :: 0 <= m < |idx| ==>
           idx[m] < |s.particles| && r.particles[m].lifetime <= s.particles[idx[m]].lifetime - 1.0
    ensures var r := Frame(s, ds, mouseX, mouseY);
      forall k :: 0 <= k < |r.particles| ==> r.particles[k].lifetime < bound - 1.0
  {
    var all := Advance(s.particles, ds);
    var swept := Survivors(all);
    SurvivorsAtIndices(all);
    var idx := SurvivorIndices(all);
    forall k | 0 <= k < |swept|
      ensures swept[k].lifetime <= s.particles[idx[k]].lifetime - 1.0
      ensures swept[k].lifetime < bound - 1.0
    {
      assert swept[k] == Update(s.particles[idx[k]], ds[idx[k]]);
    }
  }

  /** The input of one frame: a lifetime decrement per particle and the
      mouse position. */
  datatype FrameInput = FrameInput(decrements: seq<real>, mouseX: real, mouseY: real)

  /** Every frame of `ins` draws a valid decrement for each of at least `n` particles. */
  predicate Feeds(ins: seq<FrameInput>, n: nat) {
    forall f :: 0 <= f < |ins| ==> n <= |ins[f].decrements| && Decrements(ins[f].decrements)
  }

  /** Consecutive frames with no other event in between. */
  function Frames(s: State, ins: seq<FrameInput>): (r: State)
    requires Feeds(ins, |s.particles|)
    decreases |ins|
    ensures r.params == s.params && r.dragged == s.dragged && r.nextId == s.nextId
    ensures |r.particles| <= |s.particles|
  {
    if ins == [] then s
    else Frames(Frame(s, ins[0].decrements, ins[0].mouseX, ins[0].mouseY), ins[1..])
  }

  /** With no new spawns, every particle has expired and been removed after
      n frames, for any n at least a bound that every lifetime lies strictly
      below; in particular a list of constructed particles (lifetimes below
      200) is empty after 200 frames. */
  lemma {:induction false} AllExpire(s: State, ins: seq<FrameInput>, bound: real)
    requires Feeds(ins, |s.particles|)
    requires 1 <= |ins| && bound <= |ins| as real
    requires forall k :: 0 <= k < |s.particles| ==> s.particles[k].lifetime < bound
    decreases |ins|
    ensures Frames(s, ins).particles == []
  {
    var s1 := Frame(s, ins[0].decrements, ins[0].mouseX, ins[0].mouseY);
    FrameLowersLifetimes(s, ins[0].decrements, ins[0].mouseX, ins[0].mouseY, bound);
    if |ins| == 1 {
      assert ins[1..] == [];
      var all := Advance(s.particles, ins[0].decrements);
      assert forall k :: 0 <= k < |all| ==> IsFinished(all[k]);
      NoneSurvive(all);
    } else {
      AllExpire(s1, ins[1..], bound - 1.0);
    }
  }

  /** While the drag lasts, the dragged particle, as long as it is still in
      the list, sits at the mouse position of the latest frame. */
  lemma {:induction false} DraggedFollowsMouse(s: State, ins: seq<FrameInput>, id: nat)
    requires Feeds(ins, |s.particles|)
    requires 1 <= |ins| && s.dragged == Holding(id)
    decreases |ins|
    ensures var r, last := Frames(s, ins), ins[|ins| - 1];
      forall k :: 0 <= k < |r.particles| && r.particles[k].id == id ==>
        r.particles[k].pos == Vec(last.mouseX, last.mouseY)
  {
    var s1 := Frame(s, ins[0].decrements, ins[0].mouseX, ins[0].mouseY);
    if |ins| == 1 {
      assert ins[1..] == [];
    } else {
      assert Frames(s, ins) == Frames(s1, ins[1..]);
      DraggedFollowsMouse(s1, ins[1..], id);
      assert ins[1..][|ins[1..]| - 1] == ins[|ins| - 1];
    }
  }

  // ---------------------------------------------------------------------
  // Spawning
  // ---------------------------------------------------------------------

  /** Appends a particle, which takes the next identity. */
  function Spawn(s: State, p: Particle): (r: State)
    requires p.id == s.nextId
    ensures |r.particles| == |s.particles| + 1
    ensures r.particles[..|s.particles|] == s.particles && r.particles[|s.particles|] == p
    ensures r.params == s.params && r.dragged == s.dragged
    ensures r.nextId == s.nextId + 1
    ensures Wf(s) ==> r.dragged != Holding(p.id)
    ensures Wf(s) && Valid(p) ==> Wf(r)
  {
    var r := s.(particles := s.particles + [p], nextId := s.nextId + 1);
    assert r.particles[..|s.particles|] == s.particles;
    r
  }

  /** `mouseMoved`: a plain particle at the mouse, of the base size, whose
      hue and saturation map the mouse position across the canvas onto
      [0, hueRange] and [0, satRange], at full brightness. */
  function MouseMoved(s: State, mouseX: real, mouseY: real, width: real, height: real, g: SpawnDraws): (r: State)
    requires 0.0 < width && 0.0 < height
    requires ValidSpawn(g, s.params.speedRange)
    ensures |r.particles| == |s.particles| + 1
    ensures r.particles[..|s.particles|] == s.particles
    ensures var p := r.particles[|s.particles|];
      && p.pos == Vec(mouseX, mouseY) && p.size == s.params.particleSize
      && p.kind.Plain? && p.trail == [] && p.id == s.nextId && !IsFinished(p)
      && p.color.bri == 100.0
      && (0.0 <= mouseX <= width && 0.0 <= s.params.hueRange ==> 0.0 <= p.color.hue <= s.params.hueRange)
      && (0.0 <= mouseY <= height && 0.0 <= s.params.satRange ==> 0.0 <= p.color.sat <= s.params.satRange)
    ensures r.params == s.params && r.dragged == s.dragged && r.nextId == s.nextId + 1
    ensures Wf(s) ==> Wf(r)
  {
    var hue := MapRange(mouseX, 0.0, width, 0.0, s.params.hueRange);
    var sat := MapRange(mouseY, 0.0, height, 0.0, s.params.satRange);
    MapRangeWithin(mouseX, 0.0, width, 0.0, s.params.hueRange);
    MapRangeWithin(mouseY, 0.0, height, 0.0, s.params.satRange);
    Spawn(s, NewPlain(s.nextId, mouseX, mouseY, Hsb(hue, sat, 100.0), s.params.particleSize, s.params.speedRange, g))
  }

  /** The worked example: on a 200 by 100 canvas with hue range 30 and
      saturation range 100, a move to (100, 50) appends a particle of hue 15
      and saturation 50 at the end of the list. */
  lemma MouseMovedExample(s: State, g: SpawnDraws)
    requires s.params.hueRange == 30.0 && s.params.satRange == 100.0
    requires ValidSpawn(g, s.params.speedRange)
    ensures var r := MouseMoved(s, 100.0, 50.0, 200.0, 100.0, g);
      r.particles[|r.particles| - 1].color == Hsb(15.0, 50.0, 100.0)
  {}

  /** `mousePressed`: for the left button only, a rotating particle at the
      mouse, twice the base size, with hue and saturation drawn from
      `random(hueRange)` and `random(satRange)`. Other buttons change nothing. */
  function MousePressed(s: State, button: Button, mouseX: real, mouseY: real,
                        hue: real, sat: real, g: SpawnDraws, w: SpinDraws): (r: State)
    requires button == LeftButton ==>
      && ValidSpawn(g, s.params.speedRange) && ValidSpin(w)
      && DrawnBelow(hue, s.params.hueRange) && DrawnBelow(sat, s.params.satRange)
    ensures button != LeftButton ==> r == s
    ensures button == LeftButton ==>
      && |r.particles| == |s.particles| + 1
      && r.particles[..|s.particles|] == s.particles
      && r.params == s.params && r.dragged == s.dragged && r.nextId == s.nextId + 1
    ensures button == LeftButton ==> var p := r.particles[|s.particles|];
      && p.pos == Vec(mouseX, mouseY) && p.size == 2.0 * s.params.particleSize
      && p.kind.Rotating? && p.trail == [] && p.id == s.nextId && !IsFinished(p)
      && (0.0 <= s.params.hueRange ==> 0.0 <= p.color.hue && (p.color.hue < s.params.hueRange || p.color.hue == 0.0))
      && (0.0 <= s.params.satRange ==> 0.0 <= p.color.sat && (p.color.sat < s.params.satRange || p.color.sat == 0.0))
    ensures Wf(s) ==> Wf(r)
  {
    if button == LeftButton then
      var p := NewRotating(s.nextId, mouseX, mouseY, Hsb(hue, sat, 100.0), s.params.particleSize * 2.0,
                           s.params.speedRange, g, w);
      Spawn(s, p)
    else
      s
  }

  // ---------------------------------------------------------------------
  // Dragging
  // ---------------------------------------------------------------------

  /** The scan of `mouseDragged`: the position of the newest (highest-index)
      particle in the list that the point is over, or none if it is over none.
      Since `draw` paints the list in reverse, that particle is painted under
      any older one overlapping it. */
  function LastOver(ps: seq<Particle>, x: real, y: real): (r: Option<nat>)
    decreases |ps|
    ensures r.Some? ==>
      && r.value < |ps| && IsOver(ps[r.value], x, y)
      && (forall j :: r.value < j < |ps| ==> !IsOver(ps[j], x, y))
    ensures r.None? <==> forall j :: 0 <= j < |ps| ==> !IsOver(ps[j], x, y)
  {
    if ps == [] then None
    else if IsOver(ps[|ps| - 1], x, y) then Some(|ps| - 1)
    else LastOver(ps[..|ps| - 1], x, y)
  }

  /** `mouseDragged`: with nothing dragged, the newest particle under the
      mouse becomes the dragged one, or nothing if none is under it; with a
      particle already held (even one that has since expired) nothing
      changes. The particles and knobs never change. */
  function MouseDragged(s: State, mouseX: real, mouseY: real): (r: State)
    ensures r.particles == s.particles && r.params == s.params && r.nextId == s.nextId
    ensures s.dragged.Holding? ==> r == s
    ensures forall k ::
      (&& 0 <= k < |s.particles| && s.dragged.Idle?
       && IsOver(s.particles[k], mouseX, mouseY)
       && (forall j :: k < j < |s.particles| ==> !IsOver(s.particles[j], mouseX, mouseY)))
      ==> r.dragged == Holding(s.particles[k].id)
    ensures (forall j :: 0 <= j < |s.particles| ==> !IsOver(s.particles[j], mouseX, mouseY)) ==> r == s
    ensures r.dragged.Holding? ==> s.dragged.Holding? || exists k :: 0 <= k < |s.particles| && r.dragged.id == s.particles[k].id
    ensures Wf(s) ==> Wf(r)
  {
    if s.dragged.Idle? then
      match LastOver(s.particles, mouseX, mouseY)
      case Some(k) => s.(dragged := Holding(s.particles[k].id))
      case None => s
    else
      s
  }

  /** Two particles at the same place under the mouse: the later one is picked. */
  lemma LaterParticleWinsPick(s: State, a: Particle, b: Particle)
    requires s.dragged == Idle && s.particles == [a, b] && a.id != b.id
    requires a.pos == b.pos && 0.0 < a.size && 0.0 < b.size
    ensures MouseDragged(s, a.pos.x, a.pos.y).dragged == Holding(b.id)
  {
    OverOwnCentre(b);
  }

  /** `mouseReleased`: the drag ends, whatever was held; nothing else changes. */
  function MouseReleased(s: State): (r: State)
    ensures r.dragged == Idle
    ensures r.particles == s.particles && r.params == s.params && r.nextId == s.nextId
    ensures Wf(s) ==> Wf(r)
  {
    s.(dragged := Idle)
  }

  /** A release undoes whatever a drag picked, and after it the next drag
      picks afresh: a particle held before the release no longer blocks it. */
  lemma ReleaseUndoesPick(s: State, x: real, y: real)
    ensures MouseReleased(MouseDragged(s, x, y)) == MouseReleased(s)
    ensures MouseDragged(MouseReleased(s), x, y).dragged ==
      match LastOver(s.particles, x, y)
      case Some(k) => Holding(s.particles[k].id)
      case None => Idle
  {}

  // ---------------------------------------------------------------------
  // Knobs
  // ---------------------------------------------------------------------

  /** `mouseWheel`: only the base size changes, and it ends in [4, 64]. */
  function MouseWheel(s: State, delta: real): (r: State)
    ensures r.particles == s.particles && r.dragged == s.dragged && r.nextId == s.nextId
    ensures 4.0 <= r.params.particleSize <= 64.0
    ensures r.params.hueRange == s.params.hueRange && r.params.satRange == s.params.satRange
    ensures r.params.speedRange == s.params.speedRange
    ensures Wf(s) ==> Wf(r)
  {
    s.(params := Wheel(s.params, delta))
  }

  /** `keyPressed`: only the knobs change, and they stay in range. */
  function KeyPress(s: State, e: KeyEvent): (r: State)
    ensures r.particles == s.particles && r.dragged == s.dragged && r.nextId == s.nextId
    ensures r.params.particleSize == s.params.particleSize
    ensures Wf(s) ==> Wf(r)
  {
    s.(params := KeyPressed(s.params, e))
  }
}
