# Particle-trail sketch, modelled in Dafny

This project models the simulation core of a p5.js sketch (`sketch.js`).
Moving the mouse spawns short-lived particles, which drift, slow down and
leave bounded trails. The pieces modelled are:

- **Spawning.** `mouseMoved` spawns a plain particle and a left-button
  `mousePressed` spawns a rotating one.
- **`draw`.** Every frame, `draw` updates every particle. It does this in a
  reverse walk that splices out the finished particles in place, then pins
  the dragged particle to the mouse.
- **Dragging.** `mouseDragged` picks the newest (highest-index) particle
  under the mouse, and `mouseReleased` drops it. Because `draw` paints the
  list in reverse, older particles are painted over newer ones, so the
  picked particle may be painted underneath another one.
- **Knobs.** `mouseWheel` and `keyPressed` adjust the four global knobs that
  later spawns read: particle size, hue range, saturation range and speed
  range.

Layout, one module per file:

- `p5math.dfy` (`P5Math`): the p5 helpers the sketch calls, namely `min`,
  `max`, `constrain` and `map`, plus the value sets p5's `random` can return.
- `settings.dfy` (`Settings`): the global knobs, `mouseWheel` and `keyPressed`.
- `particle.dfy` (`Particle`): the `Particle` and `ColoredParticle` classes,
  covering the constructors, `update`, `isOver` and `isFinished`, plus
  lemmas about repeated updates.
- `sketch.dfy` (`Sketch`): the global state, `draw` (as a reference function
  `Frame` and as the in-place loop `SweepInPlace`/`Draw`) and the event
  handlers.

Modelling choices:

- **Pure handlers.** Every handler is a pure function from the state before
  the event to the state after it.
- **Random draws are arguments.** Each draw is an argument of the handler
  that consumes it, constrained to the values p5 can return:
  - `random(lo, hi)` gives `[min, max)`, or `min` when the bounds are equal;
  - `random(n)` gives `[0, n)`, or `0` when `n` is 0.
- **Identity.** The sketch holds the dragged particle by object reference.
  Here every particle carries an `id`, and the state hands out fresh ids
  from `nextId`.
- **Hit test without a square root.** `isOver` compares squared distances.
  `Particle.IsOverIsDistanceTest` proves this is the same test as
  `dist < size / 2`.
- **Rotation.** The velocity rotation of a `ColoredParticle` uses the
  cosine and sine of its angular velocity. These are supplied with the other
  random draws when the particle is made, as a unit vector.

Two behaviours of the code that the model keeps:

- **The drag handle can go stale.** `draw` never clears `draggedParticle`
  when that particle expires and is spliced out (sketch.js:24, 28-31).
  Until the mouse is released, the stale handle also stops `mouseDragged`
  from picking another particle (sketch.js:51). The model keeps both
  (`Sketch.MouseDragged`, `Sketch.Frame`). The handle can only name an
  identity already handed out: `Sketch.Wf` requires this, so a particle
  spawned later is never taken for the held one.
- **Mouse positions are not checked.** Nothing in the sketch limits
  `mouseX` and `mouseY` to the canvas, so the model accepts any position.
  The colour bounds of `Sketch.MouseMoved` are stated for positions inside
  the canvas.

## Model

| member | source | states |
|---|---|---|
| `P5Math.Constrain` | sketch.js:67 | the result lies in [lo, hi]; it is v itself inside the range, lo below it and hi above it |
| `P5Math.MapRangeWithin` | sketch.js:35-36 | `map` sends the ends of the source range to the ends of the target range, and a value inside the source range lands inside the target range |
| `Settings.InitialInRange` | sketch.js:2-6 | the knobs' initial values (size 12, hue 30, saturation 100, speed 2) lie inside their clamp ranges |
| `Settings.Wheel` | sketch.js:65-68 | the size moves by a tenth of the wheel delta and always ends in [4, 64], saturating at 4 below and 64 above; the other knobs do not change; the range invariant is kept |
| `Settings.WheelBackAndForth` | sketch.js:65-68 | away from the clamps, a wheel movement is undone by the opposite movement |
| `Settings.KeyPressed` | sketch.js:70-84 | up/down change only the hue range, by exactly 5 or to the bound 360/0; right/left do the same for the saturation range (bound 100/0); '+'/'-' do the same for the speed range (step 0.5, bound 10/0), but only when the key code is not an arrow; any other key changes nothing; the size never changes and the ranges stay in bounds |
| `Settings.KeysUndoEachOther` | sketch.js:71-82 | away from the clamps, up then down, right then left, and '+' then '-' restore the knobs |
| `Settings.UpArrowSaturates` | sketch.js:71-72 | after enough up-arrow presses the hue range is exactly 360, and the other ranges are untouched |
| `Settings.UpStaysAtTop` | sketch.js:71-72 | at 360, further up-arrow presses keep the hue range at 360 |
| `Particle.Update` | sketch.js:102-110 | the position advances by the old velocity; the lifetime drops by the drawn amount, so by more than 1 and less than 3; a plain particle's velocity is damped by 0.98; a rotating particle's angle advances by its angular velocity, which is unchanged (the override at sketch.js:144-148); id, colour, size and trail capacity do not change |
| `Particle.UpdateTrail` | sketch.js:106-109 | the trail is the old trail plus the new position, minus its oldest entry exactly when that would outgrow the capacity; it grows by one below capacity and otherwise keeps its length; its newest entry is the current position; a capped trail stays capped |
| `Particle.UpdateKeepsValid` | sketch.js:102-110 | an update keeps the trail within capacity and the turn a unit vector |
| `Particle.UpdateDampsSpeed` | sketch.js:144-148 | the squared speed is multiplied by 0.98² each update, for both classes: the rotation of a `ColoredParticle` turns its velocity without changing its length |
| `Particle.OverOwnCentre` | sketch.js:127-130 | a particle of positive size is over its own centre |
| `Particle.IsOverIsDistanceTest` | sketch.js:127-130 | the squared-distance hit test holds exactly when the Euclidean distance is strictly below size / 2 |
| `Particle.NewPlain` | sketch.js:91-100 | a new particle sits at the given point with the given colour and size; it has an empty trail, a lifetime in [100, 200), a trail capacity in [10, 30), and a speed equal to the drawn speed and so at least min(0.5, speedRange); it is not finished and is valid |
| `Particle.NewRotating` | sketch.js:138-142 | as for a plain particle (position, colour, size, empty trail, lifetime and capacity ranges, speed equal to the drawn speed and at least min(0.5, speedRange), unfinished and valid), plus an angle in [0, 2π) and an angular velocity in [-0.1, 0.1) |
| `Particle.AgeLifetime` | sketch.js:105 | after n updates the lifetime has dropped by at least n and at most 3n |
| `Particle.FinishedWithin200` | sketch.js:132-134 | a particle whose lifetime is below 200 (every new one) is finished after 200 updates |
| `Particle.NotFinishedWithin33` | sketch.js:95 | a particle whose lifetime is at least 100 (every new one) is not finished after 33 updates |
| `Particle.AgeTrail` | sketch.js:106-109 | over n updates the trail grows one entry per update until it reaches the floor of its capacity, then keeps that length; it stays capped, and its newest entry is the current position |
| `Sketch.InitWf` | sketch.js:1-7 | the initial state is well formed: knobs in range, no particles, nothing dragged, so no handle names an identity not yet handed out |
| `Sketch.Advance` | sketch.js:20-22 | every particle is updated once, the k-th with the k-th decrement, each at its own position |
| `Sketch.SurvivorsByIndex` | sketch.js:23-25 | the survivors are the particles at a strictly increasing list of positions, and those positions are exactly the ones holding an unfinished particle |
| `Sketch.SurvivorsMembers` | sketch.js:23-25 | a particle survives if and only if it was in the list and is unfinished |
| `Sketch.NoneSurvive` | sketch.js:23-25 | a list of finished particles leaves no survivors |
| `Sketch.SurvivorsKeepUniqueIds` | sketch.js:23-25 | removing finished particles keeps identities distinct |
| `Sketch.Frame` | sketch.js:20-31 | after one frame the list has not grown, no particle in it is finished, and the dragged particle, if present, sits at the mouse; the knobs and the drag handle do not change |
| `Sketch.SweepStep` | sketch.js:21-24 | one step of the reverse walk, replacing the i-th particle by its update or splicing it out when the update has finished, extends the walk's invariant from after i to i |
| `Sketch.SweepInPlace` | sketch.js:20-26 | the reverse walk with in-place splicing leaves exactly the survivors of updating every particle, in order |
| `Sketch.Draw` | sketch.js:20-31 | the loop followed by the pin computes exactly `Frame` |
| `Sketch.FrameKeepsOrder` | sketch.js:20-31 | the k-th particle survives if and only if its own update is unfinished; the survivors keep their relative order; each survivor is its particle's update, except that the dragged one is moved to the mouse |
| `Sketch.FrameWf` | sketch.js:20-31 | a frame keeps the state well formed: distinct identities below `nextId`, and trails within capacity |
| `Sketch.FrameLowersLifetimes` | sketch.js:21-25 | each survivor's lifetime is at least 1 below that of the particle it came from (the one at its kept position), so lifetimes all below a bound end all below that bound minus 1 |
| `Sketch.Frames` | sketch.js:16-31 | consecutive frames never grow the list, and never change the knobs or the drag handle |
| `Sketch.AllExpire` | sketch.js:20-26 | with no new spawns, when every lifetime lies strictly below a bound b, the list is empty after any n >= b frames (at least one); for new particles that is 200 frames |
| `Sketch.DraggedFollowsMouse` | sketch.js:28-31 | while the drag lasts, the dragged particle, as long as it is in the list, sits at the latest frame's mouse position |
| `Sketch.Spawn` | sketch.js:38 | the new particle is appended after the unchanged old list and takes the next identity, which no held drag handle names; well-formedness is kept |
| `Sketch.MouseMoved` | sketch.js:34-39 | the move appends one plain particle at the mouse with the base size, full brightness, an empty trail and the next identity, leaving the earlier particles unchanged; inside the canvas its hue lies in [0, hueRange] and its saturation in [0, satRange] |
| `Sketch.MouseMovedExample` | sketch.js:34-37 | on a 200×100 canvas with hue range 30, a move to (100, 50) gives hue 15 and saturation 50 |
| `Sketch.MousePressed` | sketch.js:41-47 | a left press appends one rotating particle at the mouse of twice the base size and with the next identity, with hue drawn from [0, hueRange), or 0 when hueRange is 0, and saturation likewise from [0, satRange); any other button leaves the state unchanged |
| `Sketch.LastOver` | sketch.js:52-57 | the scan finds the newest (highest-index) particle in the list under the point, and reports none exactly when no particle is under it |
| `Sketch.MouseDragged` | sketch.js:50-59 | with nothing held, the newest (highest-index) particle under the mouse becomes the dragged one, and if there is none nothing changes; with a particle held, even an expired one, nothing changes; the particles and knobs never change |
| `Sketch.LaterParticleWinsPick` | sketch.js:52-56 | of two overlapping particles under the mouse, the later one is picked |
| `Sketch.MouseReleased` | sketch.js:61-63 | the drag ends unconditionally and nothing else changes |
| `Sketch.ReleaseUndoesPick` | sketch.js:50-63 | a release undoes any pick, and the next drag picks afresh from the list |
| `Sketch.MouseWheel` | sketch.js:65-68 | only the base size changes, and it ends in [4, 64] |
| `Sketch.KeyPress` | sketch.js:70-84 | only the knobs change, the size is not among them, and the state stays well formed |

## Left out

- **Drawing.** `display` of both classes and the background hue cycle in
  `draw` are not modelled. They draw pixels and change no state the rest of
  the sketch reads.
- **Window handling.** `setup`, `windowResized` and `noScroll` are left out.
  They create or resize the canvas and change no modelled state.
- **Floating point.** Numbers are exact reals. Rounding and NaN are not
  modelled.
- **A zero-width or zero-height canvas.** `map` would divide by zero there,
  so `Sketch.MouseMoved` requires a positive canvas size.
- **p5's random number generator.** Each draw is an argument constrained to
  the range p5 returns.
- **The direction of `p5.Vector.random2D`.** It is an argument constrained
  to be a unit vector.
- **Trigonometry.** The velocity rotation by `angleVel` uses a cosine/sine
  pair that is supplied when the particle is made. The model only requires
  it to be a unit vector; that it belongs to `angleVel` is not stated.
- **Colour normalisation.** The colour stores the arguments given to
  `color`. p5's conversion of them is not modelled.
- Particle.Update: for a rotating particle, the new velocity is stated only
  through its length (in `Particle.UpdateDampsSpeed`), because its direction
  depends on the trigonometry left out above.
- Sketch.Frame: no invariant says the dragged particle is still in the list,
  because the sketch keeps a stale handle once that particle expires.
- Sketch.MouseMoved: hue and saturation are bounded only when the mouse is
  inside the canvas, because outside it `map` extrapolates.
- Sketch.Frames: its own contract covers only the list size and the
  unchanged knobs. Expiry and the drag pin over several frames are stated
  by `Sketch.AllExpire` and `Sketch.DraggedFollowsMouse`.
- Sketch.KeyPress: the per-key behaviour is stated once, by
  `Settings.KeyPressed`, which this handler applies to the state's knobs.
