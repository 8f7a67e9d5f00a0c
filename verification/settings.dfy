/**
 The four global knobs of the sketch that the keyboard and the mouse wheel
 adjust, and that later spawns read: the base particle size and the ranges
 for hue, saturation and speed.
 */
module Settings {
  import opened P5Math

  datatype Params = Params(particleSize: real, hueRange: real, satRange: real, speedRange: real)

  /** The value each knob has when the sketch loads. */
  const Initial: Params := Params(12.0, 30.0, 100.0, 2.0)

  /** Every knob inside the range its handler clamps it to. */
  predicate InRange(p: Params) {
    && 4.0 <= p.particleSize <= 64.0
    && 0.0 <= p.hueRange <= 360.0
    && 0.0 <= p.satRange <= 100.0
    && 0.0 <= p.speedRange <= 10.0
  }

  lemma InitialInRange()
    ensures InRange(Initial)
  {}

  /** A key event as p5 reports it: the numeric `keyCode` and the `key` string. */
  datatype KeyEvent = KeyEvent(keyCode: int, key: string)

  const LeftArrow: int := 37
  const UpArrow: int := 38
  const RightArrow: int := 39
  const DownArrow: int := 40

  /** Per-press steps of the keyboard knobs. */
  const HueStep: real := 5.0
  const SatStep: real := 5.0
  const SpeedStep: real := 0.5

  /** The mouse wheel: the size grows by a tenth of the wheel delta and is
      clamped to [4, 64], whatever the delta and whatever the size was. */
  function Wheel(p: Params, delta: real): (r: Params)
    ensures 4.0 <= r.particleSize <= 64.0
    ensures 4.0 <= p.particleSize + delta * 0.1 <= 64.0 ==> r.particleSize == p.particleSize + delta * 0.1
    ensures p.particleSize + delta * 0.1 < 4.0 ==> r.particleSize == 4.0
    ensures 64.0 < p.particleSize + delta * 0.1 ==> r.particleSize == 64.0
    ensures r.hueRange == p.hueRange && r.satRange == p.satRange && r.speedRange == p.speedRange
    ensures InRange(p) ==> InRange(r)
  {
    p.(particleSize := Constrain(p.particleSize + delta * 0.1, 4.0, 64.0))
  }

  /** A wheel movement inside the size range is undone by the opposite movement. */
  lemma WheelBackAndForth(p: Params, delta: real)
    requires 4.0 <= p.particleSize + delta * 0.1 <= 64.0
    requires 4.0 <= p.particleSize <= 64.0
    ensures Wheel(Wheel(p, delta), -delta) == p
  {}

  /** A key press. The arrow keys move the hue range (up/down) or the
      saturation range (right/left) by 5, '+' and '-' move the speed range by
      0.5; each clamps only at the end it moves towards. The arrow codes are
      checked before the key string. Any other key changes nothing. */
  function KeyPressed(p: Params, e: KeyEvent): (r: Params)
    ensures InRange(p) ==> InRange(r)
    ensures r.particleSize == p.particleSize
    ensures e.keyCode == UpArrow ==>
      r.satRange == p.satRange && r.speedRange == p.speedRange
      && (r.hueRange == p.hueRange + HueStep || (r.hueRange == 360.0 && 360.0 < p.hueRange + HueStep))
    ensures e.keyCode == DownArrow ==>
      r.satRange == p.satRange && r.speedRange == p.speedRange
      && (r.hueRange == p.hueRange - HueStep || (r.hueRange == 0.0 && p.hueRange - HueStep < 0.0))
    ensures e.keyCode == RightArrow ==>
      r.hueRange == p.hueRange && r.speedRange == p.speedRange
      && (r.satRange == p.satRange + SatStep || (r.satRange == 100.0 && 100.0 < p.satRange + SatStep))
    ensures e.keyCode == LeftArrow ==>
      r.hueRange == p.hueRange && r.speedRange == p.speedRange
      && (r.satRange == p.satRange - SatStep || (r.satRange == 0.0 && p.satRange - SatStep < 0.0))
    ensures !IsArrow(e.keyCode) && e.key == "+" ==>
      r.hueRange == p.hueRange && r.satRange == p.satRange
      && (r.speedRange == p.speedRange + SpeedStep || (r.speedRange == 10.0 && 10.0 < p.speedRange + SpeedStep))
    ensures !IsArrow(e.keyCode) && e.key == "-" ==>
      r.hueRange == p.hueRange && r.satRange == p.satRange
      && (r.speedRange == p.speedRange - SpeedStep || (r.speedRange == 0.0 && p.speedRange - SpeedStep < 0.0))
    ensures !IsArrow(e.keyCode) && e.key != "+" && e.key != "-" ==> r == p
  {
    if e.keyCode == UpArrow then p.(hueRange := Min(p.hueRange + HueStep, 360.0))
    else if e.keyCode == DownArrow then p.(hueRange := Max(p.hueRange - HueStep, 0.0))
    else if e.keyCode == RightArrow then p.(satRange := Min(p.satRange + SatStep, 100.0))
    else if e.keyCode == LeftArrow then p.(satRange := Max(p.satRange - SatStep, 0.0))
    else if e.key == "+" then p.(speedRange := Min(p.speedRange + SpeedStep, 10.0))
    else if e.key == "-" then p.(speedRange := Max(p.speedRange - SpeedStep, 0.0))
    else p
  }

  predicate IsArrow(code: int) {
    code == UpArrow || code == DownArrow || code == RightArrow || code == LeftArrow
  }

  /** Away from the clamps, each knob's two keys undo each other. */
  lemma KeysUndoEachOther(p: Params, code: int)
    requires InRange(p)
    ensures p.hueRange + HueStep <= 360.0 ==>
      KeyPressed(KeyPressed(p, KeyEvent(UpArrow, "ArrowUp")), KeyEvent(DownArrow, "ArrowDown")) == p
    ensures p.satRange + SatStep <= 100.0 ==>
      KeyPressed(KeyPressed(p, KeyEvent(RightArrow, "ArrowRight")), KeyEvent(LeftArrow, "ArrowLeft")) == p
    ensures !IsArrow(code) && p.speedRange + SpeedStep <= 10.0 ==>
      KeyPressed(KeyPressed(p, KeyEvent(code, "+")), KeyEvent(code, "-")) == p
  {}

  /** Repeated presses of the up arrow saturate the hue range: enough of them reach
      360 and further presses stay there. */
  lemma {:induction false} UpArrowSaturates(p: Params, n: nat)
    requires InRange(p)
    requires 360.0 <= p.hueRange + HueStep * (n as real)
    decreases n
    ensures PressUp(p, n).hueRange == 360.0
    ensures PressUp(p, n).satRange == p.satRange && PressUp(p, n).speedRange == p.speedRange
  {
    if n > 0 {
      var q := KeyPressed(p, KeyEvent(UpArrow, "ArrowUp"));
      if q.hueRange == 360.0 {
        UpStaysAtTop(q, n - 1);
      } else {
        assert q.hueRange == p.hueRange + HueStep;
        UpArrowSaturates(q, n - 1);
      }
    }
  }

  lemma {:induction false} UpStaysAtTop(p: Params, n: nat)
    requires InRange(p) && p.hueRange == 360.0
    decreases n
    ensures PressUp(p, n).hueRange == 360.0
    ensures PressUp(p, n).satRange == p.satRange && PressUp(p, n).speedRange == p.speedRange
  {
    if n > 0 {
      UpStaysAtTop(KeyPressed(p, KeyEvent(UpArrow, "ArrowUp")), n - 1);
    }
  }

  /** The knobs after `n` presses of the up arrow. */
  function PressUp(p: Params, n: nat): Params
    decreases n
  {
    if n == 0 then p else PressUp(KeyPressed(p, KeyEvent(UpArrow, "ArrowUp")), n - 1)
  }
}
