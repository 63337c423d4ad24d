/**
  The two corrections the listener applies to every accepted reading: a dead
  zone that zeroes near-zero currents together with their power, then a fixed
  offset subtracted from both fields and clamped at zero.
 */
module Calibration {
  import opened FrameDecoder

  /** Currents whose magnitude is below this many amperes count as no load. */
  const DEAD_ZONE_AMPS: real := 0.2

  /** Sensor bias removed from the current (A) and, with the same number, from the power (W). */
  const OFFSET: real := 0.350

  /** Python's `abs` on a number. */
  function Abs(x: real): (r: real)
    ensures r >= 0.0 && (r == x || r == -x)
  {
    if x < 0.0 then -x else x
  }

  /** Python's `max(0.0, x)`. */
  function ClampZero(x: real): (r: real)
    ensures r >= 0.0 && r >= x && (r == 0.0 || r == x)
  {
    if x > 0.0 then x else 0.0
  }

  /**
    The dead zone, then the clamped offset. Both fields come out non-negative;
    the current is always `max(0, current - 0.35)` whether or not the dead zone
    applied; inside the dead zone the power is zero whatever was reported, and
    outside it the power is `max(0, power - 0.35)`.
   */
  function Calibrate(raw: Reading): (cal: Reading)
    ensures cal.current >= 0.0 && cal.power >= 0.0
    ensures cal.current == ClampZero(raw.current - OFFSET)
    ensures Abs(raw.current) < DEAD_ZONE_AMPS ==> cal == Reading(0.0, 0.0)
    ensures Abs(raw.current) >= DEAD_ZONE_AMPS ==> cal.power == ClampZero(raw.power - OFFSET)
  {
    var gated := if Abs(raw.current) < DEAD_ZONE_AMPS then Reading(0.0, 0.0) else raw;
    Reading(ClampZero(gated.current - OFFSET), ClampZero(gated.power - OFFSET))
  }

  /**
    Outside the dead zone but at or below the offset (including any negative
    current), the current is zeroed while the power is still passed through.
   */
  lemma {:induction false} CurrentZeroedPowerKept(raw: Reading)
    requires Abs(raw.current) >= DEAD_ZONE_AMPS && raw.current <= OFFSET
    ensures Calibrate(raw).current == 0.0
    ensures Calibrate(raw).power == ClampZero(raw.power - OFFSET)
  {
  }

  /** Calibration never increases a non-negative reading. */
  lemma {:induction false} CalibrateShrinks(raw: Reading)
    requires raw.current >= 0.0 && raw.power >= 0.0
    ensures Calibrate(raw).current <= raw.current
    ensures Calibrate(raw).power <= raw.power
  {
  }
}
