/**
  Energy accounting: the smoothed power at a sample is held over the whole
  interval since the previous sample and converted from watt-seconds to
  kilowatt-hours.
 */
module Energy {

  /** Watt-seconds in one kilowatt-hour: 3600 seconds times 1000 watts. */
  const WATT_SECONDS_PER_KWH: real := 3600000.0

  /**
    `(power_avg * elapsed_seconds) / 3600000.0`: the increment in kWh is
    non-negative for a non-negative power over a forward interval and negative
    for a positive power over a backward one (the interval is not clamped).
   */
  function Increment(powerAvg: real, elapsedSeconds: real): real {
    (powerAvg * elapsedSeconds) / WATT_SECONDS_PER_KWH
  }

  /**
    The increment is non-negative for a non-negative power over a forward
    interval, and negative for a positive power over a backward one: the
    interval is not clamped.
   */
  lemma {:induction false} IncrementSign(powerAvg: real, elapsedSeconds: real)
    ensures powerAvg >= 0.0 && elapsedSeconds >= 0.0 ==> Increment(powerAvg, elapsedSeconds) >= 0.0
    ensures powerAvg > 0.0 && elapsedSeconds < 0.0 ==> Increment(powerAvg, elapsedSeconds) < 0.0
  {
    if powerAvg >= 0.0 && elapsedSeconds >= 0.0 {
      assert powerAvg * elapsedSeconds >= 0.0;
    }
    if powerAvg > 0.0 && elapsedSeconds < 0.0 {
      assert powerAvg * elapsedSeconds < 0.0;
    }
  }

  /** The increment is the energy in watt-seconds, power times time, expressed in kilowatt-hours. */
  lemma {:induction false} IncrementIsEnergy(powerAvg: real, elapsedSeconds: real)
    ensures Increment(powerAvg, elapsedSeconds) * WATT_SECONDS_PER_KWH == powerAvg * elapsedSeconds
  {
  }

  /** Holding one power over two back-to-back intervals counts the same energy as over their union. */
  lemma {:induction false} IncrementAdditive(powerAvg: real, first: real, second: real)
    ensures Increment(powerAvg, first) + Increment(powerAvg, second) == Increment(powerAvg, first + second)
  {
    var a, b := Increment(powerAvg, first), Increment(powerAvg, second);
    IncrementIsEnergy(powerAvg, first);
    IncrementIsEnergy(powerAvg, second);
    IncrementIsEnergy(powerAvg, first + second);
    assert (a + b) * WATT_SECONDS_PER_KWH == powerAvg * (first + second);
  }

  /** Over a forward interval, more power never counts less energy. */
  lemma {:induction false} IncrementMonotone(lower: real, higher: real, elapsedSeconds: real)
    requires lower <= higher && elapsedSeconds >= 0.0
    ensures Increment(lower, elapsedSeconds) <= Increment(higher, elapsedSeconds)
  {
    assert (higher - lower) * elapsedSeconds >= 0.0;
    assert Increment(higher, elapsedSeconds) - Increment(lower, elapsedSeconds)
      == Increment(higher - lower, elapsedSeconds);
  }
}
