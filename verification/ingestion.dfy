/**
  The listener's per-datagram pipeline and the state it keeps between
  datagrams: decode, warm-up gate, calibration, moving average, energy
  accumulation and the append to the telemetry series.

  `Absorb` is what accepting one sample does to the state, and `Replay` folds
  it over the history of accepted samples. A `Pipeline` keeps the state in
  fields, as the listener does, and `Valid` ties them to the replay of the
  samples it has accepted. The lemmas state in closed form what the replay
  holds: the last five calibrated readings, the time of the latest sample, one
  record per sample and an energy total that grows along a forward clock.
 */
module Ingestion {
  import opened Wrappers
  import opened FrameDecoder
  import opened Calibration
  import opened Smoothing
  import opened Energy

  /** `warmup_duration`: seconds after start during which decoded samples are dropped. */
  const WARMUP_SECONDS: real := 60.0

  /** One entry of the `data` series: time, smoothed current (A), smoothed power (W), running total (kWh). */
  datatype Record = Record(timestamp: real, current: real, power: real, energyKwh: real)

  /** A decoded datagram that passed the warm-up gate: its arrival time and the raw reading it carried. */
  datatype Sample = Sample(time: real, raw: Reading)

  /** A datagram's payload and the time `datetime.now()` gives when it is taken off the socket. */
  datatype Datagram = Datagram(payload: string, arrival: real)

  /** What became of one datagram. */
  datatype Outcome =
    | ParseError  // the `except` branch: the payload did not decode
    | Settling    // decoded, but inside the warm-up window, so skipped
    | Logged      // calibrated, averaged, integrated and appended

  /** The variables the listener carries from one datagram to the next. */
  datatype State = State(warmupDone: bool, buffer: seq<Reading>, lastTime: real, totalKwh: real, rows: seq<Record>)

  // ---------------------------------------------------------------------------
  // What accepting samples does to the state.
  // ---------------------------------------------------------------------------

  /** The state before any sample: not warmed up, nothing buffered or logged, the clock at the start time. */
  function Initial(start: real): State {
    State(false, [], start, 0.0, [])
  }

  /**
    Accepting one sample: the warm-up is over, its calibrated reading goes into
    the buffer, the averages are taken over the buffer, the average power held
    since the previous sample is added to the total and one record is appended.
   */
  function Absorb(st: State, s: Sample): State {
    var buffer := Push(st.buffer, Calibrate(s.raw));
    var avg := Average(buffer);
    var total := st.totalKwh + Increment(avg.power, s.time - st.lastTime);
    State(true, buffer, s.time, total, st.rows + [Record(s.time, avg.current, avg.power, total)])
  }

  /** `avg_buffer` after a history of accepted samples, oldest first: one push per sample. */
  function Buffer(accepted: seq<Sample>): (buffer: seq<Reading>)
    ensures |buffer| == Min(|accepted|, WINDOW_SIZE)
  {
    if accepted == [] then []
    else Push(Buffer(accepted[..|accepted| - 1]), Calibrate(accepted[|accepted| - 1].raw))
  }

  /** `last_time`: the time of the latest accepted sample, or the start time before any. */
  function LastTime(start: real, accepted: seq<Sample>): real {
    if accepted == [] then start else accepted[|accepted| - 1].time
  }

  /** The averages logged with the latest sample: the mean of what the buffer then holds. */
  function Smoothed(accepted: seq<Sample>): Reading
    requires accepted != []
  {
    Average(Buffer(accepted))
  }

  /** `total_energy_kwh`: each sample adds its smoothed power held since the previous sample. */
  function TotalKwh(start: real, accepted: seq<Sample>): real {
    if accepted == [] then 0.0
    else
      var previous := accepted[..|accepted| - 1];
      TotalKwh(start, previous)
        + Increment(Smoothed(accepted).power, accepted[|accepted| - 1].time - LastTime(start, previous))
  }

  /** `data`: one record per sample, carrying its time, the smoothed averages and the total so far. */
  function Rows(start: real, accepted: seq<Sample>): seq<Record> {
    if accepted == [] then []
    else
      Rows(start, accepted[..|accepted| - 1])
        + [Record(accepted[|accepted| - 1].time, Smoothed(accepted).current, Smoothed(accepted).power,
                  TotalKwh(start, accepted))]
  }

  /** The state after a history of accepted samples, field by field. */
  function Replay(start: real, accepted: seq<Sample>): State {
    State(accepted != [], Buffer(accepted), LastTime(start, accepted), TotalKwh(start, accepted), Rows(start, accepted))
  }

  /** The calibrated readings of a history of samples, in order. */
  function CalibratedHistory(accepted: seq<Sample>): (cal: seq<Reading>)
    ensures |cal| == |accepted|
  {
    if accepted == [] then []
    else CalibratedHistory(accepted[..|accepted| - 1]) + [Calibrate(accepted[|accepted| - 1].raw)]
  }

  /** Every accepted sample arrived once the warm-up window was over. */
  predicate PastWarmup(start: real, accepted: seq<Sample>) {
    forall i :: 0 <= i < |accepted| ==> accepted[i].time - start >= WARMUP_SECONDS
  }

  /** Each accepted sample arrived no earlier than the one before it (or the start). */
  predicate Chronological(start: real, accepted: seq<Sample>) {
    forall i :: 0 <= i < |accepted| ==> LastTime(start, accepted[..i]) <= accepted[i].time
  }

  /** Whether the listener logs a datagram: it decodes and arrives after the warm-up window. */
  predicate Admits(start: real, d: Datagram) {
    Decode(d.payload).Some? && d.arrival - start >= WARMUP_SECONDS
  }

  /** The sample a datagram contributes: its reading at its arrival time if the listener admits it, none otherwise. */
  function Admission(start: real, d: Datagram): (added: seq<Sample>)
    ensures |added| <= 1
    ensures added != [] <==> Admits(start, d)
  {
    if Admits(start, d) then [Sample(d.arrival, Decode(d.payload).value)] else []
  }

  /** The samples the listener accepts from a sequence of datagrams, in arrival order. */
  function Admitted(start: real, datagrams: seq<Datagram>): (accepted: seq<Sample>)
    ensures |accepted| <= |datagrams|
  {
    if datagrams == [] then []
    else Admitted(start, datagrams[..|datagrams| - 1]) + Admission(start, datagrams[|datagrams| - 1])
  }

  /** Taking one more datagram adds what it contributes. */
  lemma {:induction false} AdmittedOneMore(start: real, datagrams: seq<Datagram>, i: nat)
    requires i < |datagrams|
    ensures Admitted(start, datagrams[..i + 1]) == Admitted(start, datagrams[..i]) + Admission(start, datagrams[i])
  {
    assert datagrams[..i + 1][..i] == datagrams[..i];
  }

  /** Arrival times never run backwards: the first is no earlier than `from`, and each no earlier than the one before. */
  predicate InOrder(from: real, datagrams: seq<Datagram>) {
    && (|datagrams| > 0 ==> from <= datagrams[0].arrival)
    && (forall i :: 0 < i < |datagrams| ==> datagrams[i - 1].arrival <= datagrams[i].arrival)
  }

  // ---------------------------------------------------------------------------
  // Properties of the replayed state.
  // ---------------------------------------------------------------------------

  /**
    `Replay` is the fold of `Absorb`: the empty history gives the initial
    state, and one more sample is absorbed into the state the shorter history
    left.
   */
  lemma {:induction false} ReplayAcceptOne(start: real, accepted: seq<Sample>, s: Sample)
    ensures Replay(start, []) == Initial(start)
    ensures Replay(start, accepted + [s]) == Absorb(Replay(start, accepted), s)
  {
    SplitLast(accepted, s);
  }

  lemma {:induction false} CalibratedAcceptOne(accepted: seq<Sample>, s: Sample)
    ensures CalibratedHistory(accepted + [s]) == CalibratedHistory(accepted) + [Calibrate(s.raw)]
  {
    SplitLast(accepted, s);
  }

  /** The buffer holds the calibrated readings of the last `min(n, 5)` samples, in arrival order. */
  lemma {:induction false} BufferIsWindow(accepted: seq<Sample>)
    ensures Buffer(accepted) == Window(CalibratedHistory(accepted))
    decreases |accepted|
  {
    if accepted != [] {
      var previous := accepted[..|accepted| - 1];
      var s := accepted[|accepted| - 1];
      BufferIsWindow(previous);
      PushWindow(CalibratedHistory(previous), Calibrate(s.raw));
    }
  }

  /** Every buffered reading is calibrated, hence non-negative in both fields. */
  lemma {:induction false} BufferNonNegative(accepted: seq<Sample>)
    ensures NonNegative(Buffer(accepted))
    decreases |accepted|
  {
    if accepted != [] {
      var previous := accepted[..|accepted| - 1];
      BufferNonNegative(previous);
      PushNonNegative(Buffer(previous), Calibrate(accepted[|accepted| - 1].raw));
    }
  }

  /** Every logged average is non-negative. */
  lemma {:induction false} SmoothedNonNegative(accepted: seq<Sample>)
    requires accepted != []
    ensures Smoothed(accepted).current >= 0.0 && Smoothed(accepted).power >= 0.0
  {
    BufferNonNegative(accepted);
    AverageNonNegative(Buffer(accepted));
  }

  /** The logged averages are the means of the last `min(n, 5)` calibrated readings. */
  lemma {:induction false} SmoothedIsWindowMean(accepted: seq<Sample>)
    requires accepted != []
    ensures Smoothed(accepted) == Average(Window(CalibratedHistory(accepted)))
  {
    BufferIsWindow(accepted);
  }

  /** There is one record per accepted sample. */
  lemma {:induction false} RowCount(start: real, accepted: seq<Sample>)
    ensures |Rows(start, accepted)| == |accepted|
    decreases |accepted|
  {
    if accepted != [] {
      RowCount(start, accepted[..|accepted| - 1]);
    }
  }

  // Sequence facts, proved apart so that their extensional reasoning stays out of the replay proofs.

  lemma {:induction false} SplitLast(xs: seq<Sample>, x: Sample)
    ensures (xs + [x])[..|xs + [x]| - 1] == xs && (xs + [x])[|xs + [x]| - 1] == x
  {
    assert (xs + [x])[..|xs|] == xs;
  }

  lemma {:induction false} InitLast(xs: seq<Sample>)
    requires xs != []
    ensures xs == xs[..|xs| - 1] + [xs[|xs| - 1]]
  {
  }

  lemma {:induction false} TakeOneMore(xs: seq<Sample>, j: nat)
    requires j < |xs|
    ensures xs[..j + 1] == xs[..j] + [xs[j]]
  {
  }

  lemma {:induction false} SplitAt(xs: seq<Sample>, k: nat)
    requires k <= |xs|
    ensures xs[..k] + xs[k..] == xs
  {
  }

  lemma {:induction false} AppendAssociative(a: seq<Sample>, b: seq<Sample>, c: seq<Sample>)
    ensures (a + b) + c == a + (b + c)
  {
  }

  /**
    Accepting one more sample adds its smoothed power held since the previous
    sample, or since the start for the first one.
   */
  lemma {:induction false} TotalAcceptOne(start: real, accepted: seq<Sample>, s: Sample)
    ensures TotalKwh(start, accepted + [s])
      == TotalKwh(start, accepted) + Increment(Smoothed(accepted + [s]).power, s.time - LastTime(start, accepted))
  {
    ReplayAcceptOne(start, accepted, s);
    assert Buffer(accepted + [s]) == Push(Buffer(accepted), Calibrate(s.raw));
  }

  /** Accepting one more sample appends one record carrying its time, the smoothed averages and the new total. */
  lemma {:induction false} RowsAcceptOne(start: real, accepted: seq<Sample>, s: Sample)
    ensures Rows(start, accepted + [s]) == Rows(start, accepted)
      + [Record(s.time, Smoothed(accepted + [s]).current, Smoothed(accepted + [s]).power, TotalKwh(start, accepted + [s]))]
  {
    SplitLast(accepted, s);
  }

  /** The series only grows: the records of a history stay, unchanged, at the front of any longer one's. */
  lemma {:induction false} RowsAppendOnly(start: real, accepted: seq<Sample>, later: seq<Sample>)
    ensures Rows(start, accepted) <= Rows(start, accepted + later)
    decreases |later|
  {
    if later != [] {
      var init := later[..|later| - 1];
      var s := later[|later| - 1];
      InitLast(later);
      AppendAssociative(accepted, init, [s]);
      RowsAppendOnly(start, accepted, init);
      RowsAcceptOne(start, accepted + init, s);
    } else {
      assert accepted + later == accepted;
    }
  }

  /** The records of the first `k` samples are the first `k` records. */
  lemma {:induction false} RowsPrefix(start: real, accepted: seq<Sample>, k: nat)
    requires k <= |accepted|
    ensures Rows(start, accepted[..k]) <= Rows(start, accepted)
  {
    SplitAt(accepted, k);
    RowsAppendOnly(start, accepted[..k], accepted[k..]);
  }

  /** Record `i` is what the listener logged right after the `i + 1`-th sample. */
  lemma {:induction false} ReplayRecord(start: real, accepted: seq<Sample>, i: nat)
    requires i < |accepted|
    ensures |Rows(start, accepted)| == |accepted|
    ensures Rows(start, accepted)[i] == Record(accepted[i].time,
      Smoothed(accepted[..i + 1]).current, Smoothed(accepted[..i + 1]).power, TotalKwh(start, accepted[..i + 1]))
  {
    var upTo := accepted[..i + 1];
    RowCount(start, accepted);
    RowCount(start, upTo);
    RowsPrefix(start, accepted, i + 1);
    assert Rows(start, upTo)[i] == Rows(start, accepted)[i];
  }

  /** Accepting a sample no earlier than the previous one never lowers the total. */
  lemma {:induction false} AcceptOneGrows(start: real, accepted: seq<Sample>, s: Sample)
    requires s.time >= LastTime(start, accepted)
    ensures TotalKwh(start, accepted + [s]) >= TotalKwh(start, accepted)
  {
    TotalAcceptOne(start, accepted, s);
    SmoothedNonNegative(accepted + [s]);
    IncrementSign(Smoothed(accepted + [s]).power, s.time - LastTime(start, accepted));
  }

  /** A sample time-stamped before its predecessor, with a positive average power, lowers the total. */
  lemma {:induction false} ClockRegressionLowersTotal(start: real, accepted: seq<Sample>, s: Sample)
    requires s.time < LastTime(start, accepted)
    requires Smoothed(accepted + [s]).power > 0.0
    ensures TotalKwh(start, accepted + [s]) < TotalKwh(start, accepted)
  {
    TotalAcceptOne(start, accepted, s);
    IncrementSign(Smoothed(accepted + [s]).power, s.time - LastTime(start, accepted));
  }

  /** With the clock running forward, the total after `j` samples is at most the total after `k >= j`. */
  lemma {:induction false} TotalEnergyGrows(start: real, accepted: seq<Sample>, j: nat, k: nat)
    requires Chronological(start, accepted)
    requires j <= k <= |accepted|
    ensures TotalKwh(start, accepted[..j]) <= TotalKwh(start, accepted[..k])
    decreases k - j
  {
    if j < k {
      TotalEnergyGrows(start, accepted, j + 1, k);
      TakeOneMore(accepted, j);
      AcceptOneGrows(start, accepted[..j], accepted[j]);
    }
  }

  /** With the clock running forward, the energy total never drops below zero. */
  lemma {:induction false} TotalNonNegative(start: real, accepted: seq<Sample>)
    requires Chronological(start, accepted)
    ensures TotalKwh(start, accepted) >= 0.0
  {
    TotalEnergyGrows(start, accepted, 0, |accepted|);
    assert accepted[..0] == [];
    assert accepted[..|accepted|] == accepted;
  }

  /** Along a chronological history the series' energy column is non-negative and non-decreasing. */
  lemma {:induction false} SeriesEnergyNonDecreasing(start: real, accepted: seq<Sample>, i: nat, j: nat)
    requires Chronological(start, accepted)
    requires i <= j < |accepted|
    ensures |Rows(start, accepted)| == |accepted|
    ensures 0.0 <= Rows(start, accepted)[i].energyKwh <= Rows(start, accepted)[j].energyKwh
  {
    ReplayRecord(start, accepted, i);
    ReplayRecord(start, accepted, j);
    TotalEnergyGrows(start, accepted, 0, i + 1);
    TotalEnergyGrows(start, accepted, i + 1, j + 1);
    assert accepted[..0] == [];
  }

  /**
    The first record's energy is the first calibrated power held over the
    whole time since start, warm-up included.
   */
  lemma {:induction false} FirstInterval(start: real, accepted: seq<Sample>)
    requires accepted != [] && PastWarmup(start, accepted)
    ensures accepted[0].time - start >= WARMUP_SECONDS
    ensures |Rows(start, accepted)| == |accepted|
    ensures Rows(start, accepted)[0].energyKwh == Increment(Calibrate(accepted[0].raw).power, accepted[0].time - start)
  {
    ReplayRecord(start, accepted, 0);
    var first := accepted[..1];
    assert first[..0] == [];
    AverageOfSteady([Calibrate(accepted[0].raw)], Calibrate(accepted[0].raw));
  }

  // ---------------------------------------------------------------------------
  // The listener.
  // ---------------------------------------------------------------------------

  /** The state `udp_listener` keeps across datagrams. */
  class Pipeline {
    const startTime: real
    var warmupDone: bool
    var avgBuffer: seq<Reading>
    var lastTime: real
    var totalEnergyKwh: real
    var data: seq<Record>

    /** The samples accepted so far; every field above is determined by it. */
    ghost var accepted: seq<Sample>

    function Snapshot(): State
      reads this
    {
      State(warmupDone, avgBuffer, lastTime, totalEnergyKwh, data)
    }

    ghost predicate Valid()
      reads this
    {
      Snapshot() == Replay(startTime, accepted) && PastWarmup(startTime, accepted)
    }

    /** The listener as it starts: nothing buffered, nothing logged, the clock at the start time. */
    constructor(startTime: real)
      ensures Valid()
      ensures this.startTime == startTime && accepted == []
      ensures Snapshot() == Initial(startTime)
    {
      this.startTime := startTime;
      warmupDone := false;
      avgBuffer := [];
      lastTime := startTime;
      totalEnergyKwh := 0.0;
      data := [];
      accepted := [];
    }

    /**
      One pass of the listener's loop for a datagram received at `now`. A
      payload that does not decode takes the exception path whatever the time;
      one that decodes during warm-up is skipped; either way nothing changes.
      Otherwise the reading is accepted.
     */
    method Step(payload: string, now: real) returns (outcome: Outcome)
      requires Valid()
      modifies this
      ensures Valid()
      ensures outcome == ParseError <==> Decode(payload).None?
      ensures outcome == Settling <==> Decode(payload).Some? && now - startTime < WARMUP_SECONDS
      ensures outcome == Logged <==> Decode(payload).Some? && now - startTime >= WARMUP_SECONDS
      ensures outcome != Logged ==> unchanged(this)
      ensures accepted == old(accepted) + Admission(startTime, Datagram(payload, now))
      ensures outcome == Logged ==> warmupDone && lastTime == now && old(data) <= data
      ensures outcome == Logged && now >= old(lastTime) ==> totalEnergyKwh >= old(totalEnergyKwh)
    {
      var elapsedSinceStart := now - startTime;
      var decoded := Decode(payload);
      if decoded.None? {
        return ParseError;
      }
      if elapsedSinceStart < WARMUP_SECONDS {
        return Settling;
      }
      Accept(decoded.value, now);
      return Logged;
    }

    /**
      Accepting a decoded reading that arrived after the warm-up window: the
      state becomes the replay of the longer history, the warm-up is over, the
      buffer holds one to five entries, the logged averages are non-negative,
      and the total does not go down unless the clock went back.
     */
    method Accept(raw: Reading, now: real)
      requires Valid()
      requires now - startTime >= WARMUP_SECONDS
      modifies this
      ensures Valid()
      ensures accepted == old(accepted) + [Sample(now, raw)]
      ensures warmupDone && lastTime == now
      ensures 1 <= |avgBuffer| <= WINDOW_SIZE
      ensures |data| == |old(data)| + 1 && old(data) <= data
      ensures data[|old(data)|].current >= 0.0 && data[|old(data)|].power >= 0.0
      ensures data[|old(data)|].energyKwh == totalEnergyKwh
      ensures now >= old(lastTime) ==> totalEnergyKwh >= old(totalEnergyKwh)
    {
      var sample := Sample(now, raw);
      ReplayAcceptOne(startTime, accepted, sample);
      AcceptFacts(startTime, accepted, sample);
      Process(raw, now);
      accepted := accepted + [sample];
    }

    /**
      The body of the loop once a reading has passed the warm-up gate: mark the
      warm-up over, calibrate, push into the buffer, average, add the energy
      held since the previous sample and append the record.
     */
    method Process(raw: Reading, now: real)
      modifies this
      ensures Snapshot() == Absorb(old(Snapshot()), Sample(now, raw))
      ensures accepted == old(accepted)
    {
      if !warmupDone {
        warmupDone := true;
      }
      var cal := Calibrate(raw);
      avgBuffer := avgBuffer + [cal];
      if |avgBuffer| > WINDOW_SIZE {
        avgBuffer := avgBuffer[1..];
      }
      var avg := Average(avgBuffer);
      var elapsedSeconds := now - lastTime;
      lastTime := now;
      totalEnergyKwh := totalEnergyKwh + Increment(avg.power, elapsedSeconds);
      data := data + [Record(now, avg.current, avg.power, totalEnergyKwh)];
    }

    /**
      The `while True` loop over a finite run of datagrams: the samples it
      accepts are exactly the admitted ones, the series only grows, and when
      arrivals never run backwards the energy total does not decrease.
     */
    method Listen(datagrams: seq<Datagram>)
      requires Valid()
      modifies this
      ensures Valid()
      ensures accepted == old(accepted) + Admitted(startTime, datagrams)
      ensures old(data) <= data
      ensures old(warmupDone) ==> warmupDone
      ensures InOrder(old(lastTime), datagrams) ==> totalEnergyKwh >= old(totalEnergyKwh)
    {
      for i := 0 to |datagrams|
        invariant Valid()
        invariant accepted == old(accepted) + Admitted(startTime, datagrams[..i])
        invariant old(data) <= data
        invariant old(warmupDone) ==> warmupDone
        invariant InOrder(old(lastTime), datagrams) ==>
          totalEnergyKwh >= old(totalEnergyKwh) && (i < |datagrams| ==> lastTime <= datagrams[i].arrival)
      {
        var d := datagrams[i];
        var outcome := Step(d.payload, d.arrival);
        AdmittedOneMore(startTime, datagrams, i);
        AppendAssociative(old(accepted), Admitted(startTime, datagrams[..i]), Admission(startTime, d));
      }
      assert datagrams[..|datagrams|] == datagrams;
    }
  }

  /** The per-sample facts `Pipeline.Accept` promises, stated on the replayed fields. */
  lemma {:induction false} AcceptFacts(start: real, accepted: seq<Sample>, s: Sample)
    ensures var rows, rows' := Rows(start, accepted), Rows(start, accepted + [s]);
      && |rows'| == |rows| + 1 && rows <= rows'
      && rows'[|rows|].current >= 0.0 && rows'[|rows|].power >= 0.0
      && rows'[|rows|].energyKwh == TotalKwh(start, accepted + [s])
    ensures s.time >= LastTime(start, accepted) ==> TotalKwh(start, accepted + [s]) >= TotalKwh(start, accepted)
  {
    RowsAcceptOne(start, accepted, s);
    SmoothedNonNegative(accepted + [s]);
    if s.time >= LastTime(start, accepted) {
      AcceptOneGrows(start, accepted, s);
    }
  }
}
