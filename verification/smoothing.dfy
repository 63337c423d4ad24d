/**
  The moving average: calibrated readings go into a first-in first-out buffer
  of at most five entries, and each field is averaged over what it holds.
 */
module Smoothing {
  import opened FrameDecoder

  /** `buffer_size`: how many calibrated readings the moving average spans. */
  const WINDOW_SIZE: nat := 5

  function Min(a: int, b: int): int {
    if a <= b then a else b
  }

  /**
    `avg_buffer.append(r)` followed by `avg_buffer.pop(0)` when the buffer has
    grown past the window.
   */
  function Push(buffer: seq<Reading>, r: Reading): (b: seq<Reading>)
    ensures |b| == (if |buffer| < WINDOW_SIZE then |buffer| + 1 else |buffer|)
  {
    var appended := buffer + [r];
    if |appended| > WINDOW_SIZE then appended[1..] else appended
  }

  /**
    What `Push` gives is what appending gives, less its oldest entry when the
    buffer was already full: it always ends with `r`, and the entries it keeps
    stay in order.
   */
  lemma {:induction false} PushKeepsNewest(buffer: seq<Reading>, r: Reading)
    ensures Push(buffer, r) == (buffer + [r])[|buffer| + 1 - |Push(buffer, r)|..]
    ensures Push(buffer, r)[|Push(buffer, r)| - 1] == r
  {
  }

  /**
    What the buffer should hold once a history of calibrated readings has
    arrived: the last `min(n, 5)` of them, in the order they arrived.
   */
  function Window(history: seq<Reading>): seq<Reading> {
    history[|history| - Min(|history|, WINDOW_SIZE)..]
  }

  /** Pushing the next reading into the window of a history gives the window of the longer history. */
  lemma {:induction false} PushWindow(history: seq<Reading>, r: Reading)
    ensures Push(Window(history), r) == Window(history + [r])
  {
    var extended := history + [r];
    var w := Window(history);
    assert w + [r] == extended[|history| - |w|..];
  }

  /** Once a reading has arrived the window is never empty, never longer than five, and ends with the latest reading. */
  lemma {:induction false} WindowBounds(history: seq<Reading>)
    requires history != []
    ensures 1 <= |Window(history)| <= WINDOW_SIZE
    ensures Window(history)[|Window(history)| - 1] == history[|history| - 1]
  {
  }

  /** Both fields of every entry are non-negative. */
  predicate NonNegative(buffer: seq<Reading>) {
    forall i :: 0 <= i < |buffer| ==> buffer[i].current >= 0.0 && buffer[i].power >= 0.0
  }

  /** Pushing a non-negative reading into a non-negative buffer leaves it non-negative. */
  lemma {:induction false} PushNonNegative(buffer: seq<Reading>, r: Reading)
    requires NonNegative(buffer) && r.current >= 0.0 && r.power >= 0.0
    ensures NonNegative(Push(buffer, r))
  {
    var appended := buffer + [r];
    assert NonNegative(appended);
  }

  /** `sum(c for c, _ in avg_buffer)`, added left to right. */
  function SumCurrent(buffer: seq<Reading>): real {
    if buffer == [] then 0.0 else SumCurrent(buffer[..|buffer| - 1]) + buffer[|buffer| - 1].current
  }

  /** `sum(p for _, p in avg_buffer)`, added left to right. */
  function SumPower(buffer: seq<Reading>): real {
    if buffer == [] then 0.0 else SumPower(buffer[..|buffer| - 1]) + buffer[|buffer| - 1].power
  }

  /** `current_avg` and `power_avg`: each field's sum divided by `len(avg_buffer)`. */
  function Average(buffer: seq<Reading>): Reading
    requires |buffer| > 0
  {
    Reading(SumCurrent(buffer) / |buffer| as real, SumPower(buffer) / |buffer| as real)
  }

  /** Every entry of `buffer` lies, field by field, between `lo` and `hi`. */
  predicate Between(buffer: seq<Reading>, lo: Reading, hi: Reading) {
    forall i :: 0 <= i < |buffer| ==>
      lo.current <= buffer[i].current <= hi.current && lo.power <= buffer[i].power <= hi.power
  }

  /** A sum of `n` currents lying in `[lo, hi]` lies in `[n * lo, n * hi]`. */
  lemma {:induction false} SumCurrentBounds(buffer: seq<Reading>, lo: real, hi: real)
    requires forall i :: 0 <= i < |buffer| ==> lo <= buffer[i].current <= hi
    ensures |buffer| as real * lo <= SumCurrent(buffer) <= |buffer| as real * hi
    decreases |buffer|
  {
    if buffer != [] {
      var init := buffer[..|buffer| - 1];
      var n := |init| as real;
      assert forall i :: 0 <= i < |init| ==> init[i] == buffer[i];
      SumCurrentBounds(init, lo, hi);
      assert |buffer| as real * lo == n * lo + lo;
      assert |buffer| as real * hi == n * hi + hi;
    }
  }

  /** A sum of `n` powers lying in `[lo, hi]` lies in `[n * lo, n * hi]`. */
  lemma {:induction false} SumPowerBounds(buffer: seq<Reading>, lo: real, hi: real)
    requires forall i :: 0 <= i < |buffer| ==> lo <= buffer[i].power <= hi
    ensures |buffer| as real * lo <= SumPower(buffer) <= |buffer| as real * hi
    decreases |buffer|
  {
    if buffer != [] {
      var init := buffer[..|buffer| - 1];
      var n := |init| as real;
      assert forall i :: 0 <= i < |init| ==> init[i] == buffer[i];
      SumPowerBounds(init, lo, hi);
      assert |buffer| as real * lo == n * lo + lo;
      assert |buffer| as real * hi == n * hi + hi;
    }
  }

  /** A sum of `n` terms divided by `n` lies in `[lo, hi]` when the sum lies in `[n * lo, n * hi]`. */
  lemma {:induction false} Quotient(sum: real, n: real, lo: real, hi: real)
    requires n > 0.0 && n * lo <= sum <= n * hi
    ensures lo <= sum / n <= hi
  {
    assert (sum / n) * n == sum;
  }

  /** Each average lies between the least and the greatest value of its field in the buffer. */
  lemma {:induction false} AverageBounds(buffer: seq<Reading>, lo: Reading, hi: Reading)
    requires |buffer| > 0 && Between(buffer, lo, hi)
    ensures lo.current <= Average(buffer).current <= hi.current
    ensures lo.power <= Average(buffer).power <= hi.power
  {
    var n := |buffer| as real;
    SumCurrentBounds(buffer, lo.current, hi.current);
    Quotient(SumCurrent(buffer), n, lo.current, hi.current);
    SumPowerBounds(buffer, lo.power, hi.power);
    Quotient(SumPower(buffer), n, lo.power, hi.power);
  }

  /** The field-by-field greatest values of a buffer (zero for the empty one). */
  function Peak(buffer: seq<Reading>): (m: Reading)
    ensures forall i :: 0 <= i < |buffer| ==> buffer[i].current <= m.current && buffer[i].power <= m.power
  {
    if buffer == [] then Reading(0.0, 0.0)
    else
      var rest := Peak(buffer[..|buffer| - 1]);
      var last := buffer[|buffer| - 1];
      assert forall i :: 0 <= i < |buffer| - 1 ==> buffer[..|buffer| - 1][i] == buffer[i];
      Reading(if last.current > rest.current then last.current else rest.current,
              if last.power > rest.power then last.power else rest.power)
  }

  /** The averages of non-negative readings are non-negative. */
  lemma {:induction false} AverageNonNegative(buffer: seq<Reading>)
    requires |buffer| > 0 && NonNegative(buffer)
    ensures Average(buffer).current >= 0.0 && Average(buffer).power >= 0.0
  {
    AverageBounds(buffer, Reading(0.0, 0.0), Peak(buffer));
  }

  /** The averages of a buffer holding one reading repeated are that reading. */
  lemma {:induction false} AverageOfSteady(buffer: seq<Reading>, r: Reading)
    requires |buffer| > 0
    requires forall i :: 0 <= i < |buffer| ==> buffer[i] == r
    ensures Average(buffer) == r
  {
    AverageBounds(buffer, r, r);
  }
}
