/**
  Turning one datagram payload into a raw sensor reading: the payload is
  stripped, split on commas into exactly two fields, and each field is read
  with Python's `float()`. Any failure is the exception the listener catches.
 */
module FrameDecoder {
  import opened Wrappers
  import PyText
  import PyFloat

  /** A reading as the sensor reports it: RMS current in amperes and power in watts. */
  datatype Reading = Reading(current: real, power: real)

  const SEPARATOR: char := ','

  /**
    `message.decode().strip().split(",")`, unpacked into two fields and each read
    with `float()`; `None` is the exception raised when the split does not give
    exactly two fields or a field is not a number.
   */
  function Decode(payload: string): Option<Reading> {
    ReadFields(PyText.Split(PyText.Strip(payload), SEPARATOR))
  }

  /** `current_str, power_str = fields`, then `float(current_str)` and `float(power_str)`. */
  function ReadFields(fields: seq<string>): Option<Reading> {
    if |fields| != 2 then
      None
    else
      match (PyFloat.ParseNum(fields[0]), PyFloat.ParseNum(fields[1]))
      case (Some(current), Some(power)) => Some(Reading(current, power))
      case _ => None
  }

  /** A payload whose stripped text does not hold exactly one comma is rejected. */
  lemma {:induction false} DecodeNeedsOneSeparator(payload: string)
    requires PyText.Count(PyText.Strip(payload), SEPARATOR) != 1
    ensures Decode(payload) == None
  {
    PyText.SplitParts(PyText.Strip(payload), SEPARATOR);
  }

  /**
    When the stripped payload is `a,b` with no further comma, the payload is
    accepted exactly when both `a` and `b` are numbers, and then it reads as them.
   */
  lemma {:induction false} DecodeFields(payload: string, a: string, b: string)
    requires PyText.Strip(payload) == a + [SEPARATOR] + b
    requires SEPARATOR !in a && SEPARATOR !in b
    ensures Decode(payload).Some? <==> PyFloat.ParseNum(a).Some? && PyFloat.ParseNum(b).Some?
    ensures Decode(payload).Some? ==>
      Decode(payload).value == Reading(PyFloat.ParseNum(a).value, PyFloat.ParseNum(b).value)
  {
    SplitAtSeparator(payload, a, b);
    ReadPair(a, b);
  }

  lemma {:induction false} SplitAtSeparator(payload: string, a: string, b: string)
    requires PyText.Strip(payload) == a + [SEPARATOR] + b
    requires SEPARATOR !in a && SEPARATOR !in b
    ensures Decode(payload) == ReadFields([a, b])
  {
    PyText.SplitPair(a, SEPARATOR, b);
  }

  /** Two fields are read exactly when both are numbers. */
  lemma {:induction false} ReadPair(a: string, b: string)
    ensures ReadFields([a, b]).Some? <==> PyFloat.ParseNum(a).Some? && PyFloat.ParseNum(b).Some?
    ensures ReadFields([a, b]).Some? ==>
      ReadFields([a, b]).value == Reading(PyFloat.ParseNum(a).value, PyFloat.ParseNum(b).value)
  {
  }

  /**
    An accepted payload has, after stripping, exactly one comma; the text before
    it reads as the current and the text after it as the power.
   */
  lemma {:induction false} DecodeAccepted(payload: string)
    requires Decode(payload).Some?
    ensures PyText.Count(PyText.Strip(payload), SEPARATOR) == 1
    ensures PyText.IndexOf(PyText.Strip(payload), SEPARATOR) < |PyText.Strip(payload)|
    ensures PyFloat.ParseNum(PyText.Strip(payload)[..PyText.IndexOf(PyText.Strip(payload), SEPARATOR)])
      == Some(Decode(payload).value.current)
    ensures PyFloat.ParseNum(PyText.Strip(payload)[PyText.IndexOf(PyText.Strip(payload), SEPARATOR) + 1..])
      == Some(Decode(payload).value.power)
  {
    PyText.SplitParts(PyText.Strip(payload), SEPARATOR);
    PyText.SplitInTwo(PyText.Strip(payload), SEPARATOR);
  }

  /** The firmware prints the current with three decimals and the power with two. */
  const MILLIAMPS_PER_AMP: real := 1000.0
  const CENTIWATTS_PER_WATT: real := 100.0

  /**
    The payload the sensor firmware sends, `snprintf("%.3f,%.2f", Irms, power)`,
    for a current of `milliamps` thousandths of an ampere and a power of
    `centiwatts` hundredths of a watt.
   */
  function EncodeFrame(milliamps: int, centiwatts: int): string {
    PyFloat.FormatFixed(milliamps, 3) + [SEPARATOR] + PyFloat.FormatFixed(centiwatts, 2)
  }

  /** Every payload the firmware sends decodes to exactly the values it printed. */
  lemma {:induction false} DecodeEncodeFrame(milliamps: int, centiwatts: int)
    ensures Decode(EncodeFrame(milliamps, centiwatts))
      == Some(Reading(milliamps as real / MILLIAMPS_PER_AMP, centiwatts as real / CENTIWATTS_PER_WATT))
  {
    FirmwareScales();
    DecodeFixedPair(EncodeFrame(milliamps, centiwatts), milliamps, 3, MILLIAMPS_PER_AMP, centiwatts, 2, CENTIWATTS_PER_WATT);
  }

  lemma {:induction false} FirmwareScales()
    ensures PyFloat.TenTo(3) as real == MILLIAMPS_PER_AMP
    ensures PyFloat.TenTo(2) as real == CENTIWATTS_PER_WATT
  {
  }

  /**
    Two fixed-point literals joined by a comma decode to their values; `scaleX`
    and `scaleY` are ten to the number of decimals each was printed with.
   */
  lemma {:induction false} DecodeFixedPair(frame: string, x: int, placesX: nat, scaleX: real, y: int, placesY: nat, scaleY: real)
    requires frame == PyFloat.FormatFixed(x, placesX) + [SEPARATOR] + PyFloat.FormatFixed(y, placesY)
    requires PyFloat.TenTo(placesX) as real == scaleX && PyFloat.TenTo(placesY) as real == scaleY
    ensures Decode(frame) == Some(Reading(x as real / scaleX, y as real / scaleY))
  {
    var a := PyFloat.FormatFixed(x, placesX);
    var b := PyFloat.FormatFixed(y, placesY);
    FixedPairFields(x, placesX, y, placesY);
    DecodeFields(frame, a, b);
    ParseScaled(x, placesX, scaleX);
    ParseScaled(y, placesY, scaleY);
  }

  /** A field printed with `places` decimals reads back as the integer over `scale` = 10^places. */
  lemma {:induction false} ParseScaled(n: int, places: nat, scale: real)
    requires PyFloat.TenTo(places) as real == scale
    ensures PyFloat.ParseNum(PyFloat.FormatFixed(n, places)) == Some(n as real / scale)
  {
    PyFloat.ParseFormatFixed(n, places);
    var t := PyFloat.TenTo(places) as real;
    assert n as real / t == n as real / scale;
  }

  /** Two `printf` literals joined by a comma have no surrounding whitespace and no other comma. */
  lemma {:induction false} FixedPairFields(x: int, placesX: nat, y: int, placesY: nat)
    ensures var a, b := PyFloat.FormatFixed(x, placesX), PyFloat.FormatFixed(y, placesY);
      && PyText.Strip(a + [SEPARATOR] + b) == a + [SEPARATOR] + b
      && SEPARATOR !in a && SEPARATOR !in b
  {
    var a := PyFloat.FormatFixed(x, placesX);
    var b := PyFloat.FormatFixed(y, placesY);
    var frame := a + [SEPARATOR] + b;
    PyFloat.FormatFixedChars(x, placesX);
    PyFloat.FormatFixedChars(y, placesY);
    assert frame[0] == a[0];
    assert frame[|frame| - 1] == b[|b| - 1];
    PyText.StripUnpadded(frame);
  }
}
