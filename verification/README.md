# Energy monitor ingestion pipeline, modelled in Dafny

An ESP32 sensor sends UDP datagrams to the monitoring server. Each datagram is a text line `"<current>,<power>"` written with `printf("%.3f,%.2f")`. The server's `udp_listener` (main.py) handles each datagram in turn:

1. It decodes the datagram: the text is stripped, split on the comma into exactly two fields, and each field is read with `float()`.
2. It drops readings that arrive within 60 seconds of start-up (the warm-up).
3. It applies a dead zone: a current whose magnitude is below 0.2 A zeroes both fields.
4. It subtracts an offset of 0.350 from both fields and clamps each at zero.
5. It smooths the readings over a first-in first-out buffer of five entries.
6. It adds the average power, held since the previous accepted sample, to a running total in kWh.
7. It appends a `(time, current, power, energy)` record to the telemetry series.

A datagram that does not decode takes the exception path, and the listener's state is left as it was.

The project has these modules:

- `PyText`: Python's `str.strip()` and `str.split(sep)`.
- `PyFloat`: Python's `float()` on decimal literals, over exact reals. It also holds C's `printf("%.<k>f")` for a fixed-point value, as a reference encoder.
- `FrameDecoder`: the payload decoder. The firmware's payload format is used only to prove that every frame the firmware sends decodes to the values it printed.
- `Calibration`: the dead zone and the clamped offset.
- `Smoothing`: the five-entry buffer and its means.
- `Energy`: the kWh increment.
- `Ingestion`: the per-datagram pipeline.
  - `Absorb` is what accepting one sample does to the listener's variables.
  - `Replay` gives those variables, field by field, after a history of accepted samples.
  - The class `Pipeline` keeps them in fields and updates them in place, as `udp_listener` does. Its invariant `Valid` ties the fields to the replay of the samples accepted so far.
  - `Listen` runs the loop over a finite sequence of datagrams.

Times are seconds on one real-valued clock, and the start time is a constructor parameter. Each arrival time, the value `datetime.now()` gives, is a parameter of `Step`.

Two facts about the energy arithmetic shape what is proved:

- **Energy integration.** main.py:82 holds the latest average power over the whole interval since the previous sample, a rectangle rule.
- **Backward clock steps.** main.py:79-83 does not clamp `elapsed_seconds`. A sample time-stamped before its predecessor therefore lowers the total (`Ingestion.ClockRegressionLowersTotal`).
- **Monotonicity.** So every monotonicity result is stated for a clock that runs forward (`Chronological`, `InOrder`).

## Model

| member | source | states |
|---|---|---|
| PyText.TrimLeftSuffix | main.py:49 | stripping the left end keeps a suffix, removes only whitespace, and leaves no leading whitespace |
| PyText.TrimRightPrefix | main.py:49 | stripping the right end keeps a prefix, removes only whitespace, and leaves no trailing whitespace |
| PyText.StripSlice | main.py:49 | `strip()` keeps one contiguous slice; everything outside it is whitespace; the slice neither starts nor ends with whitespace |
| PyText.StripUnpadded | main.py:49 | a string with no whitespace at either end is unchanged by `strip()` |
| PyText.StripIdempotent | main.py:49 | stripping twice is stripping once |
| PyText.IndexOfFirst | main.py:50 | the separator search finds the first occurrence, and nothing before it is the separator |
| PyText.SplitParts | main.py:50 | `split` gives one more part than there are separators; no part holds the separator; joining the parts gives the string back |
| PyText.SplitJoin | main.py:50 | splitting a join of separator-free parts gives the parts back |
| PyText.SplitPair | main.py:50 | `a,b` with no other comma splits into exactly `[a, b]` |
| PyText.SplitInTwo | main.py:50 | a two-part split lies either side of the first separator |
| PyFloat.DigitsValueAppend | main.py:51-52 | reading digits `a` then digits `b` shifts `a` left by as many decimal places as `b` has digits |
| PyFloat.ParseUnsignedNoExponent | main.py:51-52 | with no exponent marker, a literal's value is its mantissa's |
| PyFloat.ParseMantissaInteger | main.py:51-52 | a plain digit string reads as the integer it spells |
| PyFloat.ParseMantissaDecimal | main.py:51-52 | `w.f` reads as the digits `wf` scaled down by the number of digits in `f` |
| PyFloat.ParseLiteralSign | main.py:51-52 | a leading `-` negates the value of the unsigned literal after it, and no sign leaves it as it is |
| PyFloat.NatDigits | EneryMonitor/src/main.cpp:32 | the integer part `printf` writes is a non-empty digit string that spells the number |
| PyFloat.PaddedDigits | EneryMonitor/src/main.cpp:32 | the fractional digits `printf` writes are exactly `places` digits spelling the number modulo 10^places |
| PyFloat.FractionPart | EneryMonitor/src/main.cpp:32 | the fractional part is below 10^places, and the whole and fractional parts recombine to the value |
| PyFloat.FixedBody | EneryMonitor/src/main.cpp:32 | the unsigned `%.kf` text is made only of digits and the point, and starts and ends with a digit |
| PyFloat.FormatFixedChars | EneryMonitor/src/main.cpp:32 | a `%.kf` literal is non-empty, uses only digits, `-` and `.`, starts with `-` or a digit and ends with a digit |
| PyFloat.FixedDigits | EneryMonitor/src/main.cpp:32 | the whole and fractional digits `printf` writes spell the fixed-point integer again |
| PyFloat.ParseFixedBody | main.py:51-52 | `float()` reads an unsigned `%.kf` literal of `m` as `m / 10^k` |
| PyFloat.ParseFormatted | main.py:51-52 | the sign and the unsigned part of a `%.kf` literal read back separately |
| PyFloat.ParseFormatFixed | main.py:51-52 | `float()` reads the `%.kf` literal of `n / 10^k` back as exactly `n / 10^k`, for either sign |
| FrameDecoder.DecodeNeedsOneSeparator | main.py:49-50 | a payload whose stripped text does not hold exactly one comma is rejected (the two-name unpacking fails) |
| FrameDecoder.ReadPair | main.py:50-52 | two fields are read exactly when both parse as numbers, and then as those numbers |
| FrameDecoder.SplitAtSeparator | main.py:49-50 | a stripped payload `a,b` with no other comma is read as the fields `a` and `b` |
| FrameDecoder.DecodeFields | main.py:49-52 | for a stripped payload `a,b`, decoding succeeds if and only if both fields parse, and it then gives their values |
| FrameDecoder.DecodeAccepted | main.py:49-52 | an accepted payload holds exactly one comma after stripping; the text before it is the current and the text after it the power |
| FrameDecoder.FixedPairFields | EneryMonitor/src/main.cpp:32 | two `printf` literals joined by a comma have no surrounding whitespace and no other comma |
| FrameDecoder.ParseScaled | main.py:51-52 | a field printed with `k` decimals reads back as the integer over 10^k |
| FrameDecoder.DecodeFixedPair | main.py:49-52 | two fixed-point literals joined by a comma decode to their two values |
| FrameDecoder.DecodeEncodeFrame | EneryMonitor/src/main.cpp:32 | every `"%.3f,%.2f"` frame the firmware sends decodes to exactly the current and power it printed |
| Calibration.Abs | main.py:64 | `abs` is non-negative and is `x` or `-x` |
| Calibration.ClampZero | main.py:70-71 | `max(0.0, x)` is non-negative, at least `x`, and is either 0 or `x` |
| Calibration.Calibrate | main.py:63-71 | both fields come out non-negative; the current is always `max(0, current - 0.35)`; inside the dead zone (`abs(current) < 0.2`) the result is exactly (0, 0); outside it the power is `max(0, power - 0.35)` |
| Calibration.CurrentZeroedPowerKept | main.py:63-71 | outside the dead zone with a current at or below the offset, the current is zeroed while the power still passes through |
| Calibration.CalibrateShrinks | main.py:68-71 | calibration never increases a non-negative field |
| Smoothing.Push | main.py:73-75 | appending and then popping the oldest entry past five grows the buffer by one until it holds five, then keeps it at five |
| Smoothing.PushKeepsNewest | main.py:73-75 | the pushed buffer is a suffix of the old buffer plus the new reading, and it ends with the new reading |
| Smoothing.PushWindow | main.py:73-75 | pushing the next reading into the last-five window of a history gives the last-five window of the longer history |
| Smoothing.WindowBounds | main.py:73-75 | once a reading has arrived, the window holds 1 to 5 entries and ends with the latest reading |
| Smoothing.PushNonNegative | main.py:73-75 | pushing a non-negative reading keeps every buffered entry non-negative |
| Smoothing.SumCurrentBounds | main.py:76 | a sum of `n` currents in `[lo, hi]` lies in `[n*lo, n*hi]` |
| Smoothing.SumPowerBounds | main.py:77 | a sum of `n` powers in `[lo, hi]` lies in `[n*lo, n*hi]` |
| Smoothing.AverageBounds | main.py:76-77 | each mean lies between the least and greatest value of its field in the buffer |
| Smoothing.AverageNonNegative | main.py:76-77 | the means of non-negative readings are non-negative |
| Smoothing.AverageOfSteady | main.py:76-77 | the means of a buffer holding one reading repeated are that reading |
| Energy.IncrementSign | main.py:79-83 | the increment is non-negative for non-negative power over a forward interval, and negative for positive power over a backward one (no clamp) |
| Energy.IncrementIsEnergy | main.py:82 | the increment times 3,600,000 is power times seconds: watt-seconds expressed in kWh |
| Energy.IncrementAdditive | main.py:82 | one power held over two back-to-back intervals counts the same energy as over their union |
| Energy.IncrementMonotone | main.py:82 | over a forward interval, more power never counts less energy |
| Ingestion.Buffer | main.py:73-75 | after `n` accepted samples the buffer holds `min(n, 5)` entries |
| Ingestion.Admission | main.py:45-57 | a datagram contributes at most one sample, and it contributes one if and only if it decodes and arrives after the warm-up |
| Ingestion.Admitted | main.py:43-57 | a run of datagrams yields no more samples than datagrams |
| Ingestion.AdmittedOneMore | main.py:43-57 | taking one more datagram adds exactly what that datagram contributes |
| Ingestion.ReplayAcceptOne | main.py:59-89 | the empty history gives the initial variables; one more sample changes them exactly as one pass of the loop body does (`Absorb`) |
| Ingestion.CalibratedAcceptOne | main.py:63-71 | one more sample adds its calibrated reading to the calibrated history |
| Ingestion.BufferIsWindow | main.py:73-75 | the buffer holds the calibrated readings of the last `min(n, 5)` samples, in arrival order |
| Ingestion.BufferNonNegative | main.py:63-75 | every buffered reading is non-negative in both fields |
| Ingestion.SmoothedNonNegative | main.py:76-77 | every logged average is non-negative |
| Ingestion.SmoothedIsWindowMean | main.py:73-77 | the logged averages are the means of the last `min(n, 5)` calibrated readings |
| Ingestion.RowCount | main.py:88-89 | there is exactly one record per accepted sample |
| Ingestion.TotalAcceptOne | main.py:79-83 | one more sample adds its smoothed power held since the previous sample, or since the start time for the first |
| Ingestion.RowsAcceptOne | main.py:85-89 | one more sample appends one record carrying its time, the smoothed averages and the new total |
| Ingestion.RowsAppendOnly | main.py:88-89 | the series only grows: earlier records stay, unchanged, at the front |
| Ingestion.RowsPrefix | main.py:88-89 | the records of the first `k` samples are the first `k` records |
| Ingestion.ReplayRecord | main.py:73-89 | record `i` holds sample `i`'s time, the averages of the window at that point, and the total after `i + 1` samples |
| Ingestion.AcceptOneGrows | main.py:79-83 | a sample no earlier than the previous one never lowers the total |
| Ingestion.ClockRegressionLowersTotal | main.py:79-83 | a sample time-stamped before its predecessor, with a positive average power, lowers the total |
| Ingestion.TotalEnergyGrows | main.py:79-83 | with the clock running forward, the total after `j` samples is at most the total after `k >= j` |
| Ingestion.TotalNonNegative | main.py:79-83 | with the clock running forward, the total is never negative |
| Ingestion.SeriesEnergyNonDecreasing | main.py:79-89 | with the clock running forward, the series' energy column is non-negative and non-decreasing |
| Ingestion.FirstInterval | main.py:79-83 | the first record's energy is the first calibrated power held over the whole time since start (`last_time = start_time`, line 31), warm-up included |
| Ingestion.AcceptFacts | main.py:73-89 | accepting a sample appends one record whose averages are non-negative and whose energy is the new total; the total grows when the clock ran forward |
| Ingestion.Pipeline.constructor | main.py:28-41 | the listener starts not warmed up, with an empty buffer and series, a zero total, and `last_time` at the start time |
| Ingestion.Pipeline.Step | main.py:45-57 | the exception path if and only if the payload does not decode (checked before the warm-up gate); skipped if and only if it decodes inside the warm-up; otherwise logged. Skipped and rejected datagrams change nothing; a logged one sets `warmup_done`, moves `last_time` to its arrival and only appends to `data` |
| Ingestion.Pipeline.Accept | main.py:59-89 | the fields stay the replay of the accepted samples; the warm-up is over; the buffer holds 1 to 5 entries; exactly one record is appended, with non-negative averages and the new total; the total does not drop unless the clock went back |
| Ingestion.Pipeline.Process | main.py:59-89 | one pass of the loop body changes the variables exactly as `Absorb` does |
| Ingestion.Pipeline.Listen | main.py:43-95 | over a run of datagrams, the accepted samples are exactly the admitted ones; `data` only grows; `warmup_done` never goes back to false; with arrivals in order, the total never decreases |

## Left out

- The socket (main.py:37-38, 44): binding, `recvfrom` and its 1024-byte truncation are not modelled. A payload reaches `Step` as text.
- `message.decode()` (main.py:49): bytes that are not valid UTF-8 would take the same exception path as a malformed payload. The model starts from decoded text.
- `datetime.now()` (main.py:28, 46): clock readings are parameters in seconds on a real line. Microsecond resolution is not modelled.
- The CSV file (main.py:33-35, 91-93): the header and row writes are not modelled. If a row write raised, the exception path would run after the record had already been appended; the model does not capture that.
- `print` calls (main.py:56, 60, 86, 95): console output only.
- `data_lock` and threads (main.py:24, 88): the model is single-threaded, with no concurrent readers of `data`.
- The Flask routes and the pandas/plotly charting (main.py:97-168) are not part of this model.
- PyFloat.ParseNum: exact reals stand in for IEEE-754 doubles. `inf`, `nan`, `infinity`, digit-group underscores and non-ASCII digits are not accepted, although Python's `float()` accepts them, so such payloads take the error path in the model. In the other direction, the model strips the whole `str.isspace` set around each field, including the ASCII separators U+001C to U+001F. Python's `float()` strips only ASCII space, tab, newline, vertical tab, form feed and carriage return, plus non-ASCII whitespace. So a payload such as `"1.0\x1c,2.0"` is accepted by the model but raises in main.py. `printf` output that the reference encoder never produces, such as `-0.000` or `nan`, lies outside `FrameDecoder.DecodeEncodeFrame`. The firmware's readings are never negative, so it does not print these.
- Energy.Increment: exact real arithmetic, with no floating-point rounding in the product, the division or the running sum.
- Ingestion.Pipeline.Listen: the `while True` loop (main.py:43) is modelled over a finite sequence of datagrams.
- The firmware (EneryMonitor/src/main.cpp) is modelled only through its payload format (line 32). Sensor sampling, Wi-Fi, the one-second rate and the UDP send are not modelled. Its destination port (5005, line 8) differs from the listener's port (8000, main.py:15).
