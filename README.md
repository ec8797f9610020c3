# LCR meter and CN740 temperature controller sweeps, in Dafny

This project models the measurement core of the LCR-Meter-Temp-Controller scripts. The
host drives two instruments over serial lines:

- an ET4510 LCR meter, which speaks a line protocol: a command, then `exec success`;
  `FETCH?`, then two lines, the second holding `major,minor`;
- an Omega CN740 temperature controller, which speaks Modbus ASCII. A frame is `:`, hex
  digits, a longitudinal redundancy check (LRC) and CR LF. The host uses function 0x06
  "Write Single Register" to set the set value (register 0x4701) and run/stop (0x4719).
  It uses function 0x03 "Read Holding Registers" to read PV and SV (0x4700, 0x4701).

On top of these sit the sweep sequencers:

- `Experiment` runs nested loops over main parameters, minor parameters and frequencies.
- `Experiment_eff` runs one fixed pair (Z, THR) over the frequencies.
- `Experiment3` and `Experiment_b1` do the same and read the controller at each frequency.
- `Experiment2` and `Experiment_b2` are bounded by a clock.
- `Experiment_b3` is bounded by a target temperature, with the direction fixed by the
  first reading.

Each serial link is a `SerialLine.SerialPort` object. It holds the lines the device has
sent and not yet been read (`pending`) and everything the host has written (`written`).
The protocol functions and the sweeps are methods on these ports. Their contracts state
what was written, what was consumed, what came back and the table returned, exactly except
where "## Left out" says otherwise:

- the averages of the nested loops of `Experiment` and `Experiment3` and of `Experiment2`
  are not tied to the meter's replies (those of the single-pass sweeps and of
  `Experiment_b2`/`Experiment_b3` are);
- after a failure, the controller sweeps state only part of the controller link;
- a controller reply whose LRC does not match is read as an unavailable reading (None or
  nan), the evidently intended behaviour. As written, the scripts store the letters "r"
  and "a" of the mismatch report (see "## Findings" and `Readings.AsWrittenCells`).

What the scripts leave to the environment becomes a parameter:

- the clock is an oracle `clock: nat -> int`. It gives the elapsed time, in tenths of a
  second, at the `t`-th time the script reads it;
- frequencies are given integers;
- the `VOLT` and `BIAS:VOLT` arguments are given already rendered as text;
- a sleep becomes a returned delay.

Temperatures stay in the controller's tenths of a degree. A pandas table is a sequence of
named columns (`Frames`). Failures that would raise in Python are a `Result` carrying the
exception's kind. An `LCRCommander` that would wait forever reports `NoAcknowledgement`.

The same functions appear, with small differences, in five files:

- `ET4510-LCR-PID_v3/Functions_A.py` (the protocol functions);
- `ET4510-LCR-PID/Functions.py` (the protocol, `Experiment`, `Experiment2`);
- `ET4510-LCR-PID_v3/Functions_B.py` (`Experiment`, `Experiment2`, `Experiment3`);
- `ET4510-LCR-PID_v4/Functions_B.py` (all seven sweeps);
- `ET4510-LCR_o1/Functions.py` (the meter protocol and `Experiment`).

Each function is modelled once; the table below cites one copy. The other copies map onto
the same members:

- `ET4510-LCR-PID/Functions.py:24-57` and `ET4510-LCR_o1/Functions.py:19-52` are the meter
  protocol of `ET4510-LCR-PID_v3/Functions_A.py:24-57`.
- `ET4510-LCR-PID/Functions.py:117-173` is the controller protocol of
  `ET4510-LCR-PID_v3/Functions_A.py:60-116`.
- `Experiment` in `ET4510-LCR-PID/Functions.py:59-100`, `ET4510-LCR-PID_v3/Functions_B.py:8-49`
  and `ET4510-LCR_o1/Functions.py:54-95` is `FrequencySweeps.FrequencySweep`.
- `Experiment2` in `ET4510-LCR-PID/Functions.py:175-234` (fall-back set value 200) and in
  both `Functions_B.py` files (180) is `CycleSweeps.CycleSweep`; the fall-back value is
  its `fallback` parameter.
- `Experiment3` in `ET4510-LCR-PID_v3/Functions_B.py:145-199` is `ReadingSweeps.ReadingSweep`.

## Model

| member | source | states |
|---|---|---|
| Common.Strip | ET4510-LCR-PID_v3/Functions_A.py:28 | `str.strip()` never lengthens a line, and what it returns neither starts nor ends with white space |
| Common.StripKeepsCore | ET4510-LCR-PID_v3/Functions_A.py:72 | stripping white space around a core that has none at its ends gives back exactly the core (a reply frame loses exactly its CR LF) |
| Common.StripAllSpace | ET4510-LCR-PID_v3/Functions_A.py:28 | a line of white space only, such as the empty line of a time-out, strips to the empty string |
| Common.Slice | ET4510-LCR-PID_v3/Functions_A.py:80-82 | Python's `s[a:b]` never runs past the string and, when the bounds fit, is the substring between them |
| Common.DropLast2 | ET4510-LCR-PID_v3/Functions_A.py:84 | `s[:-2]` is everything but the last two characters, and empty for a shorter string |
| Common.IntText | ET4510-LCR-PID_v4/Functions_B.py:31 | `f"{j}"` of an integer is a minus sign for negatives followed by the non-empty decimal digits of the magnitude |
| Common.Split | ET4510-LCR-PID_v3/Functions_A.py:47 | `reply.split(',')` always yields at least one piece |
| Common.SplitJoin | ET4510-LCR-PID_v3/Functions_A.py:47 | splitting on the separator loses nothing: joining the pieces gives the reply back |
| Common.JoinSplit | ET4510-LCR-PID_v3/Functions_A.py:47 | pieces free of the separator are exactly what splitting their join returns, so `a,b` splits into `a` and `b` |
| SerialLine.SerialPort.constructor | ET4510-LCR-PID_v3/Functions_A.py:25-28 | a port starts with the lines the device will send pending and nothing written |
| SerialLine.SerialPort.Write | ET4510-LCR-PID_v3/Functions_A.py:25 | `ser.write` appends its text to what was written and leaves the pending lines alone |
| SerialLine.SerialPort.ReadLine | ET4510-LCR-PID_v3/Functions_A.py:28 | `ser.readline` returns the first pending line (the empty string of a time-out when none is left) and consumes it |
| FrameCodec.HexDigitValue | ET4510-LCR-PID_v3/Functions_A.py:63 | in the model, a character has a hexadecimal value exactly when it is an ASCII hex digit of either case, and the value is below 16 |
| FrameCodec.HexNumberDefined | ET4510-LCR-PID_v3/Functions_A.py:63 | in the model, `int(s, 16)` succeeds exactly when `s` is non-empty and all ASCII hex digits |
| FrameCodec.HexNumber | ET4510-LCR-PID_v3/Functions_A.py:63 | in the model, empty text has no hexadecimal value |
| FrameCodec.HexNumberSnoc | ET4510-LCR-PID_v3/Functions_A.py:63 | one more digit multiplies the value by 16 and adds the digit's value: the reading is positional |
| FrameCodec.HexNumberAppendPair | ET4510-LCR-PID_v3/Functions_A.py:90-91 | two two-digit numbers read together are the first times 256 plus the second: a register field is big-endian |
| FrameCodec.HexNumberBound | ET4510-LCR-PID_v3/Functions_A.py:90-91 | `k` hex digits denote a number below 16^k, so a four-digit register field is a 16-bit word |
| FrameCodec.Hex2 | ET4510-LCR-PID_v3/Functions_A.py:64 | `f"{b:02X}"` is two upper-case hex digits |
| FrameCodec.Hex4 | ET4510-LCR-PID_v3/Functions_A.py:103-104 | `f"{w:04X}"` is four upper-case hex digits |
| FrameCodec.Hex2RoundTrip | ET4510-LCR-PID_v3/Functions_A.py:64 | reading `f"{b:02X}"` back with `int(_, 16)` gives `b` |
| FrameCodec.Hex2Canonical | ET4510-LCR-PID_v3/Functions_A.py:64 | every pair of upper-case hex digits is the `02X` rendering of its own value: the rendering is onto |
| FrameCodec.Hex4RoundTrip | ET4510-LCR-PID_v3/Functions_A.py:103-104 | reading `f"{w:04X}"` back gives `w` |
| FrameCodec.PairSum | ET4510-LCR-PID_v3/Functions_A.py:61-63 | in the model, the running `total` of `calc_lrc`, when defined, is a non-negative sum of the pairs read as ASCII hex |
| FrameCodec.PairSumDefined | ET4510-LCR-PID_v3/Functions_A.py:61-63 | in the model, the accumulation fails exactly when a character of the input is not an ASCII hex digit |
| FrameCodec.PairSumAppend | ET4510-LCR-PID_v3/Functions_A.py:61-63 | after an even-length prefix, the sum of a concatenation is the sum of the two sums |
| FrameCodec.LrcOf | ET4510-LCR-PID_v3/Functions_A.py:60-64 | `calc_lrc` succeeds exactly when the accumulation does, raises ValueError otherwise, and returns two upper-case hex digits |
| FrameCodec.LrcCancels | ET4510-LCR-PID_v3/Functions_A.py:60-64 | the byte sum plus the LRC is 0 modulo 256 (section 2.5.2.2 of the Modbus over Serial Line Specification) |
| FrameCodec.LrcOfSum | ET4510-LCR-PID_v3/Functions_A.py:64 | the LRC is the two's complement of the byte sum, masked to eight bits, in `02X` form |
| FrameCodec.LrcCompletesSum | ET4510-LCR-PID_v3/Functions_A.py:60-64 | appended to an even number of digits, the LRC makes the byte sum of the whole frame 0 modulo 256 |
| FrameCodec.LrcIsUnique | ET4510-LCR-PID_v3/Functions_A.py:60-64 | the LRC is the only pair of upper-case digits that cancels the sum |
| FrameCodec.CalcLrc | ET4510-LCR-PID_v3/Functions_A.py:60-64 | the loop over the pairs returns what `LrcOf` specifies, including the ValueError on a non-hex character |
| FrameCodec.ReadRequestSum | ET4510-LCR-PID_v3/Functions_A.py:71 | the byte sum of the read request body `010347000002` is 0x4D |
| FrameCodec.ReadRequestLrc | ET4510-LCR-PID_v3/Functions_A.py:71 | the hard-coded request `:010347000002B3` carries the LRC `calc_lrc` computes for its body |
| FrameCodec.WriteBody | ET4510-LCR-PID_v3/Functions_A.py:101-106 | the message body of `PIDcommander` is twelve upper-case hex digits |
| FrameCodec.WriteBodyHasLrc | ET4510-LCR-PID_v3/Functions_A.py:106-107 | `calc_lrc` never raises on the message body |
| FrameCodec.WriteFrame | ET4510-LCR-PID_v3/Functions_A.py:108 | the frame sent is always 17 characters long |
| FrameCodec.WriteFrameParts | ET4510-LCR-PID_v3/Functions_A.py:106-108 | the frame is `:` + body + `calc_lrc(body)` + CR LF |
| FrameCodec.WriteFrameDecodes | ET4510-LCR-PID_v3/Functions_A.py:101-108 | a receiver finds `:`, address 01, function 06, the register and the value read back as given, CR LF, and a byte sum of 0 modulo 256 (section 6.6 of the Modbus Application Protocol Specification) |
| FrameCodec.WriteExampleBody | ET4510-LCR-PID_v3/Functions_A.py:98 | the body for SV register 0x4701 set to 400 is `010647010190` |
| FrameCodec.WriteExampleSum | ET4510-LCR-PID_v3/Functions_A.py:98 | that body's byte sum is 224 |
| FrameCodec.WriteExampleLrc | ET4510-LCR-PID_v3/Functions_A.py:98 | that body's LRC is `20` |
| FrameCodec.WriteFrameExample | ET4510-LCR-PID_v3/Functions_A.py:98 | `PIDcommander(ser, 0x4701, 400)` sends `:01064701019020` CR LF |
| FrameCodec.DecodeReply | ET4510-LCR-PID_v3/Functions_A.py:73-94 | in the model, a reply not starting with `:` gives None. Only the LRC recomputation can fail, and then with ValueError. A mismatch gives the `raw=` diagnostic. A reading holds two 16-bit registers |
| FrameCodec.DataFieldsAreHex | ET4510-LCR-PID_v3/Functions_A.py:80-91 | in the model, once the received LRC matches, the PV and SV fields were among the checked ASCII hex digits, so each reads as a 16-bit value |
| FrameCodec.ReplyBody | ET4510-LCR-PID_v3/Functions_A.py:70 | the controller's answer to the read request is fourteen upper-case hex digits |
| FrameCodec.ReplyBodyHasLrc | ET4510-LCR-PID_v3/Functions_A.py:84 | the LRC of a reply body is always defined |
| FrameCodec.ReplyFrame | ET4510-LCR-PID_v3/Functions_A.py:72 | a well-formed reply line is 19 characters long |
| FrameCodec.ReplyFrameStrip | ET4510-LCR-PID_v3/Functions_A.py:72 | stripping a reply line removes exactly its CR LF |
| FrameCodec.DecodeReplyFrame | ET4510-LCR-PID_v3/Functions_A.py:76-94 | decoding a well-formed reply gives back its PV and SV registers: the reply codec round-trips |
| FrameCodec.DecodeDetectsBadLrc | ET4510-LCR-PID_v3/Functions_A.py:84-88 | a reply whose LRC field was altered is reported as a mismatch, never as a reading |
| Controller.CommanderReply | ET4510-LCR-PID_v3/Functions_A.py:113-116 | the reply is the mismatch report exactly when the line read back differs from the frame sent, and starts with the frame when they agree |
| Controller.WriteFrameInjective | ET4510-LCR-PID_v3/Functions_A.py:101-108 | two different register writes never share a frame, so an exact echo identifies the write |
| Controller.WriteFrameStartsWithColon | ET4510-LCR-PID_v3/Functions_A.py:108 | every frame sent starts with `:` |
| Controller.WriteRegister | ET4510-LCR-PID_v3/Functions_A.py:96-116 | `PIDcommander` writes exactly one frame, consumes exactly one line, and returns the confirmation or the mismatch report for that line |
| Controller.ReadTemperature | ET4510-LCR-PID_v3/Functions_A.py:69-94 | `PIDDataReadout` writes `:010347000002B3` CR LF, consumes one line, and returns the decoding of that line stripped |
| Controller.StartFrames | ET4510-LCR-PID_v4/Functions_B.py:68-69 | starting a run is two register writes |
| Controller.StopFrames | ET4510-LCR-PID_v4/Functions_B.py:115-116 | stopping a run is two register writes |
| Controller.StartIsNotStop | ET4510-LCR-PID_v4/Functions_B.py:68-69 | the RUN frame is never the STOP frame, and a start frame equals a stop frame only for two identical set-value writes |
| Controller.StartRun | ET4510-LCR-PID_v4/Functions_B.py:68-69 | 0x4701 ← set value, then 0x4719 ← 1, each reading one echo line |
| Controller.StopRun | ET4510-LCR-PID_v4/Functions_B.py:115-116 | 0x4701 ← fall-back value, then 0x4719 ← 0, each reading one echo line |
| Meter.AckIndex | ET4510-LCR-PID_v3/Functions_A.py:36-38 | the position of the acknowledgement, when there is one, is within the pending lines |
| Meter.AckIndexIsFirst | ET4510-LCR-PID_v3/Functions_A.py:36-38 | the position found is the first line that strips to `exec success`; none is found exactly when no line does |
| Meter.SendCommand | ET4510-LCR-PID_v3/Functions_A.py:33-38 | `LCRCommander` writes `command + " \n"` and consumes every line up to and including the first `exec success`. It reports acknowledged exactly when such a line was pending. Otherwise the source waits forever |
| Meter.AckConsumes | ET4510-LCR-PID_v3/Functions_A.py:36-38 | an acknowledged command consumed at least one line, from the front |
| Meter.AckStep | ET4510-LCR-PID_v3/Functions_A.py:36-38 | no command leaves the lines as they are; one more command looks for its acknowledgement in what the earlier ones left, and none found ends the run |
| Meter.AcksRemain | ET4510-LCR-PID_v3/Functions_A.py:36-38 | commands only consume lines from the front, at least one each |
| Meter.AckFirst | ET4510-LCR-PID_v3/Functions_A.py:36-38 | an acknowledged first command followed by `m` more is a run of `m + 1` commands |
| Meter.AckedRunMore | ET4510-LCR-PID_v3/Functions_A.py:36-38 | one more command extends a run: acknowledged exactly when the run so far was and an `exec success` is pending, leaving what follows it |
| Meter.AcksStopped | ET4510-LCR-PID_v3/Functions_A.py:36-38 | once a command goes unacknowledged, every longer run does too |
| Meter.AckedRunNoFirst | ET4510-LCR-PID_v3/Functions_A.py:36-38 | an unacknowledged first command makes every run it begins unacknowledged, with nothing left pending |
| Meter.AckedRunAfterFirst | ET4510-LCR-PID_v3/Functions_A.py:36-38 | a run of `m` commands after an acknowledged first one is a run of `m + 1` |
| Meter.Fetch | ET4510-LCR-PID_v3/Functions_A.py:24-31 | `LCRDataReadout` writes `FETCH?\n`, consumes exactly two lines and returns the second, stripped |
| Meter.FetchedReply | ET4510-LCR-PID_v3/Functions_A.py:24-31 | after `i` fetches, the next fetch returns line `2i + 1` of what was pending, and each fetch consumes its two lines |
| Meter.ParseSample | ET4510-LCR-PID_v3/Functions_A.py:47 | a fetch reply becomes a sample only when it splits on `,` into exactly two fields |
| Meter.ParseSampleOfIntegers | ET4510-LCR-PID_v3/Functions_A.py:47 | a reply of two numbers joined by a comma reads back as exactly that sample |
| Meter.EmptyIsNoSample | ET4510-LCR-PID_v3/Functions_A.py:47 | the empty line of a timed-out read is never a sample |
| Meter.Gather | ET4510-LCR-PID_v3/Functions_A.py:45-47 | the stacking loop makes at most `n` fetches: all `n` with `n` samples on success, and at least one when it fails with ValueError |
| Meter.GatherSucceeds | ET4510-LCR-PID_v3/Functions_A.py:46-47 | the stacking succeeds exactly when every second line of each fetch is a sample, and then holds those samples in order |
| Meter.GatherFails | ET4510-LCR-PID_v3/Functions_A.py:46-47 | a failed stacking stops at the first reply that is not a sample, after replies that all were |
| Meter.GatherStops | ET4510-LCR-PID_v3/Functions_A.py:46-47 | once a fetch has failed, asking for more fetches changes nothing |
| Meter.AverageOf | ET4510-LCR-PID_v3/Functions_A.py:44-50 | `DataAveraging` fails with ValueError on a bad reply, or with IndexError only when `n` is 0. It succeeds only with `n` > 0 and all `n` samples read |
| Meter.FetchCount | ET4510-LCR-PID_v3/Functions_A.py:46-47 | never more than `n` fetches are made |
| Meter.FetchSample | ET4510-LCR-PID_v3/Functions_A.py:47 | one fetch writes `FETCH?\n`, consumes two lines and extends the stacked samples or fails exactly as `Gather` says |
| Meter.CollectRows | ET4510-LCR-PID_v3/Functions_A.py:45-48 | the `vstack` loop returns what `Gather` specifies, after writing one `FETCH?` and consuming two lines per fetch made |
| Meter.CollectSamples | ET4510-LCR-PID_v3/Functions_A.py:45-48 | the stacked rows are `Gather`'s, after exactly `FetchCount` fetches |
| Meter.AverageSamples | ET4510-LCR-PID_v3/Functions_A.py:44-50 | `DataAveraging(ser, n)` returns `AverageOf` of the pending lines, after exactly `FetchCount` fetches, consuming lines only from the front |
| Meter.AverageConsumes | ET4510-LCR-PID_v3/Functions_A.py:46-47 | a successful average made all `n` fetches, so it consumed at least two lines |
| Meter.AverageOfIdenticalReplies | ET4510-LCR_o1/Functions.py:39-45 | `n` > 0 replies that all read as the sample (a, b) average to means a and b with zero spread |
| Meter.SettleDelay | ET4510-LCR-PID_v3/Functions_A.py:53-57 | `TimeAdjustments` waits 10 s exactly below 100 Hz and nothing exactly above 1000 Hz |
| Meter.SettleDelayShape | ET4510-LCR-PID_v3/Functions_A.py:53-57 | only 0, 2 and 10 s occur, and a higher frequency never waits longer |
| Statistics.Majors | ET4510-LCR-PID_v3/Functions_A.py:49 | `data[::, 0]` is the major value of each sample, in order |
| Statistics.Minors | ET4510-LCR-PID_v3/Functions_A.py:49 | `data[::, 1]` is the minor value of each sample, in order |
| Statistics.ConstantChannel | ET4510-LCR-PID_v3/Functions_A.py:49 | a constant channel has itself as mean and zero variance |
| Statistics.IdenticalSamples | ET4510-LCR_o1/Functions.py:44 | `n` identical samples (a, b) give `[a, 0, b, 0]` |
| Statistics.SquaredDeviationNonNegative | ET4510-LCR-PID_v3/Functions_A.py:49 | the squared deviation is never negative |
| Statistics.SumBounds | ET4510-LCR-PID_v3/Functions_A.py:49 | a sum of values between `lo` and `hi` lies between `n*lo` and `n*hi` |
| Statistics.MeanAndSpreadBounds | ET4510-LCR-PID_v3/Functions_A.py:49 | the mean lies between the smallest and the largest value, and the spread is never negative |
| Decimal.ParseReal | ET4510-LCR-PID_v3/Functions_A.py:47 | `float(text)` succeeds only on text that is not blank once stripped; the lemmas below give the value of each literal form and the rejections |
| Decimal.ParseUnsigned | ET4510-LCR-PID_v3/Functions_A.py:47 | an unsigned literal parses to its magnitude |
| Decimal.ParseNegative | ET4510-LCR-PID_v3/Functions_A.py:47 | a literal after a minus sign parses to its negated magnitude |
| Decimal.ParseIntText | ET4510-LCR-PID_v3/Functions_A.py:47 | every integer written in decimal parses back to itself |
| Decimal.ParseOneDecimal | ET4510-LCR-PID_v3/Functions_A.py:47 | digits, a point and one digit `d` parse to the integer part plus `d` tenths |
| Decimal.ParseScientific | ET4510-LCR-PID_v3/Functions_A.py:47 | digits `w`, a point, digits `f`, `e`, an optional sign and digits `x` parse to the integer `wf` times ten to the power ±`x` − |`f`| |
| Decimal.ParseScientificExample | ET4510-LCR-PID_v3/Functions_A.py:47 | `-1.5e-3` parses to -0.0015 |
| Decimal.ParseSecondPoint | ET4510-LCR-PID_v3/Functions_A.py:47 | a literal with a second point is rejected |
| Decimal.ParseStrayLetter | ET4510-LCR-PID_v3/Functions_A.py:47 | digits followed by a letter other than `e` or `E` are rejected |
| Sequencing.SetupTrace | ET4510-LCR-PID_v4/Functions_B.py:11-13 | the setup is one line, `VOLT`, or two with `BIAS:VOLT` when a bias is given |
| Sequencing.VoltCommand | ET4510-LCR-PID_v4/Functions_B.py:11 | the command is `VOLT ` followed by the rendered voltage |
| Sequencing.BiasCommand | ET4510-LCR-PID_v4/Functions_B.py:13 | the command is `BIAS:VOLT ` followed by the rendered bias |
| Sequencing.MainCommand | ET4510-LCR-PID_v4/Functions_B.py:16 | the command is `FUNC:IMP:A ` followed by the main parameter |
| Sequencing.MinorCommand | ET4510-LCR-PID_v4/Functions_B.py:19 | the command is `FUNC:IMP:B ` followed by the minor parameter |
| Sequencing.FreqCommand | ET4510-LCR-PID_v4/Functions_B.py:31 | the command is `FREQ ` followed by `f"{j}"` |
| Sequencing.FreqCommandValue | ET4510-LCR-PID_v4/Functions_B.py:31 | the number after `FREQ ` reads back as the frequency `j` |
| Sequencing.SetupLineKinds | ET4510-LCR-PID_v4/Functions_B.py:11-13 | the `VOLT` and `BIAS:VOLT` lines are neither `FREQ` lines nor fetches |
| Sequencing.SetupCounts | ET4510-LCR-PID_v4/Functions_B.py:11-13 | the setup sends no `FREQ` line and no fetch |
| Sequencing.BlockCounts | ET4510-LCR-PID_v4/Functions_B.py:31-34 | one frequency costs exactly one `FREQ` line and `n` fetches |
| Sequencing.FrequencyTraceCounts | ET4510-LCR-PID_v4/Functions_B.py:30-34 | a pass over the frequencies sends one `FREQ` per frequency and `n` fetches after each |
| Sequencing.Delays | ET4510-LCR-PID_v4/Functions_B.py:32 | one settling time per frequency |
| Sequencing.DelaysBound | ET4510-LCR-PID_v4/Functions_B.py:30-32 | the `t`-th wait is `TimeAdjustments` of the `t`-th frequency, which is non-zero exactly up to 1000 Hz |
| Sequencing.Command | ET4510-LCR-PID_v3/Functions_A.py:33-38 | a command writes its line. It is acknowledged exactly when an `exec success` line is pending, and what is left pending is exactly what follows the first such line |
| Sequencing.SetUp | ET4510-LCR-PID_v4/Functions_B.py:11-13 | an acknowledged setup wrote exactly `VOLT`, then `BIAS:VOLT` if a bias is given. The pending lines are exactly what that many commands leave, each consuming up to its own acknowledgement (`AckedRun`); the setup is acknowledged exactly when each command was |
| Sequencing.AckedAverage | ET4510-LCR-PID_v4/Functions_B.py:31-34 | `FREQ j` then `DataAveraging` succeeds only after an acknowledgement, and is then `AverageOf` the replies after it; every failure is a meter fault |
| Sequencing.RunStep | ET4510-LCR-PID_v4/Functions_B.py:30-34 | a failed run stays as it is; otherwise the next average is the measurement taken on what the earlier frequencies left, and its failure is the run's fault |
| Sequencing.AverageRun | ET4510-LCR-PID_v4/Functions_B.py:30-38 | a successful run over `k` frequencies has `k` averages |
| Sequencing.AverageRunStep | ET4510-LCR-PID_v4/Functions_B.py:30-34 | no frequency is the empty run; one more frequency is one more `RunStep` |
| Sequencing.AverageRunStops | ET4510-LCR-PID_v4/Functions_B.py:30-34 | once a frequency fails, the run fails with that fault |
| Sequencing.AverageRunShorter | ET4510-LCR-PID_v4/Functions_B.py:30-34 | a run that succeeds over `k` > 0 frequencies succeeded over the first `k` − 1 with the same averages |
| Sequencing.AverageRunLast | ET4510-LCR-PID_v4/Functions_B.py:30-34 | the last average of a successful run is the measurement taken on what the earlier frequencies left |
| Sequencing.AverageRunEntry | ET4510-LCR-PID_v4/Functions_B.py:30-38 | average `t` of a successful run is the measurement taken on what the first `t` frequencies left: each average comes from its own replies |
| Sequencing.MeasureStep | ET4510-LCR-PID_v4/Functions_B.py:30-34 | after one more frequency the run fails with that frequency's fault, or gains its average and leaves the lines after its fetches |
| Sequencing.MeasureAt | ET4510-LCR-PID_v4/Functions_B.py:31-34 | one frequency returns `AckedAverage`: `AverageOf` the replies after the `FREQ j` acknowledgement, leaving exactly the lines after its `n` fetch/reply pairs. It writes `FREQ j` and `n` fetches and its wait is `TimeAdjustments(j)`. IndexError only when `n` is 0, and it always fails then |
| Sequencing.MeasureFrequencies | ET4510-LCR-PID_v4/Functions_B.py:30-38 | the averages are `AverageRun` of the pending lines: average `t` is `AckedAverage` of what the first `t` frequencies left (`AverageRunEntry`), and the lines left are the run's. Writes exactly the frequency trace; the waits are the settling times. Fails whenever `n` is 0 and there is a frequency |
| Frames.Names | ET4510-LCR-PID_v4/Functions_B.py:9 | the column names of a table, in column order |
| Frames.Position | ET4510-LCR-PID_v4/Functions_B.py:41 | the first column of a name is found, and nothing is found exactly when no column has it |
| Frames.AssignLookup | ET4510-LCR-PID_v4/Functions_B.py:41 | after `df[name] = cells`, `df[name]` reads back as `cells` |
| Frames.AssignOther | ET4510-LCR-PID_v4/Functions_B.py:41-44 | an assignment leaves every other column's cells and place untouched |
| Frames.AssignNames | ET4510-LCR-PID_v4/Functions_B.py:41-44 | an existing column is replaced in place; a new one is added at the right end |
| Frames.AssignKeepsShape | ET4510-LCR-PID_v4/Functions_B.py:41-44 | assignments of the table's length keep every column that length |
| Frames.Broadcast | ET4510-LCR-PID_v4/Functions_B.py:184-185 | a scalar assigned to a column is repeated on every row |
| Frames.FromRecords | ET4510-LCR-PID_v4/Functions_B.py:119 | `pd.DataFrame(rows)` of no rows is empty; otherwise it has the keys as columns, each `rows` long, with cell (c, t) taken from row t |
| Frames.LastWriteFound | ET4510-LCR-PID_v4/Functions_B.py:41-44 | a write to a name is found exactly when there is one, and it is the last |
| Frames.LastWriteAt | ET4510-LCR-PID_v4/Functions_B.py:41-44 | a write that no later write overrides is the one found |
| Frames.LastWriteNone | ET4510-LCR-PID_v4/Functions_B.py:41-44 | with no write to a name, none is found |
| Frames.ApplyLookup | ET4510-LCR-PID_v4/Functions_B.py:41-44 | after a run of assignments, a column holds what was last assigned to it, or what it held before |
| Frames.ApplyKeepsShape | ET4510-LCR-PID_v4/Functions_B.py:41-44 | a run of assignments of the table's length keeps the table rectangular |
| Frames.ApplyNames | ET4510-LCR-PID_v4/Functions_B.py:41-44 | earlier columns keep their places, and a name is present exactly when it was before or was assigned |
| Frames.ApplyAppend | ET4510-LCR-PID_v4/Functions_B.py:41-44 | two runs of assignments in a row are one run |
| Frames.ApplyFresh | ET4510-LCR-PID_v4/Functions_B.py:293-298 | assignments of distinct new names append their columns in order |
| FrequencySweeps.EntryCells | ET4510-LCR-PID_v4/Functions_B.py:35-38 | entry `index` of each average, one cell per frequency, in order |
| FrequencySweeps.PairName | ET4510-LCR-PID_v4/Functions_B.py:22 | the column name is `k`, a hyphen, then `i`, so both parameters read back from it |
| FrequencySweeps.FrequencyFrame | ET4510-LCR-PID_v4/Functions_B.py:9 | the initial table has the single column `Frequency` with one row per frequency, holding the frequencies |
| FrequencySweeps.Row | ET4510-LCR-PID_v4/Functions_B.py:18-19 | the inner loop visits (k, minors[j]) for each `j` in order |
| FrequencySweeps.PairsOrder | ET4510-LCR-PID_v4/Functions_B.py:15-19 | the nested loops visit |mains|·|minors| pairs, pair `a·|minors| + b` being (mains[a], minors[b]) |
| FrequencySweeps.NoFrequencyWrite | ET4510-LCR-PID_v4/Functions_B.py:41-44 | no assignment of the sweep is to `Frequency` |
| FrequencySweeps.SweepFrameShape | ET4510-LCR-PID_v4/Functions_B.py:9-44 | the table has one row per frequency, `Frequency` stays first and keeps the frequencies |
| FrequencySweeps.LastPairWins | ET4510-LCR-PID_v4/Functions_B.py:41-44 | the last pair measured, (k, i), owns the `{k}` columns and the `{k}-{i}` columns: they hold its four averages, whatever earlier pairs with the same main parameter wrote there |
| FrequencySweeps.MinorsTraceCount | ET4510-LCR-PID_v4/Functions_B.py:18-34 | the inner loop sends |minors| times the `FREQ` lines and fetches of one frequency pass |
| FrequencySweeps.MainsTraceCount | ET4510-LCR-PID_v4/Functions_B.py:15-34 | the outer loop sends |mains| times those of one inner loop |
| FrequencySweeps.SweepTraceCounts | ET4510-LCR-PID_v4/Functions_B.py:11-34 | `Experiment` sends exactly |mains|·|minors|·|freqs| `FREQ` commands and that many times `n` fetches |
| FrequencySweeps.MeasurePair | ET4510-LCR-PID_v4/Functions_B.py:19-44 | one pair writes `FUNC:IMP:B i` and its frequency pass. Its averages are `AverageRun` of the meter's replies after the `FUNC:IMP:B` acknowledgement, one per frequency, and the table gets its four columns assigned from them |
| FrequencySweeps.MeasureMain | ET4510-LCR-PID_v4/Functions_B.py:18-44 | the inner loop writes each minor's trace in order; the blocks measured are the pairs (k, i) in order, each with one average per frequency |
| FrequencySweeps.StoreBlock | ET4510-LCR-PID_v4/Functions_B.py:41-44 | the four column assignments of a pair, in order |
| FrequencySweeps.SweepMain | ET4510-LCR-PID_v4/Functions_B.py:15-44 | one outer iteration writes `FUNC:IMP:A k`, then the inner loop |
| FrequencySweeps.SweepMains | ET4510-LCR-PID_v4/Functions_B.py:15-44 | the outer loop writes every main's trace in order, measures the pairs in nested order, and returns the table those measurements build |
| FrequencySweeps.FrequencySweep | ET4510-LCR-PID_v4/Functions_B.py:8-49 | `Experiment` writes exactly VOLT, optional BIAS, then A k / B i / FREQ j with `n` fetches each, in nested order. It returns the table of the pairs in that order. It fails only with a meter fault, and always when `n` is 0 and there is work to do |
| FrequencySweeps.SinglePairTrace | ET4510-LCR-PID_v4/Functions_B.py:11-34 | `Experiment` with one pair writes the setup, `FUNC:IMP:A k`, `FUNC:IMP:B i`, then one frequency pass |
| FrequencySweeps.EfficiencyTraceIsSweep | ET4510-LCR-PID_v4/Functions_B.py:216-237 | on the meter line, `Experiment_eff` is `Experiment` with the one pair (Z, THR) |
| FrequencySweeps.SinglePairColumns | ET4510-LCR-PID_v4/Functions_B.py:240-243 | on a table holding only `Frequency`, the four assignments of one pair add its four columns in order, with its averages |
| FrequencySweeps.EfficiencyColumns | ET4510-LCR-PID_v4/Functions_B.py:240-243 | `Experiment_eff`'s columns are `Frequency`, `Z Avg.`, `Z Std.`, `THR Avg.`, `THR Std.`, with one row per frequency |
| FrequencySweeps.PairSetUp | ET4510-LCR-PID_v4/Functions_B.py:216-221 | once acknowledged, the setup wrote VOLT, optional BIAS, `FUNC:IMP:A Z`, `FUNC:IMP:B THR`. The pending lines are exactly what those commands leave (`AckedRun`) |
| FrequencySweeps.FixedPairSweep | ET4510-LCR-PID_v4/Functions_B.py:213-248 | a fixed pair writes the setup, the pair and one frequency pass. Its averages are `AverageRun` of the replies left once the setup and the pair are acknowledged (`Acks`), and it returns `Frequency` plus its four columns |
| FrequencySweeps.EfficiencySweep | ET4510-LCR-PID_v4/Functions_B.py:213-248 | `Experiment_eff` sets A = Z and B = THR once, then one frequency pass. It returns one row per frequency whose four Z/THR columns hold the meter's averages: `AverageRun` of the replies left once the setup is acknowledged |
| ReadingSweeps.ReadingWrites | ET4510-LCR-PID_v4/Functions_B.py:184-185 | `df['PV'] = pv; df['SV'] = sv` are two assignments, to `PV` then `SV` |
| ReadingSweeps.PassWritesAsSweep | ET4510-LCR-PID_v4/Functions_B.py:184-189 | apart from `PV` and `SV`, `Experiment3` assigns what `Experiment` assigns |
| ReadingSweeps.ReadingFrameExtendsSweep | ET4510-LCR-PID_v4/Functions_B.py:184-189 | every column of `Experiment3`'s table other than `PV` and `SV` reads as in `Experiment`'s |
| ReadingSweeps.LastReadingShown | ET4510-LCR-PID_v4/Functions_B.py:170-185 | `PV` and `SV` hold the single reading taken at the last frequency of the last pair, broadcast to every row |
| ReadingSweeps.ReadingPair | ET4510-LCR-PID_v4/Functions_B.py:155-189 | one pair writes its trace and takes one reading per frequency from the next controller replies. Its averages are `AverageRun` of the meter's replies after the `FUNC:IMP:B` acknowledgement. It assigns PV/SV from the last reading and the four stat columns, and fails on an empty frequency list |
| ReadingSweeps.ReadingStep | ET4510-LCR-PID_v4/Functions_B.py:154-189 | one inner iteration extends the pairs, the readings, the trace and the table by one pair |
| ReadingSweeps.ReadingMain | ET4510-LCR-PID_v4/Functions_B.py:154-189 | the inner loop measures the pairs (k, i) in order with one reading per frequency each, and builds the table from them |
| ReadingSweeps.ReadingPass | ET4510-LCR-PID_v4/Functions_B.py:151-189 | one outer iteration writes `FUNC:IMP:A k`, then the inner loop |
| ReadingSweeps.ReadingMainsStep | ET4510-LCR-PID_v4/Functions_B.py:151-189 | one outer iteration extends the pairs, the readings and the table by one main parameter's row |
| ReadingSweeps.ReadingMains | ET4510-LCR-PID_v4/Functions_B.py:151-189 | the outer loop writes `Experiment`'s meter trace, measures the pairs in nested order and reads the controller once per pair and frequency |
| ReadingSweeps.ReadingRun | ET4510-LCR-PID_v4/Functions_B.py:151-192 | after the setup, the loops write `Experiment`'s meter trace and take one reading per pair and frequency, each from its own reply. Then 0x4701 ← fall-back and 0x4719 ← 0, each echo consumed. It returns the table of those pairs and readings; with pairs, it fails when `n` is 0 or there is no frequency |
| ReadingSweeps.ReadingSweep | ET4510-LCR-PID_v4/Functions_B.py:144-198 | `Experiment3` writes `Experiment`'s meter trace. It sends one read request per pair and frequency, each reading taken from its own reply, then 0x4701 ← 180 and 0x4719 ← 0. It returns the table of those pairs and readings |
| ReadingSweeps.ReadingCount | ET4510-LCR-PID_v4/Functions_B.py:166-171 | `Experiment3` reads the controller exactly |mains|·|minors|·|freqs| times |
| ReadingSweeps.ReadingCells | ET4510-LCR-PID_v4/Functions_B.py:288-289 | `pv_list` and `sv_list` hold the PV and SV of each reading, in order |
| ReadingSweeps.SetpointAppends | ET4510-LCR-PID_v4/Functions_B.py:293-298 | the six names `Experiment_b1` assigns are new and distinct, so the columns are appended in order |
| ReadingSweeps.SetpointColumns | ET4510-LCR-PID_v4/Functions_B.py:293-298 | `Experiment_b1`'s columns are `Frequency`, `PV`, `SV` and the four Z/THR columns. PV/SV hold one reading per frequency, aligned with the rows |
| ReadingSweeps.SetpointNames | ET4510-LCR-PID_v4/Functions_B.py:293-298 | the six names assigned are `PV`, `SV`, `Z Avg.`, `Z Std.`, `THR Avg.`, `THR Std.`, in that order |
| ReadingSweeps.SetpointFresh | ET4510-LCR-PID_v4/Functions_B.py:293-298 | the six names are distinct and none is `Frequency` |
| ReadingSweeps.SetpointFrameNames | ET4510-LCR-PID_v4/Functions_B.py:293-298 | the table's names are `Frequency`, then the six assigned ones |
| ReadingSweeps.SetpointKeepsFrequency | ET4510-LCR-PID_v4/Functions_B.py:293-298 | the `Frequency` column is left as it was |
| ReadingSweeps.SetpointLookups | ET4510-LCR-PID_v4/Functions_B.py:293-298 | `PV` and `SV` hold the readings' registers, and the four Z/THR columns hold entries 0 to 3 of the averages |
| ReadingSweeps.StoreSetpointColumns | ET4510-LCR-PID_v4/Functions_B.py:293-298 | the six column assignments, in order |
| ReadingSweeps.SetpointSweep | ET4510-LCR-PID_v4/Functions_B.py:251-303 | `Experiment_b1` starts the controller and writes the Z/THR trace. It reads once per frequency (None when unavailable) and returns the seven columns, the averages being `AverageRun` of the meter's replies left once the setup is acknowledged. It never stops the controller |
| Readings.TemperatureOf | ET4510-LCR-PID_v3/Functions_A.py:86-94 | a reply counts as a reading exactly when it decoded with a matching LRC, and then holds its two registers |
| Readings.TemperatureCells | ET4510-LCR-PID_v4/Functions_B.py:172-175 | a reading fills PV/SV with its registers; anything else fills both with the marker for a missing reading |
| Readings.CellsAreReadingsOrMarker | ET4510-LCR-PID_v4/Functions_B.py:172-175 | the cells are register values from a reading, or both the marker when the reply was no reading |
| Readings.ReplyFrameCells | ET4510-LCR-PID_v3/Functions_A.py:71-94 | a well-formed reply line ends up in the row as its two register values |
| Readings.AsWrittenCells | ET4510-LCR-PID_v4/Functions_B.py:172-175 | as written, a reading gives its registers and None gives the marker (a mismatch string is indexed, see Findings) |
| Readings.AsWrittenReached | ET4510-LCR-PID_v4/Functions_B.py:404 | as written, comparing a None or a letter with the target raises TypeError, and nan never satisfies it |
| Readings.Reached | ET4510-LCR-PID_v4/Functions_B.py:404 | the stop test holds only for a reading, and then exactly when PV ≥ target while heating or PV ≤ target while cooling |
| Readings.AsWrittenDiffersOnlyOnMismatch | ET4510-LCR-PID_v4/Functions_B.py:171-175 | on every reply except an LRC mismatch, the cells as written are the intended ones |
| Readings.ReachedAgreesOnCells | ET4510-LCR-PID_v4/Functions_B.py:398-404 | on the nan-marked cells of `Experiment_b3`, the test as written is the intended test |
| Readings.CorruptedLrcShowsLetters | ET4510-LCR-PID_v4/Functions_B.py:398-404 | a reply with a corrupted LRC lands as the letters "r" and "a" as written, and makes the stop test raise TypeError; as intended, it is unavailable and never stops |
| TemperatureReads.CellsOf | ET4510-LCR-PID_v4/Functions_B.py:171-175 | a line not starting with `:` gives the marker. Only ValueError can be raised. The cells are two register values or both the marker |
| TemperatureReads.CellsOfReplyFrame | ET4510-LCR-PID_v4/Functions_B.py:171-175 | a well-formed reply gives its two registers |
| TemperatureReads.CellsOfCorruptedReply | ET4510-LCR-PID_v4/Functions_B.py:171-175 | a reply with a corrupted LRC gives the marker |
| TemperatureReads.ReadCells | ET4510-LCR-PID_v4/Functions_B.py:171-175 | one read writes the request, consumes one line and returns `CellsOf` of it |
| TemperatureReads.ReadingIsReply | ET4510-LCR-PID_v4/Functions_B.py:171-175 | reading `t` of a sweep is what `CellsOf` makes of the `t`-th reply |
| TemperatureReads.ReadingOfReplyFrame | ET4510-LCR-PID_v4/Functions_B.py:171-175 | a reading taken from a well-formed reply holds its two registers |
| TemperatureReads.EndRun | ET4510-LCR-PID_v4/Functions_B.py:115-116 | ending a run writes the fall-back set value and STOP after the read requests, and consumes one echo line for each |
| TemperatureReads.EndedAfterStart | ET4510-LCR-PID_v4/Functions_B.py:68-116 | a run that started with two register writes has consumed their echoes, one reply per reading and the two echoes of the end, and written one request per reading and two frames more |
| TemperatureReads.PollMore | ET4510-LCR-PID_v4/Functions_B.py:171-175 | readings taken from where the last ones stopped extend the record: each reading is still what its own reply reads as |
| TemperatureReads.ReadNext | ET4510-LCR-PID_v4/Functions_B.py:171-175 | the next reading is taken from the next reply, or ValueError is raised |
| TemperatureReads.AverageFrequency | ET4510-LCR-PID_v4/Functions_B.py:177 | after `FREQ j`, the result is exactly `AverageOf` the pending replies, consuming `2n` lines on success. It completes that frequency's block of the trace and always fails when `n` is 0 |
| TemperatureReads.MeasureWithReading | ET4510-LCR-PID_v4/Functions_B.py:167-177 | a successful frequency's average is `AverageOf` the replies after the `FREQ` acknowledgement (`AckedAveraged`); with no acknowledgement pending it fails with NoAcknowledgement. It writes its block, takes one reading from the next reply and waits `TimeAdjustments(j)` |
| TemperatureReads.MeasureFrequenciesWithReadings | ET4510-LCR-PID_v4/Functions_B.py:166-181 | on success the averages and the lines left are `AverageRun`'s, one average per frequency from its own replies, and reading `t` is what the `t`-th controller reply reads as. It sends one read request per frequency, writes the frequency trace and waits the settling times |
| TimedRows.RecordOf | ET4510-LCR-PID_v4/Functions_B.py:349-357 | a row dict holds the time, PV, SV and the four averages, in that order |
| TimedRows.Records | ET4510-LCR-PID_v4/Functions_B.py:359 | one row dict per row, in order |
| TimedRows.RecordNames | ET4510-LCR-PID_v4/Functions_B.py:102-110 | a row dict has seven keys |
| TimedRows.TimedColumns | ET4510-LCR-PID_v4/Functions_B.py:366 | with no row the table is empty. Otherwise the keys are the columns in order, and column `c` holds entry `c` of every row, in order |
| TimedRows.PvReached | ET4510-LCR-PID_v4/Functions_B.py:404 | the stop test on a PV cell holds only for a reading, at or past the target in the direction of travel |
| TimedRows.PvReachedIsReached | ET4510-LCR-PID_v4/Functions_B.py:398-404 | on nan-marked cells, the stop test is the intended test, and the test as written agrees with it |
| TimedRows.ReadThenAverage | ET4510-LCR-PID_v4/Functions_B.py:344-347 | on success the average is `AverageOf` the meter's pending replies, consuming `2n` lines and writing `n` fetches. One reading is taken from the next controller reply |
| TimedRows.AverageRow | ET4510-LCR-PID_v4/Functions_B.py:347 | `DataAveraging` inside a loop returns exactly `AverageOf` the pending replies. On success it wrote `n` fetches and consumed `2n` lines; otherwise it fails with a meter fault |
| TimedSweeps.FixedNames | ET4510-LCR-PID_v4/Functions_B.py:349-357 | the row keys of `Experiment_b2`/`b3` are `Time (s)`, `PV`, `SV`, `Z Avg.`, `Z Std.`, `THR Avg.`, `THR Std.`, all distinct |
| TimedSweeps.FixedSetUp | ET4510-LCR-PID_v4/Functions_B.py:327-333 | once acknowledged, the setup wrote `FREQ`, VOLT, optional BIAS, Z, THR. The pending lines are exactly what those commands leave (`AckedRun`) |
| TimedSweeps.DurationLoop | ET4510-LCR-PID_v4/Functions_B.py:339-359 | the loop stops at the first clock reading past the limit. Each row was taken at a reading within it, read the controller once and fetched `n` times, and row `t` holds `AverageOf` the replies left by the `t` rows before it (`AveragedRows`) |
| TimedSweeps.GrowTimed | ET4510-LCR-PID_v4/Functions_B.py:339-342 | a row taken at the next clock reading within the limit keeps every row within it |
| TimedSweeps.GrowAveraged | ET4510-LCR-PID_v4/Functions_B.py:344-359 | a row averaged from the replies the earlier rows left extends `AveragedRows`, and its `2n` lines consumed leave the replies of the next row |
| TimedSweeps.GrowDuration | ET4510-LCR-PID_v4/Functions_B.py:339-359 | one pass of the `Experiment_b2` loop keeps every row within the limit and extends the trace by its `n` fetches |
| TimedSweeps.DurationRow | ET4510-LCR-PID_v4/Functions_B.py:344-359 | one row is stamped with the clock reading. Its averages are `AverageOf` the pending meter replies, of which it consumes `2n`; its controller reading extends the earlier rows' readings and it writes `n` fetches. It fails only with a meter fault, always when `n` is 0 |
| TimedSweeps.DurationRun | ET4510-LCR-PID_v4/Functions_B.py:339-363 | after the setup, the loop as `DurationLoop` states, rows averaged from the meter's replies (`AveragedRows`), then 0x4701 ← fall-back and 0x4719 ← 0, each echo consumed after the readings' replies |
| TimedSweeps.DurationSweep | ET4510-LCR-PID_v4/Functions_B.py:320-370 | `Experiment_b2` starts the controller, then writes the setup and `n` fetches per row. It stops at the first clock reading past `exptime`, one row per earlier reading, with nan for an unavailable reading. Row `t` holds `AverageOf` the replies left after the setup's acknowledgements and the earlier rows. Then 0x4701 ← 180, 0x4719 ← 0 |
| TimedSweeps.UntilStep | ET4510-LCR-PID_v4/Functions_B.py:398-419 | one iteration reads the controller. It stops, touching no meter line, exactly when the PV has reached the target; otherwise its average is `AverageOf` the pending replies, of which it consumes `2n` |
| TimedSweeps.GrowUntil | ET4510-LCR-PID_v4/Functions_B.py:396-420 | one measured pass of the `Experiment_b3` loop keeps every row short of the target, extends the readings by the row's and the trace by its `n` fetches |
| TimedSweeps.UntilLoop | ET4510-LCR-PID_v4/Functions_B.py:396-420 | the loop ends at the first reading at or past the target. No row shows the target reached, the stopping reading makes no row, and row `t` holds `AverageOf` the replies left by the rows before it (`AveragedRows`) |
| TimedSweeps.UntilRun | ET4510-LCR-PID_v4/Functions_B.py:391-420 | on success the first reading held a PV and fixed heating = target > that PV, then the loop ran as `UntilLoop` states, rows averaged from the meter's replies. A failure is a meter or reading fault, or TypeError |
| TimedSweeps.UntilSweep | ET4510-LCR-PID_v4/Functions_B.py:373-430 | `Experiment_b3` fixes the direction from the first reading. It rows every later reading until the first at or past the target; an unavailable reading (nan, including an LRC mismatch in this model) never stops it. Row `t` holds `AverageOf` the replies left after the setup and the earlier rows. It reads the controller rows + 2 times, then 0x4701 ← 180, 0x4719 ← 0 |
| CycleSweeps.CycleMinorsCount | ET4510-LCR-PID_v4/Functions_B.py:89-100 | the inner loop sends no `FREQ` line and |minors|·`n` fetches |
| CycleSweeps.CycleCount | ET4510-LCR-PID_v4/Functions_B.py:87-100 | one pass sends no `FREQ` line and |mains|·|minors|·`n` fetches |
| CycleSweeps.CycleSweepCounts | ET4510-LCR-PID_v4/Functions_B.py:72-112 | `Experiment2` sets the frequency once and fetches |mains|·|minors|·`n` times per pass |
| CycleSweeps.CycleNames | ET4510-LCR-PID_v4/Functions_B.py:102-110 | the row dict of `Experiment2` has seven keys |
| CycleSweeps.CycleNamesDistinct | ET4510-LCR-PID_v4/Functions_B.py:102-110 | whatever the parameter names, the seven keys are distinct |
| CycleSweeps.MinorStep | ET4510-LCR-PID_v4/Functions_B.py:90-100 | one minor writes `FUNC:IMP:B i` and `n` fetches and takes one reading. On success its average is `AverageOf` the replies after the acknowledgement (`AckedAveraged`); with no acknowledgement pending it fails with NoAcknowledgement |
| CycleSweeps.CycleMinors | ET4510-LCR-PID_v4/Functions_B.py:89-100 | the inner loop writes `FUNC:IMP:B i` and `n` fetches per minor, takes one reading per minor and keeps the last. It fails when there is no minor or `n` is 0 |
| CycleSweeps.MainStep | ET4510-LCR-PID_v4/Functions_B.py:87-110 | one main parameter extends the pass's trace and readings by its inner loop |
| CycleSweeps.CycleMains | ET4510-LCR-PID_v4/Functions_B.py:87-110 | one pass writes the pass's meter lines, takes one reading per pair, and hands the last pair's reading to the row. It fails when either list is empty or `n` is 0 |
| CycleSweeps.CycleStep | ET4510-LCR-PID_v4/Functions_B.py:83-112 | a pass within the limit appends exactly one row, stamped with that clock reading, showing the pass's last reading |
| CycleSweeps.CycleLoop | ET4510-LCR-PID_v4/Functions_B.py:82-112 | the loop stops at the first clock reading past the limit, one row per earlier reading, each pass reading once per pair |
| CycleSweeps.CycleSetUp | ET4510-LCR-PID_v4/Functions_B.py:72-75 | once acknowledged, the setup wrote `FREQ`, VOLT and the optional BIAS. The pending lines are exactly what those commands leave (`AckedRun`) |
| CycleSweeps.CycleSweep | ET4510-LCR-PID/Functions.py:175-234 | `Experiment2` starts the controller and writes the meter trace of every pass. It appends one row per pass until the clock passes `exptime`, reading once per pair, then writes the fall-back set value and STOP. With no pair, it fails once the loop is entered |
| CycleSweeps.CycleColumns | ET4510-LCR-PID_v4/Functions_B.py:119 | the table's columns are the seven keys, each holding its entry of every row |
| CycleSweeps.CycleReadCount | ET4510-LCR-PID_v4/Functions_B.py:87-100 | `Experiment2` reads the controller |mains|·|minors| times per row |

## Left out

- `DeviceConnect`, `DeviceConnect_CN740` and `DeviceDisconnect` are not modelled. They are pyserial open/close calls; a `SerialPort` starts from the lines the device will send.
- `Frequencies` is not modelled: it is floating-point `logspace` and rounding. The sweeps take their frequencies as given integers.
- `DataExport`, `DataExport2`, `DataExport3`, `DataExport_b` and the `temp_output_b3.csv` checkpoint are not modelled: they are file output.
- Console output (`print` of tables, of "LRC mismatch" and of "Test completed") is not modelled.
- `time.sleep` is not modelled: `TimeAdjustments` is `Meter.SettleDelay`, which returns the delay. Only the frequency loops return their delays; the other sweeps do not.
- `time.time` and `round(t_now, 1)` are not modelled: the clock is an oracle giving tenths of a second, and the loops of `Experiment2` and `Experiment_b2` compare that same value with the limit. The source compares the unrounded `t_now > exptime` (ET4510-LCR-PID_v4/Functions_B.py:339-342, ET4510-LCR-PID/Functions.py:194-196) and rounds only the stored "Time (s)", so a reading 0.03 s past `exptime` ends the source's loop while its rounded value may not; read `clock` as the value the comparison sees.
- `np.std` is not modelled as written: the spread entries hold the population variance, because the square root is left out. `np.mean` and the variance are over reals, not floats.
- ParseReal: `float()` is modelled for ASCII signs, digits, a point and an exponent only. `nan`, `inf`, underscores and non-ASCII digits give None where Python reads a number.
- `f'VOLT {voltage*1e3}'` and `BIAS:VOLT {int(biasVoltage*1e3)}` are not modelled: their arguments are given as rendered text, because they involve float formatting.
- PV/SV are kept as integer tenths rather than divided by 10 as floats. `until_temp` is compared in the same tenths.
- WriteRegister, StartRun, CycleSweep, SetpointSweep, DurationSweep, UntilSweep: `PIDcommander`'s value is a 16-bit `Word`, so these take `set_temp*10` as a whole number in 0..0xFFFF. In Python, `f"{value_int:04X}"` (ET4510-LCR-PID_v3/Functions_A.py:104) renders a negative value as `-064` and a wider one as five digits; `calc_lrc` still reads those pairs, so a malformed frame is sent and the echo check returns the mismatch report without raising. A float such as 255.0 (a set temperature of 25.5) makes `04X` raise ValueError before any meter line is written (ET4510-LCR-PID_v4/Functions_B.py:68, 255, 323, 376). The model, whose value is a `Word`, can express neither.
- SendCommand: `LCRCommander` is weaker than the source: with no `exec success` pending, the source blocks forever. The model consumes every pending line and reports `NoAcknowledgement`, and the sweeps stop with that fault.
- The sweeps ignore the text `PIDcommander` returns, so the echo line is consumed and not checked.
- HexDigitValue: only ASCII hex digits have a value. Python's `int(c, 16)` also reads other Unicode decimal digits (`int('٣', 16) == 3`), which the model rejects.
- HexNumber: `int(s, 16)` is modelled for ASCII hex digits only. Python also accepts white space around the digits, a sign, a `0x` or `0X` prefix, underscores between digits and non-ASCII digits (`int('+1F', 16) == 31`, `int('0x1F', 16) == 31`); the model gives None there.
- HexNumberDefined: states when the ASCII-only `HexNumber` succeeds. On ` 1F`, `+1F`, `-1`, `0x1F` or `1_F` Python succeeds where the model fails.
- PairSum: pairs are read as ASCII hex only. Python also reads pairs such as `+1`, ` 1` or `-1`, so its total can be negative; the model gives None there.
- PairSumDefined: the accumulation fails on a pair such as `+1` or `-1`, which Python's `calc_lrc` reads.
- DecodeReply: follows the ASCII-only hex reading. The reply `:010304+1FF019067` passes the LRC in Python, which returns [51.1, 40.0]; the model gives Err(ValueError). Data such as ` 1 2` passes Python's pairwise LRC and then raises at Functions_A.py:90; the model already fails at the LRC.
- DataFieldsAreHex: holds of the ASCII-only model. In Python a matching LRC does not make `int(data, 16)` succeed, because the pairs may carry signs or white space.
- SerialLine.SerialPort.ReadLine: the pending lines are already text. `ser.readline().decode()` raises UnicodeDecodeError on bytes that are not UTF-8 (Functions_A.py:28, 37, 72, 111), and the model has no such error.
- MeasureMain: the averages are not tied to the meter's replies. Each `MeasurePair` ties its own averages to the replies it read, but the loop keeps only the trace and the table; tying them would need a ghost window of replies per pair in every invariant of the nested loops, each averaging term adding to proofs already near the solver's budget.
- SweepMain: the averages are not tied to the meter's replies, as for `MeasureMain`.
- SweepMains: the averages are not tied to the meter's replies, as for `MeasureMain`.
- ReadingStep: the averages are not tied to the meter's replies, as for `MeasureMain`; `ReadingPair` ties its own.
- ReadingMain: the averages are not tied to the meter's replies, as for `MeasureMain`.
- ReadingPass: the averages are not tied to the meter's replies, as for `MeasureMain`.
- ReadingMainsStep: the averages are not tied to the meter's replies, as for `MeasureMain`.
- ReadingMains: the averages are not tied to the meter's replies, as for `MeasureMain`.
- ReadingRun: the averages are not tied to the meter's replies, as for `MeasureMain`.
- CycleMinors: the averages are not tied to the meter's replies beyond each `MinorStep`; the loop keeps only the trace and the readings.
- MainStep: the averages are not tied to the meter's replies, as for `CycleMinors`.
- CycleMains: the averages are not tied to the meter's replies, as for `CycleMinors`.
- CycleStep: the row's averages are not tied to the meter's replies, as for `CycleMinors`.
- CycleLoop: the rows' averages are not tied to the meter's replies, as for `CycleMinors`.
- FrequencySweep: the averages in the table are existentially chosen (one per frequency and pair). The contract does not tie each to `Meter.AverageOf` of the meter's replies; the fetch count and the table built from them are stated.
- ReadingSweep: the averages are not tied to the meter's replies, as for `MeasureMain`. On failure, the controller's link after the failure is not stated (Python raises before stopping the controller).
- SetpointSweep: on failure, only the start frames are stated.
- DurationSweep: on failure, only the start frames are stated.
- UntilSweep: on failure, only the start frames are stated.
- CycleSweep: the averages are not tied to the meter's replies, as for `CycleMinors`. On failure, only the start frames are stated.
- ReadCells: reads the controller through `TemperatureReads.CellsOf`, the intended reading of "## Findings": a reply whose LRC does not match gives the unavailable marker. As written, `PIDDataReadout` returns its mismatch report and the scripts store its letters "r" and "a" (`Readings.AsWrittenCells`).
- ReadNext: the intended reading, as for `ReadCells`.
- ReadingSweep: its readings use the intended reading, as for `ReadCells`; as written, a mismatched reply puts "r" and "a" in the PV and SV columns.
- SetpointSweep: its readings use the intended reading, as for `ReadCells`; as written, a mismatched reply puts "r" and "a" in `pv_list` and `sv_list`.
- DurationSweep: its readings use the intended reading, as for `ReadCells`; as written, a mismatched reply puts "r" and "a" in the row.
- UntilSweep: its readings use the intended reading, as for `ReadCells`: a mismatched reply is nan and the loop goes on. As written, the reply `:0103040190019000` makes PV the letter "r" and `pv >= until_temp` raises TypeError (ET4510-LCR-PID_v4/Functions_B.py:404).
- CycleSweep: its readings use the intended reading, as for `ReadCells`; as written, a mismatched reply puts "r" and "a" in the row.
- The waiting loops terminate in the model only because every completed iteration consumes meter lines. A device that keeps answering forever is outside the model; the source would then loop until the clock or the temperature stops it.

## Findings

| source | as written | input that shows it | evidently intended | confidence | as-written member | corrected member |
|---|---|---|---|---|---|---|
| ET4510-LCR-PID_v4/Functions_B.py:398-404 | On an LRC mismatch, `PIDDataReadout` returns its diagnostic string, not None. The sweeps test only `is None` and then take `temp[0], temp[1]`. So PV and SV become "r" and "a". In `Experiment_b3` the test `pv >= until_temp` then raises TypeError | the reply line `:0103040190019000` (PV = SV = 400, LRC field `00` where `D6` is right): see `Readings.CorruptedLrcShowsLetters` | a reply that fails the LRC check counts as an unavailable reading (None or nan), which never stops the sweep | not executed | Readings.AsWrittenCells | TemperatureReads.CellsOf |
