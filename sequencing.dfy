/** The meter commands the sweeps send, the lines they write for them, and the loop over
    frequencies that every frequency sweep runs: `FREQ j`, the settling time of
    `TimeAdjustments(j)`, then `DataAveraging`. */
module Sequencing {
  import opened Common
  import opened SerialLine
  import opened Statistics
  import opened Meter
  import Decimal

  /** `VOLT {voltage*1e3}` (or `VOLT {int(voltage*1e3)}`), with the number already
      rendered as `volt`. */
  function VoltCommand(volt: string): (r: string)
    ensures StartsWith(r, "VOLT ") && r[5..] == volt
  {
    "VOLT " + volt
  }

  /** `BIAS:VOLT {int(biasVoltage*1e3)}`, with the number already rendered. */
  function BiasCommand(bias: string): (r: string)
    ensures StartsWith(r, "BIAS:VOLT ") && r[10..] == bias
  {
    "BIAS:VOLT " + bias
  }

  /** `FUNC:IMP:A {k}`: the major parameter. */
  function MainCommand(k: string): (r: string)
    ensures StartsWith(r, "FUNC:IMP:A ") && r[11..] == k
  {
    "FUNC:IMP:A " + k
  }

  /** `FUNC:IMP:B {i}`: the minor parameter. */
  function MinorCommand(i: string): (r: string)
    ensures StartsWith(r, "FUNC:IMP:B ") && r[11..] == i
  {
    "FUNC:IMP:B " + i
  }

  /** `FREQ {j}` for an integer frequency. */
  function FreqCommand(j: int): (r: string)
    ensures StartsWith(r, "FREQ ") && r[5..] == IntText(j)
  {
    "FREQ " + IntText(j)
  }

  /** The number after `FREQ ` reads back as the frequency `j`. */
  lemma FreqCommandValue(j: int)
    ensures Decimal.ParseReal(FreqCommand(j)[5..]) == Some(j as real)
  {
    Decimal.ParseIntText(j);
  }

  /** The number of lines in `trace` that begin with `prefix`. */
  function CountWhere(trace: seq<string>, prefix: string): (count: nat)
    ensures count <= |trace|
  {
    if |trace| == 0 then 0
    else CountWhere(trace[..|trace| - 1], prefix) + (if StartsWith(trace[|trace| - 1], prefix) then 1 else 0)
  }

  lemma {:induction false} CountAppend(a: seq<string>, b: seq<string>, prefix: string)
    ensures CountWhere(a + b, prefix) == CountWhere(a, prefix) + CountWhere(b, prefix)
    decreases |b|
  {
    if |b| > 0 {
      var last := b[|b| - 1];
      var bit := if StartsWith(last, prefix) then 1 else 0;
      assert (a + b)[..|a + b| - 1] == a + b[..|b| - 1];
      assert (a + b)[|a + b| - 1] == last;
      CountAppend(a, b[..|b| - 1], prefix);
      assert CountWhere(a + b, prefix) == CountWhere(a + b[..|b| - 1], prefix) + bit;
      assert CountWhere(b, prefix) == CountWhere(b[..|b| - 1], prefix) + bit;
    } else {
      assert a + b == a;
    }
  }

  lemma CountRepeat(line: string, k: nat, prefix: string)
    ensures CountWhere(Repeat(line, k), prefix) == if StartsWith(line, prefix) then k else 0
  {
    if k > 0 {
      assert Repeat(line, k)[..k - 1] == Repeat(line, k - 1);
      CountRepeat(line, k - 1, prefix);
    }
  }

  const FREQ_PREFIX := "FREQ "
  const FETCH_PREFIX := "FETCH?"

  /** The `VOLT` and `BIAS:VOLT` lines are neither `FREQ` lines nor fetches. */
  lemma SetupLineKinds(volt: string, bias: string, prefix: string)
    requires prefix == FREQ_PREFIX || prefix == FETCH_PREFIX
    ensures !StartsWith(CommandLine(VoltCommand(volt)), prefix)
    ensures !StartsWith(CommandLine(BiasCommand(bias)), prefix)
  {
    assert CommandLine(VoltCommand(volt))[0] == 'V';
    assert CommandLine(BiasCommand(bias))[0] == 'B';
  }

  /** A single line counts once if it has the prefix, else not at all. */
  lemma CountSingle(line: string, prefix: string)
    ensures CountWhere([line], prefix) == if StartsWith(line, prefix) then 1 else 0
  {
    assert [line][..0] == [];
  }

  /** A `FUNC:IMP:A` line is neither a `FREQ` line nor a fetch. */
  lemma MainLineKind(k: string, prefix: string)
    requires prefix == FREQ_PREFIX || prefix == FETCH_PREFIX
    ensures CountWhere([CommandLine(MainCommand(k))], prefix) == 0
  {
    CountSingle(CommandLine(MainCommand(k)), prefix);
    assert CommandLine(MainCommand(k))[1] == 'U';
  }

  /** A `FUNC:IMP:B` line is neither a `FREQ` line nor a fetch. */
  lemma MinorLineKind(i: string, prefix: string)
    requires prefix == FREQ_PREFIX || prefix == FETCH_PREFIX
    ensures CountWhere([CommandLine(MinorCommand(i))], prefix) == 0
  {
    CountSingle(CommandLine(MinorCommand(i)), prefix);
    assert CommandLine(MinorCommand(i))[1] == 'U';
  }

  /** What the sweeps write before the measurement loops: VOLT, then BIAS:VOLT when a
      bias voltage is given. */
  function SetupTrace(volt: string, bias: Option<string>): (trace: seq<string>)
    ensures |trace| == if bias.Some? then 2 else 1
  {
    [CommandLine(VoltCommand(volt))] + (if bias.Some? then [CommandLine(BiasCommand(bias.value))] else [])
  }

  /** The setup writes neither a `FREQ` line nor a fetch. */
  lemma SetupCounts(volt: string, bias: Option<string>, prefix: string)
    requires prefix == FREQ_PREFIX || prefix == FETCH_PREFIX
    ensures CountWhere(SetupTrace(volt, bias), prefix) == 0
  {
    SetupLineKinds(volt, if bias.Some? then bias.value else "", prefix);
    var t := SetupTrace(volt, bias);
    if bias.Some? {
      assert t[..1] == [CommandLine(VoltCommand(volt))];
    }
  }

  /** The meter lines for one frequency: `FREQ j`, then the `n` fetches of `DataAveraging`. */
  function FrequencyBlock(j: int, n: nat): seq<string>
  {
    [CommandLine(FreqCommand(j))] + Repeat(FETCH_QUERY, n)
  }

  /** The `FREQ` line of a frequency counts as one, and never as a fetch. */
  lemma FreqLineKind(j: int)
    ensures StartsWith(CommandLine(FreqCommand(j)), FREQ_PREFIX)
    ensures !StartsWith(CommandLine(FreqCommand(j)), FETCH_PREFIX)
  {
    assert CommandLine(FreqCommand(j))[..5] == FREQ_PREFIX;
    assert CommandLine(FreqCommand(j))[1] == 'R';
  }

  /** A fetch is never taken for a `FREQ` line. */
  lemma FetchLineKind()
    ensures StartsWith(FETCH_QUERY, FETCH_PREFIX) && !StartsWith(FETCH_QUERY, FREQ_PREFIX)
  {
    assert FETCH_QUERY[..6] == FETCH_PREFIX;
    assert FETCH_QUERY[1] != FREQ_PREFIX[1];
  }

  /** One frequency costs one `FREQ` line and `n` fetches. */
  lemma BlockCounts(j: int, n: nat)
    ensures CountWhere(FrequencyBlock(j, n), FREQ_PREFIX) == 1
    ensures CountWhere(FrequencyBlock(j, n), FETCH_PREFIX) == n
  {
    var line := CommandLine(FreqCommand(j));
    FreqLineKind(j);
    FetchLineKind();
    CountAppend([line], Repeat(FETCH_QUERY, n), FREQ_PREFIX);
    CountAppend([line], Repeat(FETCH_QUERY, n), FETCH_PREFIX);
    CountRepeat(FETCH_QUERY, n, FREQ_PREFIX);
    CountRepeat(FETCH_QUERY, n, FETCH_PREFIX);
    assert [line][..0] == [];
  }

  /** The meter lines of one pass over the frequencies, block after block. */
  function FrequencyTrace(freqs: seq<int>, n: nat): seq<string>
  {
    if |freqs| == 0 then []
    else FrequencyTrace(freqs[..|freqs| - 1], n) + FrequencyBlock(freqs[|freqs| - 1], n)
  }

  lemma OneMore(a: nat, n: nat)
    ensures (a + 1) * n == a * n + n
  {
  }

  /** One pass sends one `FREQ` command per frequency and `n` fetches after each. */
  lemma {:induction false} FrequencyTraceCounts(freqs: seq<int>, n: nat)
    ensures CountWhere(FrequencyTrace(freqs, n), FREQ_PREFIX) == |freqs|
    ensures CountWhere(FrequencyTrace(freqs, n), FETCH_PREFIX) == |freqs| * n
  {
    if |freqs| > 0 {
      var front := freqs[..|freqs| - 1];
      var block := FrequencyBlock(freqs[|freqs| - 1], n);
      FrequencyTraceCounts(front, n);
      BlockCounts(freqs[|freqs| - 1], n);
      CountAppend(FrequencyTrace(front, n), block, FREQ_PREFIX);
      CountAppend(FrequencyTrace(front, n), block, FETCH_PREFIX);
      OneMore(|front|, n);
    }
  }

  /** The settling times `TimeAdjustments` waits, one per frequency, in order. */
  function Delays(freqs: seq<int>): (waits: seq<nat>)
    ensures |waits| == |freqs|
  {
    if |freqs| == 0 then [] else Delays(freqs[..|freqs| - 1]) + [SettleDelay(freqs[|freqs| - 1])]
  }

  /** Only frequencies up to 1000 Hz make a sweep wait, 10 s each below 100 Hz. */
  lemma {:induction false} DelaysBound(freqs: seq<int>)
    ensures forall t :: 0 <= t < |freqs| ==> Delays(freqs)[t] == SettleDelay(freqs[t])
    ensures forall t :: 0 <= t < |freqs| ==> (Delays(freqs)[t] > 0 <==> freqs[t] <= 1000)
  {
    if |freqs| > 0 {
      DelaysBound(freqs[..|freqs| - 1]);
    }
  }

  /** One more frequency adds its block to the trace and its settling time to the waits. */
  lemma FrequencySnoc(freqs: seq<int>, c: nat, n: nat)
    requires c < |freqs|
    ensures FrequencyTrace(freqs[..c + 1], n) == FrequencyTrace(freqs[..c], n) + FrequencyBlock(freqs[c], n)
    ensures Delays(freqs[..c + 1]) == Delays(freqs[..c]) + [SettleDelay(freqs[c])]
  {
    assert freqs[..c + 1][..c] == freqs[..c];
  }

  /** The ways the meter side of a sweep can fail: no acknowledgement, a reply that is
      not two numbers, or `DataAveraging(ser, 0)`. */
  predicate MeterFault(f: Fault, n: nat)
  {
    f == NoAcknowledgement || f == ValueError || (f == IndexError && n == 0)
  }

  /** `LCRCommander(ser, command)` as the sweeps rely on it: the line goes out, the
      command is acknowledged exactly when an `exec success` line is pending, and what is
      left pending is what follows it; an acknowledged command consumed at least the
      acknowledgement. */
  method Command(meter: SerialPort, command: string) returns (acked: bool)
    modifies meter
    ensures meter.written == old(meter.written) + [CommandLine(command)]
    ensures acked <==> AckIndex(old(meter.pending)).Some?
    ensures meter.pending == AfterAck(old(meter.pending))
    ensures Remains(meter.pending, old(meter.pending))
    ensures acked ==> |meter.pending| < |old(meter.pending)|
  {
    acked := SendCommand(meter, command);
    if acked {
      AckConsumes(old(meter.pending));
    }
  }

  /** The lines sent by `VOLT` and the optional `BIAS:VOLT`: both are acknowledged in turn
      or the setup stops, and what is left pending follows the last acknowledgement. */
  method SetUp(meter: SerialPort, volt: string, bias: Option<string>) returns (acked: bool)
    modifies meter
    ensures acked ==> meter.written == old(meter.written) + SetupTrace(volt, bias)
    ensures AckedRun(old(meter.pending), |SetupTrace(volt, bias)|, acked, meter.pending)
    ensures Remains(meter.pending, old(meter.pending))
  {
    ghost var lines := meter.pending;
    acked := Command(meter, VoltCommand(volt));
    assert AckedRun(lines, 1, acked, meter.pending) by {
      AckStep(lines, 0);
      AckedRunMore(lines, 0, true, lines, acked, meter.pending);
    }
    if bias.Some? {
      ghost var acked0, rest0 := acked, meter.pending;
      if acked {
        acked := Command(meter, BiasCommand(bias.value));
      }
      AckedRunMore(lines, 1, acked0, rest0, acked, meter.pending);
    }
    assert Remains(meter.pending, lines) by {
      AcksRemain(lines, |SetupTrace(volt, bias)|);
    }
  }

  /** `LCRCommander(ser, f'FREQ {j}')` then `DataAveraging(ser, n)`, as a function of the
      meter's pending lines: the average of the replies that follow the acknowledgement. */
  function AckedAverage(lines: seq<string>, n: nat): (r: Result<Stats>)
    ensures r.Err? ==> MeterFault(r.fault, n)
    ensures r.Ok? ==> AckIndex(lines).Some? && r == AverageOf(AfterAck(lines), n)
  {
    if AckIndex(lines).None? then Err(NoAcknowledgement) else AverageOf(AfterAck(lines), n)
  }

  /** A command acknowledged on `lines`, then `DataAveraging(ser, n)`: `s` is the average of
      the replies after the acknowledgement, and `rest` is what those replies leave. */
  predicate AckedAveraged(lines: seq<string>, n: nat, s: Stats, rest: seq<string>)
  {
    AckedAverage(lines, n) == Ok(s) && rest == Drop(AfterAck(lines), 2 * n)
  }

  /** The measurement taken at each frequency of a run: `AckedAverage` of `n` samples. */
  function Measure(n: nat): seq<string> -> Result<Stats>
  {
    lines => AckedAverage(lines, n)
  }

  /** Where a run over the frequencies stands: the averages so far, or the first failure,
      and the lines still pending. */
  datatype Run = Run(averages: Result<seq<Stats>>, rest: seq<string>)

  /** One more frequency: a failed run stays as it is; otherwise `measure` is taken on the
      pending lines, and the acknowledgement and the `n` fetch/reply pairs it read are
      consumed. */
  function RunStep(measure: seq<string> -> Result<Stats>, run: Run, n: nat): (r: Run)
    ensures run.averages.Err? ==> r == run
    ensures run.averages.Ok? && r.averages.Ok? ==>
              measure(run.rest).Ok? && r.averages.value == run.averages.value + [measure(run.rest).value]
    ensures run.averages.Ok? && r.averages.Err? ==> measure(run.rest) == Err(r.averages.fault)
  {
    if run.averages.Err? then run
    else
      match measure(run.rest)
      case Err(e) => Run(Err(e), run.rest)
      case Ok(s) => Run(Ok(run.averages.value + [s]), Drop(AfterAck(run.rest), 2 * n))
  }

  /** The measurements at `k` frequencies in a row on the meter's pending `lines`, each
      taken on what the earlier ones left; the first failure ends the run. */
  function AverageRun(measure: seq<string> -> Result<Stats>, lines: seq<string>, k: nat, n: nat): (r: Run)
    ensures r.averages.Ok? ==> |r.averages.value| == k
  {
    if k == 0 then Run(Ok([]), lines) else RunStep(measure, AverageRun(measure, lines, k - 1, n), n)
  }

  /** One more frequency of a run. */
  lemma AverageRunStep(measure: seq<string> -> Result<Stats>, lines: seq<string>, k: nat, n: nat)
    ensures AverageRun(measure, lines, 0, n) == Run(Ok([]), lines)
    ensures AverageRun(measure, lines, k + 1, n) == RunStep(measure, AverageRun(measure, lines, k, n), n)
  {
  }

  /** Once a frequency fails, the run fails with that fault. */
  lemma {:induction false} AverageRunStops(measure: seq<string> -> Result<Stats>, lines: seq<string>, j: nat, k: nat, n: nat)
    requires j <= k && AverageRun(measure, lines, j, n).averages.Err?
    ensures AverageRun(measure, lines, k, n).averages == AverageRun(measure, lines, j, n).averages
    decreases k
  {
    if k > j {
      AverageRunStops(measure, lines, j, k - 1, n);
      AverageRunStep(measure, lines, k - 1, n);
    }
  }

  /** A run that succeeds over `k > 0` frequencies succeeded over the first `k - 1`. */
  lemma AverageRunShorter(measure: seq<string> -> Result<Stats>, lines: seq<string>, k: nat, n: nat)
    requires k > 0 && AverageRun(measure, lines, k, n).averages.Ok?
    ensures AverageRun(measure, lines, k - 1, n).averages
            == Ok(AverageRun(measure, lines, k, n).averages.value[..k - 1])
  {
    AverageRunStep(measure, lines, k - 1, n);
    var front := AverageRun(measure, lines, k - 1, n).averages;
    assert front.Ok?;
    assert front.value == AverageRun(measure, lines, k, n).averages.value[..k - 1];
  }

  /** The last average of a successful run is the measurement taken on what the earlier
      frequencies left pending. */
  lemma AverageRunLast(measure: seq<string> -> Result<Stats>, lines: seq<string>, k: nat, n: nat)
    requires k > 0 && AverageRun(measure, lines, k, n).averages.Ok?
    ensures measure(AverageRun(measure, lines, k - 1, n).rest) == Ok(AverageRun(measure, lines, k, n).averages.value[k - 1])
  {
    AverageRunStep(measure, lines, k - 1, n);
    var front := AverageRun(measure, lines, k - 1, n).averages;
    var m := measure(AverageRun(measure, lines, k - 1, n).rest);
    assert front.Ok? && m.Ok?;
    assert AverageRun(measure, lines, k, n).averages.value == front.value + [m.value];
  }

  /** Average `t` of a successful run is the measurement taken on what the first `t`
      frequencies left pending. */
  lemma {:induction false} AverageRunEntry(measure: seq<string> -> Result<Stats>, lines: seq<string>, k: nat, n: nat, t: nat)
    requires t < k && AverageRun(measure, lines, k, n).averages.Ok?
    ensures measure(AverageRun(measure, lines, t, n).rest) == Ok(AverageRun(measure, lines, k, n).averages.value[t])
    decreases k
  {
    if t == k - 1 {
      AverageRunLast(measure, lines, k, n);
    } else {
      var whole := AverageRun(measure, lines, k, n).averages.value;
      var front := AverageRun(measure, lines, k - 1, n).averages.value;
      assert front[t] == whole[t] by {
        AverageRunShorter(measure, lines, k, n);
      }
      AverageRunEntry(measure, lines, k - 1, n, t);
    }
  }

  /** The run after one more frequency, from the measurement taken there. */
  lemma MeasureStep(lines: seq<string>, c: nat, n: nat, measured: seq<Stats>, before: seq<string>,
                    m: Result<Stats>, after: seq<string>)
    requires AverageRun(Measure(n), lines, c, n) == Run(Ok(measured), before)
    requires m == AckedAverage(before, n)
    requires m.Ok? ==> after == Drop(AfterAck(before), 2 * n)
    ensures m.Err? ==> AverageRun(Measure(n), lines, c + 1, n).averages == Err(m.fault)
    ensures m.Ok? ==> AverageRun(Measure(n), lines, c + 1, n) == Run(Ok(measured + [m.value]), after)
  {
    AverageRunStep(Measure(n), lines, c, n);
    assert Measure(n)(before) == m;
  }

  /** One frequency of the loop: `FREQ j`, the settling time, then `DataAveraging(ser, n)`
      on the replies that follow the acknowledgement. */
  method MeasureAt(meter: SerialPort, j: int, n: nat) returns (r: Result<Stats>, wait: nat)
    modifies meter
    ensures r == AckedAverage(old(meter.pending), n)
    ensures r.Ok? ==> meter.pending == Drop(AfterAck(old(meter.pending)), 2 * n)
    ensures r.Ok? ==> meter.written == old(meter.written) + FrequencyBlock(j, n)
    ensures wait == SettleDelay(j)
    ensures r.Err? ==> r.fault in {NoAcknowledgement, ValueError, IndexError}
    ensures r.Err? && r.fault == IndexError ==> n == 0
    ensures n == 0 ==> r.Err?
    ensures Remains(meter.pending, old(meter.pending))
  {
    wait := SettleDelay(j);
    var acked := Command(meter, FreqCommand(j));
    if !acked {
      return Err(NoAcknowledgement), wait;
    }
    ghost var settled := meter.pending;
    ghost var sent := meter.written;
    r := AverageSamples(meter, n);
    RemainsTrans(meter.pending, settled, old(meter.pending));
    if r.Ok? {
      AverageConsumes(settled, n);
      assert meter.written == sent + Repeat(FETCH_QUERY, n);
    }
  }

  /** The loop over the frequencies. The averages come back in frequency order, each from
      the replies after its own `FREQ` acknowledgement. */
  method MeasureFrequencies(meter: SerialPort, freqs: seq<int>, n: nat)
    returns (r: Result<seq<Stats>>, waits: seq<nat>)
    modifies meter
    ensures r == AverageRun(Measure(n), old(meter.pending), |freqs|, n).averages
    ensures r.Ok? ==> meter.pending == AverageRun(Measure(n), old(meter.pending), |freqs|, n).rest
    ensures r.Ok? ==> |r.value| == |freqs|
    ensures r.Ok? ==> meter.written == old(meter.written) + FrequencyTrace(freqs, n)
    ensures r.Ok? ==> waits == Delays(freqs)
    ensures r.Err? ==> r.fault in {NoAcknowledgement, ValueError, IndexError}
    ensures r.Err? && r.fault == IndexError ==> n == 0
    ensures n == 0 && |freqs| > 0 ==> r.Err?
    ensures Remains(meter.pending, old(meter.pending))
  {
    var measured: seq<Stats> := [];
    waits := [];
    var c := 0;
    AverageRunStep(Measure(n), old(meter.pending), 0, n);
    while c < |freqs|
      invariant 0 <= c <= |freqs| && |measured| == c
      invariant AverageRun(Measure(n), old(meter.pending), c, n) == Run(Ok(measured), meter.pending)
      invariant meter.written == old(meter.written) + FrequencyTrace(freqs[..c], n)
      invariant waits == Delays(freqs[..c])
      invariant n == 0 ==> c == 0
      invariant Remains(meter.pending, old(meter.pending))
    {
      ghost var before := meter.pending;
      var m, wait := MeasureAt(meter, freqs[c], n);
      RemainsTrans(meter.pending, before, old(meter.pending));
      MeasureStep(old(meter.pending), c, n, measured, before, m, meter.pending);
      if m.Err? {
        r := Err(m.fault);
        AverageRunStops(Measure(n), old(meter.pending), c + 1, |freqs|, n);
        return;
      }
      FrequencySnoc(freqs, c, n);
      Regroup(old(meter.written), FrequencyTrace(freqs[..c], n), FrequencyBlock(freqs[c], n));
      waits := waits + [wait];
      measured := measured + [m.value];
      c := c + 1;
    }
    assert freqs[..c] == freqs;
    r := Ok(measured);
  }
}
