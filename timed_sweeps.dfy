/** `Experiment_b2` and `Experiment_b3`: the pair (Z, THR) at one fixed frequency, with
    the controller started on a set value, one row per pass of a `while True` loop, and
    the controller set back to 18.0 degrees and stopped when the loop ends.
    `Experiment_b2` ends the loop on the clock, `Experiment_b3` on the temperature. Both
    mark an unavailable reading with nan. */
module TimedSweeps {
  import opened Common
  import opened SerialLine
  import opened Statistics
  import opened Meter
  import opened FrameCodec
  import opened Controller
  import opened Frames
  import opened Sequencing
  import opened TemperatureReads
  import opened FrequencySweeps
  import opened ReadingSweeps
  import opened TimedRows

  /** The keys of the row dicts of both sweeps. */
  function FixedNames(): (names: seq<string>)
    ensures names == [TIME, "PV", "SV", "Z Avg.", "Z Std.", "THR Avg.", "THR Std."]
    ensures Distinct(names)
  {
    assert EFF_MAIN + AVG == "Z Avg." && EFF_MAIN + STD == "Z Std.";
    assert EFF_MINOR + AVG == "THR Avg." && EFF_MINOR + STD == "THR Std.";
    assert TIME[0] != PV[0] && TIME[0] != SV[0] && PV[0] != SV[0];
    assert TIME[0] != "Z Avg."[0] && TIME[1] != "THR Avg."[1] && "Z Avg."[0] != "THR Avg."[0];
    assert "Z Avg."[2] != "Z Std."[2] && "THR Avg."[4] != "THR Std."[4];
    StatNamesAreNotReadings(EFF_MAIN);
    StatNamesAreNotReadings(EFF_MINOR);
    RecordNames(PV, SV, EFF_MAIN, EFF_MINOR)
  }

  /** Everything both sweeps write to the meter before their loop: `FREQ`, `VOLT`, the
      optional `BIAS:VOLT`, `FUNC:IMP:A Z` and `FUNC:IMP:B THR`. */
  function FixedTrace(freq: int, volt: string, bias: Option<string>): seq<string>
  {
    [CommandLine(FreqCommand(freq))] + SetupTrace(volt, bias)
    + [CommandLine(MainCommand(EFF_MAIN)), CommandLine(MinorCommand(EFF_MINOR))]
  }

  method FixedSetUp(meter: SerialPort, freq: int, volt: string, bias: Option<string>) returns (acked: bool)
    modifies meter
    ensures acked ==> meter.written == old(meter.written) + FixedTrace(freq, volt, bias)
    ensures AckedRun(old(meter.pending), |FixedTrace(freq, volt, bias)|, acked, meter.pending)
    ensures Remains(meter.pending, old(meter.pending))
  {
    ghost var lines := meter.pending;
    ghost var m := |SetupTrace(volt, bias)| + 2;
    assert |FixedTrace(freq, volt, bias)| == m + 1;
    acked := Command(meter, FreqCommand(freq));
    if acked {
      ghost var mid := meter.pending;
      acked := PairSetUp(meter, volt, bias, EFF_MAIN, EFF_MINOR);
      assert Remains(meter.pending, lines) by {
        RemainsTrans(meter.pending, mid, lines);
      }
      assert AckedRun(lines, m + 1, acked, meter.pending) by {
        AckedRunAfterFirst(lines, m, acked, meter.pending);
      }
      if acked {
        ghost var pair := [CommandLine(MainCommand(EFF_MAIN)), CommandLine(MinorCommand(EFF_MINOR))];
        ghost var freqLine := [CommandLine(FreqCommand(freq))];
        assert meter.written == old(meter.written) + FixedTrace(freq, volt, bias) by {
          Regroup(old(meter.written) + freqLine, SetupTrace(volt, bias), pair);
          Regroup(old(meter.written), freqLine, SetupTrace(volt, bias) + pair);
          Regroup(freqLine, SetupTrace(volt, bias), pair);
        }
      }
    } else {
      AckedRunNoFirst(lines, m);
    }
  }

  /** The readings of the rows, in order. */
  function ReadingsOf(rows: seq<Sampled>): (cells: seq<(Cell, Cell)>)
    ensures |cells| == |rows| && forall t :: 0 <= t < |rows| ==> cells[t] == rows[t].reading
  {
    seq(|rows|, t requires 0 <= t < |rows| => rows[t].reading)
  }

  /** Row `t` was taken at the `t`-th clock reading, which was within `limit`. */
  predicate Timed(rows: seq<Sampled>, clock: nat -> int, limit: int)
  {
    forall t :: 0 <= t < |rows| ==> rows[t].time == clock(t) && clock(t) <= limit
  }

  lemma GrowRows(rows: seq<Sampled>, s: Sampled)
    ensures ReadingsOf(rows + [s]) == ReadingsOf(rows) + [s.reading]
  {
  }

  /** A row taken at the next clock reading, within `limit`, keeps the rows timed. */
  lemma GrowTimed(rows: seq<Sampled>, s: Sampled, clock: nat -> int, limit: int)
    requires Timed(rows, clock, limit) && s.time == clock(|rows|) <= limit
    ensures Timed(rows + [s], clock, limit)
  {
    forall t | 0 <= t < |rows| + 1
      ensures (rows + [s])[t].time == clock(t) <= limit
    {
      if t < |rows| {
        assert (rows + [s])[t] == rows[t];
      }
    }
  }

  /** The meter lines left after `t` rows of `DataAveraging(ser, n)`, each reading `2 * n`
      lines. */
  function AfterRows(lines: seq<string>, n: nat, t: nat): seq<string>
  {
    if t == 0 then lines else Drop(AfterRows(lines, n, t - 1), 2 * n)
  }

  /** Row `t` holds `DataAveraging(ser, n)` of the meter lines the earlier rows left. */
  predicate AveragedRows(rows: seq<Sampled>, lines: seq<string>, n: nat)
  {
    forall t :: 0 <= t < |rows| ==> AverageOf(AfterRows(lines, n, t), n) == Ok(rows[t].stats)
  }

  /** A row averaged from what the earlier rows left extends the run. */
  lemma GrowAveraged(rows: seq<Sampled>, s: Sampled, lines: seq<string>, n: nat, rest: seq<string>)
    requires AveragedRows(rows, lines, n) && rest == AfterRows(lines, n, |rows|)
    requires AverageOf(rest, n) == Ok(s.stats)
    ensures AveragedRows(rows + [s], lines, n)
    ensures Drop(rest, 2 * n) == AfterRows(lines, n, |rows + [s]|)
  {
    assert |rows + [s]| == |rows| + 1;
    assert AfterRows(lines, n, |rows| + 1) == Drop(rest, 2 * n);
    forall t | 0 <= t < |rows| + 1
      ensures AverageOf(AfterRows(lines, n, t), n) == Ok((rows + [s])[t].stats)
    {
      if t < |rows| {
        assert (rows + [s])[t] == rows[t];
      }
    }
  }

  /** One pass of the `Experiment_b2` loop: the row keeps the timing invariant and its
      `n` fetches extend the trace. */
  lemma GrowDuration(rows: seq<Sampled>, s: Sampled, clock: nat -> int, limit: int,
                     start: seq<string>, written: seq<string>, n: nat)
    requires Timed(rows, clock, limit) && s.time == clock(|rows|) <= limit
    requires written == start + FetchTrace(n, |rows|) + Repeat(FETCH_QUERY, n)
    ensures Timed(rows + [s], clock, limit)
    ensures written == start + FetchTrace(n, |rows + [s]|)
  {
    GrowTimed(rows, s, clock, limit);
    Regroup(start, FetchTrace(n, |rows|), Repeat(FETCH_QUERY, n));
    assert FetchTrace(n, |rows| + 1) == FetchTrace(n, |rows|) + Repeat(FETCH_QUERY, n);
  }

  /** One row of the `Experiment_b2` loop at clock reading `now`: a controller reading,
      then `DataAveraging(ser, n)`. The row's reading extends those of `rows`. */
  method DurationRow(meter: SerialPort, controller: SerialPort, n: nat, now: int, ghost read: ReplyReader,
                     ghost asked: seq<string>, ghost lines: seq<string>, ghost rows: seq<Sampled>)
    returns (r: Result<Sampled>)
    requires meter != controller && Interprets(read, NotANumber)
    requires Polled(controller.written, controller.pending, asked, lines, ReadingsOf(rows), read)
    modifies meter, controller
    ensures r.Ok? ==> r.value.time == now
    ensures r.Ok? ==> AverageOf(old(meter.pending), n) == Ok(r.value.stats)
    ensures r.Ok? ==> meter.pending == Drop(old(meter.pending), 2 * n)
    ensures r.Ok? ==> meter.written == old(meter.written) + Repeat(FETCH_QUERY, n)
    ensures r.Ok? ==> |meter.pending| < |old(meter.pending)|
    ensures r.Ok? ==> Polled(controller.written, controller.pending, asked, lines, ReadingsOf(rows + [r.value]), read)
    ensures old(controller.written) <= controller.written
    ensures r.Err? ==> MeterFault(r.fault, n)
    ensures n == 0 ==> r.Err?
    ensures Remains(meter.pending, old(meter.pending))
  {
    var m, reading := ReadThenAverage(meter, controller, n, NotANumber, read, asked, lines, ReadingsOf(rows));
    if m.Err? {
      return Err(m.fault);
    }
    var s := Sampled(now, reading, m.value);
    GrowRows(rows, s);
    r := Ok(s);
  }

  /** The `while True` loop of `Experiment_b2`: stop at the first clock reading past
      `limit` (`exptime` in tenths of a second), otherwise read, average and keep the row. */
  method DurationLoop(meter: SerialPort, controller: SerialPort, n: nat, clock: nat -> int, limit: int,
                      ghost read: ReplyReader, ghost asked: seq<string>, ghost lines: seq<string>)
    returns (r: Result<seq<Sampled>>)
    requires meter != controller && Interprets(read, NotANumber)
    requires Polled(controller.written, controller.pending, asked, lines, [], read)
    modifies meter, controller
    ensures r.Ok? ==> Timed(r.value, clock, limit) && clock(|r.value|) > limit
    ensures r.Ok? ==> meter.written == old(meter.written) + FetchTrace(n, |r.value|)
    ensures r.Ok? ==> Polled(controller.written, controller.pending, asked, lines, ReadingsOf(r.value), read)
    ensures r.Ok? ==> AveragedRows(r.value, old(meter.pending), n)
    ensures old(controller.written) <= controller.written
    ensures r.Err? ==> MeterFault(r.fault, n)
    ensures n == 0 && clock(0) <= limit ==> r.Err?
    ensures Remains(meter.pending, old(meter.pending))
  {
    var rows: seq<Sampled> := [];
    assert ReadingsOf(rows) == [];
    while clock(|rows|) <= limit
      decreases |meter.pending|
      invariant meter.written == old(meter.written) + FetchTrace(n, |rows|)
      invariant Polled(controller.written, controller.pending, asked, lines, ReadingsOf(rows), read)
      invariant Timed(rows, clock, limit)
      invariant AveragedRows(rows, old(meter.pending), n) && meter.pending == AfterRows(old(meter.pending), n, |rows|)
      invariant n == 0 ==> |rows| == 0
      invariant old(controller.written) <= controller.written
      invariant Remains(meter.pending, old(meter.pending))
    {
      var now := clock(|rows|);
      ghost var before := meter.pending;
      var row := DurationRow(meter, controller, n, now, read, asked, lines, rows);
      RemainsTrans(meter.pending, before, old(meter.pending));
      if row.Err? {
        return Err(row.fault);
      }
      var s := row.value;
      GrowDuration(rows, s, clock, limit, old(meter.written), meter.written, n);
      GrowAveraged(rows, s, old(meter.pending), n, before);
      rows := rows + [s];
    }
    r := Ok(rows);
  }

  /** `Experiment_b2` after the set-up: the loop, then the controller set to `fallback` and
      stopped. */
  method DurationRun(meter: SerialPort, controller: SerialPort, n: nat, clock: nat -> int, limit: int,
                     fallback: Word, ghost read: ReplyReader)
    returns (r: Result<seq<Sampled>>)
    requires meter != controller && Interprets(read, NotANumber)
    modifies meter, controller
    ensures r.Ok? ==> Timed(r.value, clock, limit) && clock(|r.value|) > limit
    ensures r.Ok? ==> meter.written == old(meter.written) + FetchTrace(n, |r.value|)
    ensures r.Ok? ==> Ended(controller.written, controller.pending, old(controller.written), old(controller.pending),
                            ReadingsOf(r.value), fallback, read)
    ensures r.Ok? ==> AveragedRows(r.value, old(meter.pending), n)
    ensures old(controller.written) <= controller.written
    ensures r.Err? ==> MeterFault(r.fault, n)
    ensures n == 0 && clock(0) <= limit ==> r.Err?
    ensures Remains(meter.pending, old(meter.pending))
  {
    ghost var asked, lines := controller.written, controller.pending;
    assert Polled(asked, lines, asked, lines, [], read);
    r := DurationLoop(meter, controller, n, clock, limit, read, asked, lines);
    if r.Ok? {
      EndRun(controller, fallback, asked, lines, ReadingsOf(r.value), read);
    }
  }

  /** `Experiment_b2(ser, freq_fixed, voltage, biasVoltage, numMeasurements, ser2, set_temp,
      exptime)`: the controller started on `setpoint` (`set_temp*10`), the meter set up,
      one row per pass until the clock passes `limit` (`exptime` in tenths of a second),
      then the controller set back to 18.0 degrees and stopped. */
  method DurationSweep(meter: SerialPort, controller: SerialPort, freq: int, volt: string, bias: Option<string>,
                       n: nat, setpoint: Word, clock: nat -> int, limit: int, ghost read: ReplyReader)
    returns (r: Result<Frame>, rows: seq<Sampled>)
    requires meter != controller && Interprets(read, NotANumber)
    modifies meter, controller
    ensures old(controller.written) + StartFrames(setpoint) <= controller.written
    ensures r.Ok? ==> Timed(rows, clock, limit) && clock(|rows|) > limit
    ensures r.Ok? ==> meter.written == old(meter.written) + FixedTrace(freq, volt, bias) + FetchTrace(n, |rows|)
    ensures r.Ok? ==> Ended(controller.written, controller.pending, old(controller.written) + StartFrames(setpoint),
                            Drop(old(controller.pending), 2), ReadingsOf(rows), FALLBACK, read)
    ensures r.Ok? ==> r.value == TimedFrame(FixedNames(), rows)
    ensures r.Ok? ==> Acks(old(meter.pending), |FixedTrace(freq, volt, bias)|).Some? && AveragedRows(rows, Acks(old(meter.pending), |FixedTrace(freq, volt, bias)|).value, n)
    ensures r.Err? ==> MeterFault(r.fault, n)
    ensures n == 0 && clock(0) <= limit ==> r.Err?
    ensures Remains(meter.pending, old(meter.pending))
  {
    rows := [];
    StartRun(controller, setpoint);
    var acked := FixedSetUp(meter, freq, volt, bias);
    if !acked {
      r := Err(NoAcknowledgement);
      return;
    }
    ghost var mid := meter.pending;
    var m := DurationRun(meter, controller, n, clock, limit, FALLBACK, read);
    RemainsTrans(meter.pending, mid, old(meter.pending));
    if m.Err? {
      r := Err(m.fault);
      return;
    }
    rows := m.value;
    r := Ok(TimedFrame(FixedNames(), rows));
  }

  /** No row of `Experiment_b3` shows the target reached, and row `t` was taken at the
      `t`-th clock reading. */
  predicate Short(rows: seq<Sampled>, clock: nat -> int, heating: bool, until: int)
  {
    forall t :: 0 <= t < |rows| ==> rows[t].time == clock(t) && !PvReached(rows[t].reading.0, heating, until)
  }

  /** One pass of `Experiment_b3`'s loop: read the controller; `Ok(None)` when the PV has
      reached `until` (no row is measured), `Ok(Some(stats))` with the averaged row otherwise. */
  method UntilStep(meter: SerialPort, controller: SerialPort, n: nat, heating: bool, until: int,
                   ghost read: ReplyReader, ghost asked: seq<string>, ghost lines: seq<string>,
                   ghost taken: seq<(Cell, Cell)>)
    returns (r: Result<Option<Stats>>, reading: (Cell, Cell))
    requires meter != controller && Interprets(read, NotANumber)
    requires Polled(controller.written, controller.pending, asked, lines, taken, read)
    modifies meter, controller
    ensures r.Ok? ==> Polled(controller.written, controller.pending, asked, lines, taken + [reading], read)
    ensures r.Ok? ==> (r.value.None? <==> PvReached(reading.0, heating, until))
    ensures r.Ok? && r.value.None? ==> meter.written == old(meter.written) && meter.pending == old(meter.pending)
    ensures r.Ok? && r.value.Some? ==> meter.written == old(meter.written) + Repeat(FETCH_QUERY, n)
    ensures r.Ok? && r.value.Some? ==> |meter.pending| < |old(meter.pending)|
    ensures r.Ok? && r.value.Some? ==> AverageOf(old(meter.pending), n) == Ok(r.value.value)
    ensures r.Ok? && r.value.Some? ==> meter.pending == Drop(old(meter.pending), 2 * n)
    ensures r.Err? ==> MeterFault(r.fault, n)
    ensures n == 0 && r.Ok? ==> r.value.None?
    ensures old(controller.written) <= controller.written
    ensures Remains(meter.pending, old(meter.pending))
  {
    reading := (NotANumber, NotANumber);
    var got := ReadNext(controller, NotANumber, read, asked, lines, taken);
    if got.Err? {
      return Err(got.fault), reading;
    }
    reading := got.value;
    if PvReached(reading.0, heating, until) {
      return Ok(None), reading;
    }
    var m := AverageRow(meter, n);
    r := if m.Err? then Err(m.fault) else Ok(Some(m.value));
  }

  /** One measured pass of the `Experiment_b3` loop: the row's reading extends those taken
      and its `n` fetches extend the trace. */
  lemma GrowUntil(rows: seq<Sampled>, s: Sampled, clock: nat -> int, heating: bool, until: int,
                  taken: seq<(Cell, Cell)>, start: seq<string>, written: seq<string>, n: nat)
    requires Short(rows, clock, heating, until)
    requires s.time == clock(|rows|) && !PvReached(s.reading.0, heating, until)
    requires written == start + FetchTrace(n, |rows|) + Repeat(FETCH_QUERY, n)
    ensures Short(rows + [s], clock, heating, until)
    ensures taken + ReadingsOf(rows + [s]) == taken + ReadingsOf(rows) + [s.reading]
    ensures written == start + FetchTrace(n, |rows + [s]|)
  {
    forall t | 0 <= t < |rows| + 1
      ensures (rows + [s])[t].time == clock(t) && !PvReached((rows + [s])[t].reading.0, heating, until)
    {
      if t < |rows| {
        assert (rows + [s])[t] == rows[t];
      }
    }
    GrowRows(rows, s);
    Regroup(taken, ReadingsOf(rows), [s.reading]);
    Regroup(start, FetchTrace(n, |rows|), Repeat(FETCH_QUERY, n));
    assert FetchTrace(n, |rows| + 1) == FetchTrace(n, |rows|) + Repeat(FETCH_QUERY, n);
  }

  /** The `while True` loop of `Experiment_b3`: read, stop once the PV has reached `until`
      in the direction of travel, otherwise average and keep the row. The stopping
      reading is taken but not kept. */
  method UntilLoop(meter: SerialPort, controller: SerialPort, n: nat, clock: nat -> int, heating: bool,
                   until: int, ghost read: ReplyReader, ghost asked: seq<string>, ghost lines: seq<string>,
                   ghost taken: seq<(Cell, Cell)>)
    returns (r: Result<seq<Sampled>>, ghost last: (Cell, Cell))
    requires meter != controller && Interprets(read, NotANumber)
    requires Polled(controller.written, controller.pending, asked, lines, taken, read)
    modifies meter, controller
    ensures r.Ok? ==> Short(r.value, clock, heating, until) && PvReached(last.0, heating, until)
    ensures r.Ok? ==> meter.written == old(meter.written) + FetchTrace(n, |r.value|)
    ensures r.Ok? ==> Polled(controller.written, controller.pending, asked, lines,
                             taken + ReadingsOf(r.value) + [last], read)
    ensures r.Ok? ==> AveragedRows(r.value, old(meter.pending), n)
    ensures old(controller.written) <= controller.written
    ensures r.Err? ==> MeterFault(r.fault, n)
    ensures n == 0 && r.Ok? ==> |r.value| == 0
    ensures Remains(meter.pending, old(meter.pending))
  {
    var rows: seq<Sampled> := [];
    var failed: Option<Fault> := None;
    var done := false;
    last := (NotANumber, NotANumber);
    assert taken + ReadingsOf(rows) == taken;
    while !done && failed.None?
      decreases |meter.pending|, if done || failed.Some? then 0 else 1
      invariant failed.None? ==> meter.written == old(meter.written) + FetchTrace(n, |rows|)
      invariant failed.None? && !done ==>
                  Polled(controller.written, controller.pending, asked, lines, taken + ReadingsOf(rows), read)
      invariant failed.None? && done ==>
                  Polled(controller.written, controller.pending, asked, lines, taken + ReadingsOf(rows) + [last], read)
      invariant Short(rows, clock, heating, until)
      invariant failed.None? ==> AveragedRows(rows, old(meter.pending), n)
                                 && meter.pending == AfterRows(old(meter.pending), n, |rows|)
      invariant done ==> PvReached(last.0, heating, until)
      invariant failed.Some? ==> MeterFault(failed.value, n)
      invariant n == 0 ==> |rows| == 0
      invariant old(controller.written) <= controller.written
      invariant Remains(meter.pending, old(meter.pending))
    {
      ghost var before := meter.pending;
      var got, reading := UntilStep(meter, controller, n, heating, until, read, asked, lines,
                                    taken + ReadingsOf(rows));
      if got.Err? {
        failed := Some(got.fault);
      } else if got.value.None? {
        last := reading;
        done := true;
      } else {
        var s := Sampled(clock(|rows|), reading, got.value.value);
        GrowUntil(rows, s, clock, heating, until, taken, old(meter.written), meter.written, n);
        GrowAveraged(rows, s, old(meter.pending), n, before);
        rows := rows + [s];
      }
    }
    r := if failed.Some? then Err(failed.value) else Ok(rows);
  }

  /** The failures of `Experiment_b3`: those of the meter and of the readings, and
      TypeError when the first reading, indexed for its PV, is not a reading. */
  predicate UntilFault(f: Fault, n: nat)
  {
    MeterFault(f, n) || f == TypeError
  }

  /** What `Experiment_b3` promises of a run that ended normally: the first reading held a
      PV and fixed the direction of travel, no row shows the target reached, and the last
      reading, which ends the loop, does. */
  predicate UntilRan(rows: seq<Sampled>, first: (Cell, Cell), heating: bool, last: (Cell, Cell),
                     clock: nat -> int, until: int)
  {
    first.0.Tenths? && heating == (until > first.0.t)
    && Short(rows, clock, heating, until) && PvReached(last.0, heating, until)
  }

  /** `Experiment_b3` after the set-up: the first reading decides the direction of travel
      (`is_heating`), TypeError when its PV is not a reading, then the loop, then the
      controller set to `fallback` and stopped. */
  method UntilRun(meter: SerialPort, controller: SerialPort, n: nat, clock: nat -> int, until: int,
                  fallback: Word, ghost read: ReplyReader)
    returns (r: Result<seq<Sampled>>, ghost first: (Cell, Cell), ghost heating: bool, ghost last: (Cell, Cell))
    requires meter != controller && Interprets(read, NotANumber)
    modifies meter, controller
    ensures r.Ok? ==> UntilRan(r.value, first, heating, last, clock, until)
    ensures r.Ok? ==> meter.written == old(meter.written) + FetchTrace(n, |r.value|)
    ensures r.Ok? ==> Ended(controller.written, controller.pending, old(controller.written), old(controller.pending),
                            [first] + ReadingsOf(r.value) + [last], fallback, read)
    ensures r.Ok? ==> AveragedRows(r.value, old(meter.pending), n)
    ensures old(controller.written) <= controller.written
    ensures r.Err? ==> UntilFault(r.fault, n)
    ensures n == 0 && r.Ok? ==> |r.value| == 0
    ensures Remains(meter.pending, old(meter.pending))
  {
    first, heating, last := (NotANumber, NotANumber), false, (NotANumber, NotANumber);
    ghost var asked, lines := controller.written, controller.pending;
    assert Polled(asked, lines, asked, lines, [], read);
    var initial := ReadNext(controller, NotANumber, read, asked, lines, []);
    if initial.Err? {
      return Err(initial.fault), first, heating, last;
    }
    if !initial.value.0.Tenths? {
      return Err(TypeError), first, heating, last;
    }
    first := initial.value;
    var heats := until > initial.value.0.t;
    heating := heats;
    assert [] + [first] == [first];
    r, last := UntilLoop(meter, controller, n, clock, heats, until, read, asked, lines, [first]);
    if r.Ok? {
      EndRun(controller, fallback, asked, lines, [first] + ReadingsOf(r.value) + [last], read);
    }
  }

  /** `Experiment_b3(ser, freq_fixed, voltage, biasVoltage, numMeasurements, ser2, set_temp,
      until_temp)`: the controller started on `setpoint`, the meter set up, a first
      reading that decides whether the run heats (`until` above its PV) or cools, one row
      per pass until a reading has reached `until` (tenths of a degree), then the
      controller set back to 18.0 degrees and stopped. */
  method UntilSweep(meter: SerialPort, controller: SerialPort, freq: int, volt: string, bias: Option<string>,
                    n: nat, setpoint: Word, clock: nat -> int, until: int, ghost read: ReplyReader)
    returns (r: Result<Frame>, rows: seq<Sampled>, ghost first: (Cell, Cell), ghost heating: bool,
             ghost last: (Cell, Cell))
    requires meter != controller && Interprets(read, NotANumber)
    modifies meter, controller
    ensures old(controller.written) + StartFrames(setpoint) <= controller.written
    ensures r.Ok? ==> UntilRan(rows, first, heating, last, clock, until)
    ensures r.Ok? ==> meter.written == old(meter.written) + FixedTrace(freq, volt, bias) + FetchTrace(n, |rows|)
    ensures r.Ok? ==> Ended(controller.written, controller.pending, old(controller.written) + StartFrames(setpoint),
                            Drop(old(controller.pending), 2), [first] + ReadingsOf(rows) + [last], FALLBACK, read)
    ensures r.Ok? ==> r.value == TimedFrame(FixedNames(), rows)
    ensures r.Ok? ==> Acks(old(meter.pending), |FixedTrace(freq, volt, bias)|).Some? && AveragedRows(rows, Acks(old(meter.pending), |FixedTrace(freq, volt, bias)|).value, n)
    ensures r.Err? ==> UntilFault(r.fault, n)
    ensures n == 0 && r.Ok? ==> |rows| == 0
    ensures Remains(meter.pending, old(meter.pending))
  {
    rows := [];
    first, heating, last := (NotANumber, NotANumber), false, (NotANumber, NotANumber);
    StartRun(controller, setpoint);
    var acked := FixedSetUp(meter, freq, volt, bias);
    if !acked {
      r := Err(NoAcknowledgement);
      return;
    }
    ghost var mid := meter.pending;
    var m;
    m, first, heating, last := UntilRun(meter, controller, n, clock, until, FALLBACK, read);
    RemainsTrans(meter.pending, mid, old(meter.pending));
    if m.Err? {
      r := Err(m.fault);
      return;
    }
    rows := m.value;
    r := Ok(TimedFrame(FixedNames(), rows));
  }
}
