/** `Experiment2`: one fixed frequency, the controller started on a set value, and a
    `while True` loop that, until the clock passes the experiment time, runs through every
    main and minor parameter pair, reading the controller and averaging the meter for each,
    and keeps one row per pass: the one built after the last main parameter, from its last
    pair. Unavailable readings are marked with None. The set value the controller is sent
    back to at the end differs between copies of the source (20.0 or 18.0 degrees), so it
    is a parameter. */
module CycleSweeps {
  import opened Common
  import opened SerialLine
  import opened Statistics
  import opened Meter
  import opened FrameCodec
  import opened Controller
  import opened Frames
  import opened Sequencing
  import opened TemperatureReads
  import opened FrequencySweeps
  import opened ReadingSweeps
  import opened TimedRows
  import opened TimedSweeps

  const PV_DEGC := "PV (degC)"
  const SV_DEGC := "SV (degC)"

  /** The meter lines of the inner loop for one main parameter in one pass:
      `FUNC:IMP:B i`, then the `n` fetches of `DataAveraging`, for each minor parameter. */
  function CycleMinorsTrace(minors: seq<string>, n: nat): seq<string>
  {
    if |minors| == 0 then []
    else CycleMinorsTrace(minors[..|minors| - 1], n) + [CommandLine(MinorCommand(minors[|minors| - 1]))]
         + Repeat(FETCH_QUERY, n)
  }

  /** The meter lines of one pass: `FUNC:IMP:A k`, then the inner loop, for each main
      parameter. */
  function CycleTrace(mains: seq<string>, minors: seq<string>, n: nat): seq<string>
  {
    if |mains| == 0 then []
    else CycleTrace(mains[..|mains| - 1], minors, n) + [CommandLine(MainCommand(mains[|mains| - 1]))]
         + CycleMinorsTrace(minors, n)
  }

  /** The meter lines before the loop: `FREQ`, `VOLT` and the optional `BIAS:VOLT`. */
  function CycleSetupTrace(freq: int, volt: string, bias: Option<string>): seq<string>
  {
    [CommandLine(FreqCommand(freq))] + SetupTrace(volt, bias)
  }

  /** Everything `Experiment2` writes to the meter in `passes` passes. */
  function CycleSweepTrace(freq: int, volt: string, bias: Option<string>, mains: seq<string>, minors: seq<string>,
                           n: nat, passes: nat): seq<string>
  {
    CycleSetupTrace(freq, volt, bias) + RepeatSeq(CycleTrace(mains, minors, n), passes)
  }

  /** Each minor parameter adds its `FUNC:IMP:B` line, which is neither kind, and `n`
      fetches. */
  lemma {:induction false} CycleMinorsCount(minors: seq<string>, n: nat)
    ensures CountWhere(CycleMinorsTrace(minors, n), FREQ_PREFIX) == 0
    ensures CountWhere(CycleMinorsTrace(minors, n), FETCH_PREFIX) == |minors| * n
  {
    if |minors| > 0 {
      var front := minors[..|minors| - 1];
      var line := [CommandLine(MinorCommand(minors[|minors| - 1]))];
      var head := CycleMinorsTrace(front, n);
      CycleMinorsCount(front, n);
      MinorLineKind(minors[|minors| - 1], FREQ_PREFIX);
      MinorLineKind(minors[|minors| - 1], FETCH_PREFIX);
      FetchLineKind();
      CountRepeat(FETCH_QUERY, n, FREQ_PREFIX);
      CountRepeat(FETCH_QUERY, n, FETCH_PREFIX);
      CountAppend(head, line, FREQ_PREFIX);
      CountAppend(head, line, FETCH_PREFIX);
      CountAppend(head + line, Repeat(FETCH_QUERY, n), FREQ_PREFIX);
      CountAppend(head + line, Repeat(FETCH_QUERY, n), FETCH_PREFIX);
      OneMore(|front|, n);
    }
  }

  /** Each main parameter adds its `FUNC:IMP:A` line, which is neither kind, and one inner
      loop. */
  lemma {:induction false} CycleCount(mains: seq<string>, minors: seq<string>, n: nat)
    ensures CountWhere(CycleTrace(mains, minors, n), FREQ_PREFIX) == 0
    ensures CountWhere(CycleTrace(mains, minors, n), FETCH_PREFIX) == |mains| * (|minors| * n)
  {
    if |mains| > 0 {
      var front := mains[..|mains| - 1];
      var line := [CommandLine(MainCommand(mains[|mains| - 1]))];
      var head := CycleTrace(front, minors, n);
      CycleCount(front, minors, n);
      CycleMinorsCount(minors, n);
      MainLineKind(mains[|mains| - 1], FREQ_PREFIX);
      MainLineKind(mains[|mains| - 1], FETCH_PREFIX);
      CountAppend(head, line, FREQ_PREFIX);
      CountAppend(head, line, FETCH_PREFIX);
      CountAppend(head + line, CycleMinorsTrace(minors, n), FREQ_PREFIX);
      CountAppend(head + line, CycleMinorsTrace(minors, n), FETCH_PREFIX);
      OneMore(|front|, |minors| * n);
    }
  }

  /** Each pass adds one pass's lines. */
  lemma {:induction false} PassesCount(block: seq<string>, passes: nat, prefix: string, per: nat)
    requires CountWhere(block, prefix) == per
    ensures CountWhere(RepeatSeq(block, passes), prefix) == passes * per
  {
    if passes > 0 {
      PassesCount(block, passes - 1, prefix, per);
      CountAppend(RepeatSeq(block, passes - 1), block, prefix);
      OneMore(passes - 1, per);
    }
  }

  /** The frequency is set once, before the loop, and never changed; every pass fetches
      `n` samples for each pair. */
  lemma CycleSweepCounts(freq: int, volt: string, bias: Option<string>, mains: seq<string>, minors: seq<string>,
                         n: nat, passes: nat)
    ensures CountWhere(CycleSweepTrace(freq, volt, bias, mains, minors, n, passes), FREQ_PREFIX) == 1
    ensures CountWhere(CycleSweepTrace(freq, volt, bias, mains, minors, n, passes), FETCH_PREFIX)
            == passes * (|mains| * (|minors| * n))
  {
    var line := [CommandLine(FreqCommand(freq))];
    var passesTrace := RepeatSeq(CycleTrace(mains, minors, n), passes);
    CycleCount(mains, minors, n);
    PassesCount(CycleTrace(mains, minors, n), passes, FREQ_PREFIX, 0);
    PassesCount(CycleTrace(mains, minors, n), passes, FETCH_PREFIX, |mains| * (|minors| * n));
    FreqLineKind(freq);
    SetupCounts(volt, bias, FREQ_PREFIX);
    SetupCounts(volt, bias, FETCH_PREFIX);
    CountAppend(line, SetupTrace(volt, bias), FREQ_PREFIX);
    CountAppend(line, SetupTrace(volt, bias), FETCH_PREFIX);
    CountAppend(CycleSetupTrace(freq, volt, bias), passesTrace, FREQ_PREFIX);
    CountAppend(CycleSetupTrace(freq, volt, bias), passesTrace, FETCH_PREFIX);
  }

  /** The keys of the row dict: the last main parameter and its last pair name the four
      averaged columns. */
  function CycleNames(mains: seq<string>, minors: seq<string>): (names: seq<string>)
    requires |mains| > 0 && |minors| > 0
    ensures |names| == 7
  {
    var k := mains[|mains| - 1];
    RecordNames(PV_DEGC, SV_DEGC, k, PairName(k, minors[|minors| - 1]))
  }

  /** Whatever the parameter names, the seven keys of the row dict are distinct, so the
      table has seven columns. */
  lemma CycleNamesDistinct(mains: seq<string>, minors: seq<string>)
    requires |mains| > 0 && |minors| > 0
    ensures Distinct(CycleNames(mains, minors))
  {
    var names := CycleNames(mains, minors);
    var k := mains[|mains| - 1];
    var p := PairName(k, minors[|minors| - 1]);
    assert TIME[0] != PV_DEGC[0] && TIME[0] != SV_DEGC[0] && PV_DEGC[0] != SV_DEGC[0];
    forall c | 3 <= c < 7
      ensures names[c][|names[c]| - 1] == '.'
    {
    }
    forall c | 0 <= c < 3
      ensures names[c][|names[c]| - 1] == ')'
    {
    }
    assert (k + AVG)[|k| + 1] == 'A' && (k + STD)[|k| + 1] == 'S';
    assert (p + AVG)[|p| + 1] == 'A' && (p + STD)[|p| + 1] == 'S';
    assert |p| > |k|;
  }

  /** The failures of `Experiment2`: those of the meter and of the readings, and the
      UnboundLocalError of building a row when there is no main or no minor parameter. */
  predicate CycleFault(f: Fault, n: nat)
  {
    MeterFault(f, n) || f == UnboundLocal
  }

  /** `LCRCommander(ser, 'FUNC:IMP:B i')`, then `PIDDataReadout(ser2)` and
      `DataAveraging(ser, n)`. */
  method MinorStep(meter: SerialPort, controller: SerialPort, i: string, n: nat, ghost read: ReplyReader,
                   ghost asked: seq<string>, ghost lines: seq<string>, ghost taken: seq<(Cell, Cell)>)
    returns (r: Result<Stats>, reading: (Cell, Cell))
    requires meter != controller && Interprets(read, Missing)
    requires Polled(controller.written, controller.pending, asked, lines, taken, read)
    modifies meter, controller
    ensures r.Ok? ==> AckedAveraged(old(meter.pending), n, r.value, meter.pending)
    ensures AckIndex(old(meter.pending)).None? ==> r == Err(NoAcknowledgement)
    ensures r.Ok? ==> meter.written == old(meter.written) + [CommandLine(MinorCommand(i))] + Repeat(FETCH_QUERY, n)
    ensures r.Ok? ==> |meter.pending| < |old(meter.pending)|
    ensures r.Ok? ==> Polled(controller.written, controller.pending, asked, lines, taken + [reading], read)
    ensures old(controller.written) <= controller.written
    ensures r.Err? ==> MeterFault(r.fault, n)
    ensures n == 0 ==> r.Err?
    ensures Remains(meter.pending, old(meter.pending))
  {
    reading := (Missing, Missing);
    var acked := Command(meter, MinorCommand(i));
    if !acked {
      return Err(NoAcknowledgement), reading;
    }
    ghost var mid := meter.pending;
    r, reading := ReadThenAverage(meter, controller, n, Missing, read, asked, lines, taken);
    RemainsTrans(meter.pending, mid, old(meter.pending));
  }

  /** The inner loop for one main parameter: a reading and an average per minor
      parameter. The row built after it takes the last of them; with no minor parameter
      they are unbound. */
  method CycleMinors(meter: SerialPort, controller: SerialPort, minors: seq<string>, n: nat,
                     ghost read: ReplyReader, ghost asked: seq<string>, ghost lines: seq<string>,
                     ghost taken: seq<(Cell, Cell)>)
    returns (r: Result<((Cell, Cell), Stats)>, ghost cells: seq<(Cell, Cell)>)
    requires meter != controller && Interprets(read, Missing)
    requires Polled(controller.written, controller.pending, asked, lines, taken, read)
    modifies meter, controller
    ensures r.Ok? ==> |cells| == |minors| > 0 && r.value.0 == cells[|cells| - 1]
    ensures r.Ok? ==> meter.written == old(meter.written) + CycleMinorsTrace(minors, n)
    ensures r.Ok? ==> |meter.pending| < |old(meter.pending)|
    ensures r.Ok? ==> Polled(controller.written, controller.pending, asked, lines, taken + cells, read)
    ensures old(controller.written) <= controller.written
    ensures r.Err? ==> CycleFault(r.fault, n)
    ensures |minors| == 0 || n == 0 ==> r.Err?
    ensures Remains(meter.pending, old(meter.pending))
  {
    cells := [];
    if |minors| == 0 {
      return Err(UnboundLocal), cells;
    }
    var last := ((Missing, Missing), Stats(0.0, 0.0, 0.0, 0.0));
    assert taken + cells == taken;
    for c := 0 to |minors|
      invariant |cells| == c && (c > 0 ==> last.0 == cells[c - 1]) && (n == 0 ==> c == 0)
      invariant meter.written == old(meter.written) + CycleMinorsTrace(minors[..c], n)
      invariant c > 0 ==> |meter.pending| < |old(meter.pending)|
      invariant Polled(controller.written, controller.pending, asked, lines, taken + cells, read)
      invariant old(controller.written) <= controller.written
      invariant Remains(meter.pending, old(meter.pending))
    {
      ghost var before := meter.pending;
      var m, reading := MinorStep(meter, controller, minors[c], n, read, asked, lines, taken + cells);
      RemainsTrans(meter.pending, before, old(meter.pending));
      if m.Err? {
        return Err(m.fault), cells;
      }
      assert meter.written == old(meter.written) + CycleMinorsTrace(minors[..c + 1], n) by {
        ghost var block := [CommandLine(MinorCommand(minors[c]))];
        assert minors[..c + 1][..c] == minors[..c];
        assert CycleMinorsTrace(minors[..c + 1], n) == CycleMinorsTrace(minors[..c], n) + block + Repeat(FETCH_QUERY, n);
        Regroup(old(meter.written), CycleMinorsTrace(minors[..c], n), block);
        Regroup(old(meter.written), CycleMinorsTrace(minors[..c], n) + block, Repeat(FETCH_QUERY, n));
      }
      Regroup(taken, cells, [reading]);
      cells := cells + [reading];
      last := (reading, m.value);
    }
    assert minors[..|minors|] == minors;
    r := Ok(last);
  }

  /** Main parameter `a` of a pass: `LCRCommander(ser, 'FUNC:IMP:A k')`, then the inner
      loop, extending what the pass has sent and read so far. */
  /** A pass that has gone through the first `a` main parameters: the meter lines of those
      parameters follow `sent`, and their pairs took the readings `cells` after `taken`. */
  ghost predicate Through(written: seq<string>, sent: seq<string>, mains: seq<string>, minors: seq<string>,
                          n: nat, a: nat, cells: seq<(Cell, Cell)>)
  {
    a <= |mains| && |cells| == |Pairs(mains[..a], minors)| && written == sent + CycleTrace(mains[..a], minors, n)
  }

  /** One more main parameter, with its command and its inner loop, extends the pass. */
  lemma ThroughNext(written: seq<string>, sent: seq<string>, mains: seq<string>, minors: seq<string>, n: nat,
                    a: nat, cells: seq<(Cell, Cell)>, more: seq<(Cell, Cell)>, written': seq<string>)
    requires a < |mains| && Through(written, sent, mains, minors, n, a, cells) && |more| == |minors|
    requires written' == written + [CommandLine(MainCommand(mains[a]))] + CycleMinorsTrace(minors, n)
    ensures Through(written', sent, mains, minors, n, a + 1, cells + more)
  {
    assert mains[..a + 1][..a] == mains[..a];
    Regroup(sent, CycleTrace(mains[..a], minors, n), [CommandLine(MainCommand(mains[a]))]);
    assert Pairs(mains[..a + 1], minors) == Pairs(mains[..a], minors) + Row(mains[a], minors);
  }

  method MainStep(meter: SerialPort, controller: SerialPort, mains: seq<string>, a: nat, minors: seq<string>,
                  n: nat, ghost read: ReplyReader, ghost sent: seq<string>, ghost asked: seq<string>,
                  ghost lines: seq<string>, ghost taken: seq<(Cell, Cell)>, ghost cells: seq<(Cell, Cell)>)
    returns (r: Result<((Cell, Cell), Stats)>, ghost cells': seq<(Cell, Cell)>)
    requires a < |mains| && meter != controller && Interprets(read, Missing)
    requires Through(meter.written, sent, mains, minors, n, a, cells)
    requires Polled(controller.written, controller.pending, asked, lines, taken + cells, read)
    modifies meter, controller
    ensures r.Ok? ==> Through(meter.written, sent, mains, minors, n, a + 1, cells')
    ensures r.Ok? ==> |minors| > 0 && n > 0 && |cells'| > 0 && r.value.0 == cells'[|cells'| - 1]
    ensures r.Ok? ==> |meter.pending| < |old(meter.pending)|
    ensures r.Ok? ==> Polled(controller.written, controller.pending, asked, lines, taken + cells', read)
    ensures old(controller.written) <= controller.written
    ensures r.Err? ==> CycleFault(r.fault, n)
    ensures Remains(meter.pending, old(meter.pending))
  {
    cells' := cells;
    var acked := Command(meter, MainCommand(mains[a]));
    if !acked {
      return Err(NoAcknowledgement), cells';
    }
    ghost var mid := meter.pending;
    ghost var more;
    r, more := CycleMinors(meter, controller, minors, n, read, asked, lines, taken + cells);
    RemainsTrans(meter.pending, mid, old(meter.pending));
    if r.Ok? {
      ThroughNext(old(meter.written), sent, mains, minors, n, a, cells, more, meter.written);
      Regroup(taken, cells, more);
      cells' := cells + more;
    }
  }

  /** One pass of the loop over the main parameters. The row appended after it is the one
      built for the last main parameter; with no main parameter there is none. */
  method CycleMains(meter: SerialPort, controller: SerialPort, mains: seq<string>, minors: seq<string>, n: nat,
                    ghost read: ReplyReader, ghost asked: seq<string>, ghost lines: seq<string>,
                    ghost taken: seq<(Cell, Cell)>)
    returns (r: Result<((Cell, Cell), Stats)>, ghost cells: seq<(Cell, Cell)>)
    requires meter != controller && Interprets(read, Missing)
    requires Polled(controller.written, controller.pending, asked, lines, taken, read)
    modifies meter, controller
    ensures r.Ok? ==> |cells| == |Pairs(mains, minors)| > 0 && r.value.0 == cells[|cells| - 1]
    ensures r.Ok? ==> meter.written == old(meter.written) + CycleTrace(mains, minors, n)
    ensures r.Ok? ==> |meter.pending| < |old(meter.pending)|
    ensures r.Ok? ==> Polled(controller.written, controller.pending, asked, lines, taken + cells, read)
    ensures old(controller.written) <= controller.written
    ensures r.Err? ==> CycleFault(r.fault, n)
    ensures |mains| == 0 || |minors| == 0 || n == 0 ==> r.Err?
    ensures Remains(meter.pending, old(meter.pending))
  {
    cells := [];
    var row: Option<((Cell, Cell), Stats)> := None;
    assert taken + cells == taken;
    for a := 0 to |mains|
      invariant Through(meter.written, old(meter.written), mains, minors, n, a, cells)
      invariant row.Some? <==> a > 0
      invariant a > 0 ==> |minors| > 0 && n > 0 && |cells| > 0 && row.value.0 == cells[|cells| - 1]
      invariant a > 0 ==> |meter.pending| < |old(meter.pending)|
      invariant Polled(controller.written, controller.pending, asked, lines, taken + cells, read)
      invariant old(controller.written) <= controller.written
      invariant Remains(meter.pending, old(meter.pending))
    {
      ghost var before := meter.pending;
      var m, next := MainStep(meter, controller, mains, a, minors, n, read, old(meter.written), asked, lines,
                              taken, cells);
      RemainsTrans(meter.pending, before, old(meter.pending));
      if m.Err? {
        return Err(m.fault), cells;
      }
      cells := next;
      row := Some(m.value);
    }
    assert mains[..|mains|] == mains;
    if row.None? {
      return Err(UnboundLocal), cells;
    }
    r := Ok(row.value);
  }

  /** Pass `t` took readings `cycles[t]`, one per pair, and its row shows the last. */
  predicate Cycled(rows: seq<Sampled>, cycles: seq<seq<(Cell, Cell)>>, per: nat)
  {
    |cycles| == |rows| && ReadsFit(cycles, per)
    && forall t :: 0 <= t < |rows| ==> per > 0 && rows[t].reading == cycles[t][per - 1]
  }

  /** A pass that took one reading per pair and whose row shows the last extends the
      record of passes. */
  lemma GrowCycles(rows: seq<Sampled>, cycles: seq<seq<(Cell, Cell)>>, per: nat, s: Sampled,
                   more: seq<(Cell, Cell)>)
    requires Cycled(rows, cycles, per)
    requires |more| == per > 0 && s.reading == more[per - 1]
    ensures Cycled(rows + [s], cycles + [more], per)
    ensures Flatten(cycles + [more]) == Flatten(cycles) + more
  {
    assert (cycles + [more])[..|cycles|] == cycles;
  }

  /** A pass of the `while True` loop of `Experiment2` once the clock is within `limit`:
      the loop over the pairs, and its row appended at the current time. */
  method CycleStep(meter: SerialPort, controller: SerialPort, mains: seq<string>, minors: seq<string>, n: nat,
                   clock: nat -> int, limit: int, ghost read: ReplyReader, ghost sent: seq<string>,
                   ghost asked: seq<string>, ghost lines: seq<string>, rows: seq<Sampled>,
                   ghost cycles: seq<seq<(Cell, Cell)>>)
    returns (r: Result<seq<Sampled>>, ghost cycles': seq<seq<(Cell, Cell)>>)
    requires meter != controller && Interprets(read, Missing) && clock(|rows|) <= limit
    requires meter.written == sent + RepeatSeq(CycleTrace(mains, minors, n), |rows|)
    requires Polled(controller.written, controller.pending, asked, lines, Flatten(cycles), read)
    requires Timed(rows, clock, limit) && Cycled(rows, cycles, |Pairs(mains, minors)|)
    modifies meter, controller
    ensures r.Ok? ==> meter.written == sent + RepeatSeq(CycleTrace(mains, minors, n), |r.value|)
    ensures r.Ok? ==> Polled(controller.written, controller.pending, asked, lines, Flatten(cycles'), read)
    ensures r.Ok? ==> Timed(r.value, clock, limit) && Cycled(r.value, cycles', |Pairs(mains, minors)|)
    ensures r.Ok? ==> |meter.pending| < |old(meter.pending)|
    ensures r.Err? ==> CycleFault(r.fault, n)
    ensures |mains| == 0 || |minors| == 0 || n == 0 ==> r.Err?
    ensures old(controller.written) <= controller.written
    ensures Remains(meter.pending, old(meter.pending))
  {
    cycles' := cycles;
    var m, more := CycleMains(meter, controller, mains, minors, n, read, asked, lines, Flatten(cycles));
    if m.Err? {
      return Err(m.fault), cycles';
    }
    var s := Sampled(clock(|rows|), m.value.0, m.value.1);
    ghost var block := CycleTrace(mains, minors, n);
    assert RepeatSeq(block, |rows| + 1) == RepeatSeq(block, |rows|) + block;
    Regroup(sent, RepeatSeq(block, |rows|), block);
    GrowCycles(rows, cycles, |Pairs(mains, minors)|, s, more);
    GrowTimed(rows, s, clock, limit);
    r, cycles' := Ok(rows + [s]), cycles + [more];
  }

  /** The `while True` loop of `Experiment2`: stop at the first clock reading past
      `limit` (`exptime` in tenths of a second), otherwise run a pass and keep its row. */
  method CycleLoop(meter: SerialPort, controller: SerialPort, mains: seq<string>, minors: seq<string>, n: nat,
                   clock: nat -> int, limit: int, ghost read: ReplyReader, ghost asked: seq<string>,
                   ghost lines: seq<string>)
    returns (r: Result<seq<Sampled>>, ghost cycles: seq<seq<(Cell, Cell)>>)
    requires meter != controller && Interprets(read, Missing)
    requires Polled(controller.written, controller.pending, asked, lines, [], read)
    modifies meter, controller
    ensures r.Ok? ==> Timed(r.value, clock, limit) && clock(|r.value|) > limit
    ensures r.Ok? ==> Cycled(r.value, cycles, |Pairs(mains, minors)|)
    ensures r.Ok? ==> meter.written == old(meter.written) + RepeatSeq(CycleTrace(mains, minors, n), |r.value|)
    ensures r.Ok? ==> Polled(controller.written, controller.pending, asked, lines, Flatten(cycles), read)
    ensures old(controller.written) <= controller.written
    ensures r.Err? ==> CycleFault(r.fault, n)
    ensures (|mains| == 0 || |minors| == 0 || n == 0) && clock(0) <= limit ==> r.Err?
    ensures Remains(meter.pending, old(meter.pending))
  {
    var rows: seq<Sampled> := [];
    var failed: Option<Fault> := None;
    var done := false;
    cycles := [];
    ghost var per := |Pairs(mains, minors)|;
    while !done && failed.None?
      decreases |meter.pending|, if done || failed.Some? then 0 else 1
      invariant failed.None? ==> meter.written == old(meter.written) + RepeatSeq(CycleTrace(mains, minors, n), |rows|)
      invariant failed.None? ==> Polled(controller.written, controller.pending, asked, lines, Flatten(cycles), read)
      invariant Timed(rows, clock, limit) && Cycled(rows, cycles, per)
      invariant done ==> clock(|rows|) > limit
      invariant failed.Some? ==> CycleFault(failed.value, n)
      invariant |mains| == 0 || |minors| == 0 || n == 0 ==> |rows| == 0 && (done ==> clock(0) > limit)
      invariant old(controller.written) <= controller.written
      invariant Remains(meter.pending, old(meter.pending))
    {
      var now := clock(|rows|);
      if now > limit {
        done := true;
      } else {
        ghost var before := meter.pending;
        var m, next := CycleStep(meter, controller, mains, minors, n, clock, limit, read, old(meter.written),
                                 asked, lines, rows, cycles);
        RemainsTrans(meter.pending, before, old(meter.pending));
        if m.Err? {
          failed := Some(m.fault);
        } else {
          rows, cycles := m.value, next;
        }
      }
    }
    r := if failed.Some? then Err(failed.value) else Ok(rows);
  }

  /** `LCRCommander(ser, 'FREQ f')`, then the setup. */
  method CycleSetUp(meter: SerialPort, freq: int, volt: string, bias: Option<string>) returns (acked: bool)
    modifies meter
    ensures acked ==> meter.written == old(meter.written) + CycleSetupTrace(freq, volt, bias)
    ensures AckedRun(old(meter.pending), |CycleSetupTrace(freq, volt, bias)|, acked, meter.pending)
    ensures Remains(meter.pending, old(meter.pending))
  {
    ghost var lines := meter.pending;
    assert |CycleSetupTrace(freq, volt, bias)| == |SetupTrace(volt, bias)| + 1;
    acked := Command(meter, FreqCommand(freq));
    if acked {
      ghost var mid := meter.pending;
      acked := SetUp(meter, volt, bias);
      RemainsTrans(meter.pending, mid, old(meter.pending));
      AckedRunAfterFirst(lines, |SetupTrace(volt, bias)|, acked, meter.pending);
    } else {
      AckedRunNoFirst(lines, |SetupTrace(volt, bias)|);
    }
  }

  /** `pd.DataFrame(result_rows)` for the rows of `Experiment2`: with no row there is no
      column. */
  function CycleFrame(mains: seq<string>, minors: seq<string>, rows: seq<Sampled>): Frame
  {
    if |rows| == 0 || |mains| == 0 || |minors| == 0 then [] else TimedFrame(CycleNames(mains, minors), rows)
  }

  /** `Experiment2(ser, freq_fixed, mainMeasurement, minorMeasurement, voltage,
      biasVoltage, numMeasurements, ser2, set_temp, exptime)`: the controller started on
      `setpoint`, the meter set up, one row per pass until the clock passes `limit`, then
      the controller set back to `fallback` and stopped. */
  method CycleSweep(meter: SerialPort, controller: SerialPort, freq: int, mains: seq<string>, minors: seq<string>,
                    volt: string, bias: Option<string>, n: nat, setpoint: Word, fallback: Word,
                    clock: nat -> int, limit: int, ghost read: ReplyReader)
    returns (r: Result<Frame>, rows: seq<Sampled>, ghost cycles: seq<seq<(Cell, Cell)>>)
    requires meter != controller && Interprets(read, Missing)
    modifies meter, controller
    ensures old(controller.written) + StartFrames(setpoint) <= controller.written
    ensures r.Ok? ==> Timed(rows, clock, limit) && clock(|rows|) > limit
    ensures r.Ok? ==> Cycled(rows, cycles, |Pairs(mains, minors)|)
    ensures r.Ok? ==> meter.written == old(meter.written) + CycleSweepTrace(freq, volt, bias, mains, minors, n, |rows|)
    ensures r.Ok? ==> Ended(controller.written, controller.pending, old(controller.written) + StartFrames(setpoint),
                            Drop(old(controller.pending), 2), Flatten(cycles), fallback, read)
    ensures r.Ok? ==> r.value == CycleFrame(mains, minors, rows)
    ensures r.Err? ==> CycleFault(r.fault, n)
    ensures (|mains| == 0 || |minors| == 0 || n == 0) && clock(0) <= limit ==> r.Err?
    ensures Remains(meter.pending, old(meter.pending))
  {
    rows := [];
    cycles := [];
    StartRun(controller, setpoint);
    ghost var started := controller.written;
    ghost var polled := controller.pending;
    var acked := CycleSetUp(meter, freq, volt, bias);
    if !acked {
      r := Err(NoAcknowledgement);
      return;
    }
    ghost var mid := meter.pending;
    ghost var configured := meter.written;
    assert Polled(started, polled, started, polled, [], read);
    var m;
    m, cycles := CycleLoop(meter, controller, mains, minors, n, clock, limit, read, started, polled);
    RemainsTrans(meter.pending, mid, old(meter.pending));
    if m.Err? {
      r := Err(m.fault);
      return;
    }
    rows := m.value;
    assert Cycled(rows, cycles, |Pairs(mains, minors)|);
    Regroup(old(meter.written), CycleSetupTrace(freq, volt, bias), RepeatSeq(CycleTrace(mains, minors, n), |rows|));
    EndRun(controller, fallback, started, polled, Flatten(cycles), read);
    r := Ok(CycleFrame(mains, minors, rows));
  }

  /** The table `Experiment2` returns: with a row, the seven keys in order, the time, the
      readings and the averages of every row under them. */
  lemma CycleColumns(mains: seq<string>, minors: seq<string>, rows: seq<Sampled>)
    requires |mains| > 0 && |minors| > 0 && |rows| > 0
    ensures Names(CycleFrame(mains, minors, rows)) == CycleNames(mains, minors)
    ensures forall c :: 0 <= c < 7 ==>
              Lookup(CycleFrame(mains, minors, rows), CycleNames(mains, minors)[c])
              == Some(seq(|rows|, t requires 0 <= t < |rows| => RecordOf(rows[t])[c]))
  {
    CycleNamesDistinct(mains, minors);
    TimedColumns(CycleNames(mains, minors), rows);
  }

  /** `Experiment2` reads the controller once per pair in every pass. */
  lemma CycleReadCount(rows: seq<Sampled>, cycles: seq<seq<(Cell, Cell)>>, mains: seq<string>, minors: seq<string>)
    requires Cycled(rows, cycles, |Pairs(mains, minors)|)
    ensures |Flatten(cycles)| == |rows| * (|mains| * |minors|)
  {
    PairsOrder(mains, minors);
    FlattenLength(cycles, |Pairs(mains, minors)|);
  }
}
