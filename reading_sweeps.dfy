/** `Experiment3`, the sweep over every main/minor parameter pair that also reads the
    temperature controller after each `FREQ` command, and `Experiment_b1`, the sweep of
    the single pair Z/THR that first starts the controller on a set value and keeps one
    reading per frequency.

    `Experiment3` sends the meter exactly what `Experiment` sends. Its table gets the
    columns of `Experiment` and two more, `PV` and `SV`, assigned the scalar of the last
    reading of each pair, so every row shows the same temperature: the one read at the
    last frequency of the last pair. */
module ReadingSweeps {
  import opened Common
  import opened SerialLine
  import opened Statistics
  import opened Meter
  import opened FrameCodec
  import opened Controller
  import opened Frames
  import opened Sequencing
  import opened TemperatureReads
  import opened FrequencySweeps

  const PV := "PV"
  const SV := "SV"

  /** The set value both sweeps leave the controller on when they stop it: 18.0 degrees. */
  const FALLBACK: Word := 180

  /** `df['PV'] = pv` and `df['SV'] = sv` for one reading: the scalar on every row. */
  function ReadingWrites(reading: (Cell, Cell), rows: nat): (w: seq<Column>)
    ensures |w| == 2 && w[0].name == PV && w[1].name == SV
  {
    [Column(PV, Broadcast(reading.0, rows)), Column(SV, Broadcast(reading.1, rows))]
  }

  /** Each pass holds one reading per frequency. */
  predicate ReadsFit(readings: seq<seq<(Cell, Cell)>>, rows: nat)
  {
    forall b :: 0 <= b < |readings| ==> |readings[b]| == rows
  }

  /** Every assignment of `Experiment3`, pair after pair: PV and SV from the last reading
      of the pair, then the four columns of `Experiment`. */
  function PassWrites(blocks: seq<Block>, readings: seq<seq<(Cell, Cell)>>, rows: nat): seq<Column>
    requires |readings| == |blocks| && ReadsFit(readings, rows) && (|blocks| == 0 || rows > 0)
  {
    if |blocks| == 0 then []
    else
      var b := blocks[|blocks| - 1];
      var last := readings[|readings| - 1];
      PassWrites(blocks[..|blocks| - 1], readings[..|readings| - 1], rows)
      + ReadingWrites(last[rows - 1], rows) + BlockWrites(b.main, PairName(b.main, b.minor), b.stats)
  }

  /** The table `Experiment3` returns. */
  function ReadingFrame(freqs: seq<int>, blocks: seq<Block>, readings: seq<seq<(Cell, Cell)>>): Frame
    requires |readings| == |blocks| && ReadsFit(readings, |freqs|) && (|blocks| == 0 || |freqs| > 0)
  {
    ApplyWrites(FrequencyFrame(freqs), PassWrites(blocks, readings, |freqs|))
  }

  /** All readings of a sweep, pass after pass. */
  function Flatten(readings: seq<seq<(Cell, Cell)>>): seq<(Cell, Cell)>
  {
    if |readings| == 0 then [] else Flatten(readings[..|readings| - 1]) + readings[|readings| - 1]
  }

  /** One reading per pair and frequency. */
  lemma {:induction false} FlattenLength(readings: seq<seq<(Cell, Cell)>>, rows: nat)
    requires ReadsFit(readings, rows)
    ensures |Flatten(readings)| == |readings| * rows
  {
    if |readings| > 0 {
      FlattenLength(readings[..|readings| - 1], rows);
      OneMore(|readings| - 1, rows);
    }
  }

  lemma {:induction false} FlattenAppend(a: seq<seq<(Cell, Cell)>>, b: seq<seq<(Cell, Cell)>>)
    ensures Flatten(a + b) == Flatten(a) + Flatten(b)
    decreases |b|
  {
    if |b| == 0 {
      assert a + b == a;
    } else {
      assert (a + b)[..|a + b| - 1] == a + b[..|b| - 1];
      assert (a + b)[|a + b| - 1] == b[|b| - 1];
      FlattenAppend(a, b[..|b| - 1]);
    }
  }

  lemma {:induction false} PassWritesAppend(a: seq<Block>, ra: seq<seq<(Cell, Cell)>>,
                                            b: seq<Block>, rb: seq<seq<(Cell, Cell)>>, rows: nat)
    requires |ra| == |a| && ReadsFit(ra, rows) && (|a| == 0 || rows > 0)
    requires |rb| == |b| && ReadsFit(rb, rows) && (|b| == 0 || rows > 0)
    ensures ReadsFit(ra + rb, rows)
    ensures PassWrites(a + b, ra + rb, rows) == PassWrites(a, ra, rows) + PassWrites(b, rb, rows)
    decreases |b|
  {
    if |b| == 0 {
      assert a + b == a && ra + rb == ra;
    } else {
      var b0, rb0 := b[..|b| - 1], rb[..|rb| - 1];
      var x, last := b[|b| - 1], rb[|rb| - 1];
      PassWritesAppend(a, ra, b0, rb0, rows);
      var pa, pb := PassWrites(a, ra, rows), PassWrites(b0, rb0, rows);
      var r, w := ReadingWrites(last[rows - 1], rows), BlockWrites(x.main, PairName(x.main, x.minor), x.stats);
      assert PassWrites(a + b, ra + rb, rows) == pa + pb + r + w by {
        assert (a + b)[..|a + b| - 1] == a + b0 && (a + b)[|a + b| - 1] == x;
        assert (ra + rb)[..|ra + rb| - 1] == ra + rb0 && (ra + rb)[|ra + rb| - 1] == last;
      }
      assert PassWrites(b, rb, rows) == pb + r + w;
      Regroup(pa, pb, r);
      Regroup(pa, pb + r, w);
    }
  }

  /** Apart from `PV` and `SV`, `Experiment3` assigns what `Experiment` assigns. */
  lemma {:induction false} PassWritesAsSweep(blocks: seq<Block>, readings: seq<seq<(Cell, Cell)>>, rows: nat,
                                             name: string)
    requires |readings| == |blocks| && ReadsFit(readings, rows) && (|blocks| == 0 || rows > 0)
    requires name != PV && name != SV
    ensures LastWrite(PassWrites(blocks, readings, rows), name) == LastWrite(SweepWrites(blocks), name)
  {
    if |blocks| > 0 {
      var b := blocks[|blocks| - 1];
      var last := readings[|readings| - 1];
      var front := PassWrites(blocks[..|blocks| - 1], readings[..|readings| - 1], rows);
      var rw := ReadingWrites(last[rows - 1], rows);
      var bw := BlockWrites(b.main, PairName(b.main, b.minor), b.stats);
      PassWritesAsSweep(blocks[..|blocks| - 1], readings[..|readings| - 1], rows, name);
      LastWriteAppend(front + rw, bw, name);
      LastWriteAppend(front, rw, name);
      LastWriteNone(rw, name);
      LastWriteAppend(SweepWrites(blocks[..|blocks| - 1]), bw, name);
    }
  }

  /** Every column of `Experiment`'s table other than `PV` and `SV` reads the same in
      `Experiment3`'s, for the same measurements. */
  lemma ReadingFrameExtendsSweep(freqs: seq<int>, blocks: seq<Block>, readings: seq<seq<(Cell, Cell)>>,
                                 name: string)
    requires |readings| == |blocks| && ReadsFit(readings, |freqs|) && (|blocks| == 0 || |freqs| > 0)
    requires name != PV && name != SV
    ensures Lookup(ReadingFrame(freqs, blocks, readings), name) == Lookup(SweepFrame(freqs, blocks), name)
  {
    PassWritesAsSweep(blocks, readings, |freqs|, name);
    ApplyLookup(FrequencyFrame(freqs), PassWrites(blocks, readings, |freqs|), name);
    ApplyLookup(FrequencyFrame(freqs), SweepWrites(blocks), name);
  }

  /** No name `Experiment` assigns is `PV` or `SV`. */
  lemma StatNamesAreNotReadings(x: string)
    ensures x + AVG != PV && x + AVG != SV && x + STD != PV && x + STD != SV
  {
    assert |x + AVG| >= 5 && |x + STD| >= 5;
  }

  /** `PV` and `SV` show the reading taken at the last frequency of the last pair, on every
      row. */
  lemma LastReadingShown(freqs: seq<int>, blocks: seq<Block>, readings: seq<seq<(Cell, Cell)>>)
    requires |readings| == |blocks| && ReadsFit(readings, |freqs|) && |blocks| > 0 && |freqs| > 0
    ensures var last := readings[|readings| - 1][|freqs| - 1];
            Lookup(ReadingFrame(freqs, blocks, readings), PV) == Some(Broadcast(last.0, |freqs|))
            && Lookup(ReadingFrame(freqs, blocks, readings), SV) == Some(Broadcast(last.1, |freqs|))
  {
    var rows := |freqs|;
    var b := blocks[|blocks| - 1];
    var last := readings[|readings| - 1][rows - 1];
    var front := PassWrites(blocks[..|blocks| - 1], readings[..|readings| - 1], rows);
    var rw := ReadingWrites(last, rows);
    var p := PairName(b.main, b.minor);
    var bw := BlockWrites(b.main, p, b.stats);
    StatNamesAreNotReadings(b.main);
    StatNamesAreNotReadings(p);
    LastWriteNone(bw, PV);
    LastWriteNone(bw, SV);
    LastWriteAt(rw, 0, PV);
    LastWriteAt(rw, 1, SV);
    LastWriteAppend(front + rw, bw, PV);
    LastWriteAppend(front + rw, bw, SV);
    LastWriteAppend(front, rw, PV);
    LastWriteAppend(front, rw, SV);
    ApplyLookup(FrequencyFrame(freqs), PassWrites(blocks, readings, rows), PV);
    ApplyLookup(FrequencyFrame(freqs), PassWrites(blocks, readings, rows), SV);
  }

  /** The failures of a sweep that reads the controller: those of the meter, a reply whose
      LRC could not be computed (ValueError), and `df['PV'] = pv` with no frequency to
      have assigned `pv`. */
  predicate ReadingFault(f: Fault, n: nat, freqs: seq<int>)
  {
    MeterFault(f, n) || (f == UnboundLocal && |freqs| == 0)
  }

  /** Two assignments in a row are `ApplyWrites` of the two. */
  lemma PairApplied(f: Frame, w: seq<Column>)
    requires |w| == 2
    ensures ApplyWrites(f, w) == Assign(Assign(f, w[0].name, w[0].cells), w[1].name, w[1].cells)
  {
    assert w[..1][..0] == [] && w[..1][0] == w[0];
    assert ApplyWrites(f, w[..1]) == Assign(f, w[0].name, w[0].cells);
    assert w[..|w| - 1] == w[..1];
  }

  /** One pair of `Experiment3`: `FUNC:IMP:B i`, the frequency loop with its readings, then
      `PV`, `SV` and the four column assignments. */
  method ReadingPair(meter: SerialPort, controller: SerialPort, k: string, i: string, freqs: seq<int>, n: nat,
                     df: Frame, ghost read: ReplyReader, ghost asked: seq<string>, ghost lines: seq<string>,
                     ghost taken: seq<(Cell, Cell)>)
    returns (r: Result<Frame>, ghost stats: seq<Stats>, ghost cells: seq<(Cell, Cell)>)
    requires meter != controller && Interprets(read, Missing)
    requires Polled(controller.written, controller.pending, asked, lines, taken, read)
    modifies meter, controller
    ensures r.Ok? ==> meter.written == old(meter.written) + PairTrace(i, freqs, n)
    ensures r.Ok? ==> |stats| == |freqs| && |cells| == |freqs| && |freqs| > 0
    ensures r.Ok? ==> Polled(controller.written, controller.pending, asked, lines, taken + cells, read)
    ensures r.Ok? ==> r.value == ApplyWrites(df, ReadingWrites(cells[|freqs| - 1], |freqs|)
                                                  + BlockWrites(k, PairName(k, i), stats))
    ensures r.Ok? ==> AckIndex(old(meter.pending)).Some?
                      && Ok(stats) == AverageRun(Measure(n), AfterAck(old(meter.pending)), |freqs|, n).averages
    ensures r.Err? ==> ReadingFault(r.fault, n, freqs)
    ensures n == 0 || |freqs| == 0 ==> r.Err?
    ensures Remains(meter.pending, old(meter.pending))
  {
    stats := [];
    cells := [];
    var acked := Command(meter, MinorCommand(i));
    if !acked {
      r := Err(NoAcknowledgement);
    } else {
      ghost var mid := meter.pending;
      ghost var w1 := controller.written;
      ghost var p1 := controller.pending;
      var m, got, waits := MeasureFrequenciesWithReadings(meter, controller, freqs, n, Missing, read);
      RemainsTrans(meter.pending, mid, old(meter.pending));
      if m.Err? {
        r := Err(m.fault);
      } else if |freqs| == 0 {
        r := Err(UnboundLocal);
      } else {
        stats := m.value;
        cells := got;
        PollMore(asked, lines, taken, got, w1, p1, controller.written, controller.pending, read);
        var last := got[|got| - 1];
        var rw := ReadingWrites(last, |freqs|);
        var g := Assign(df, PV, Broadcast(last.0, |freqs|));
        g := Assign(g, SV, Broadcast(last.1, |freqs|));
        PairApplied(df, rw);
        g := StoreBlock(g, k, PairName(k, i), m.value);
        ApplyAppend(df, rw, BlockWrites(k, PairName(k, i), stats));
        Regroup(old(meter.written), [CommandLine(MinorCommand(i))], FrequencyTrace(freqs, n));
        r := Ok(g);
      }
    }
  }

  /** One more pair extends the assignments by its six and the readings by its own. */
  lemma PassSnoc(df: Frame, frame: Frame, g: Frame, blocks: seq<Block>, readings: seq<seq<(Cell, Cell)>>,
                 b: Block, cells: seq<(Cell, Cell)>, rows: nat)
    requires |readings| == |blocks| && ReadsFit(readings, rows) && rows > 0 && |cells| == rows
    requires frame == ApplyWrites(df, PassWrites(blocks, readings, rows))
    requires g == ApplyWrites(frame, ReadingWrites(cells[rows - 1], rows)
                                     + BlockWrites(b.main, PairName(b.main, b.minor), b.stats))
    ensures ReadsFit(readings + [cells], rows)
    ensures g == ApplyWrites(df, PassWrites(blocks + [b], readings + [cells], rows))
  {
    assert (blocks + [b])[..|blocks|] == blocks;
    assert (readings + [cells])[..|readings|] == readings;
    var front := PassWrites(blocks, readings, rows);
    var rw := ReadingWrites(cells[rows - 1], rows);
    var bw := BlockWrites(b.main, PairName(b.main, b.minor), b.stats);
    assert PassWrites(blocks + [b], readings + [cells], rows) == front + rw + bw;
    Regroup(front, rw, bw);
    ApplyAppend(df, front, rw + bw);
  }

  /** The inner loop of `Experiment3` after the first `c` minor parameters of `k`: one
      block and one pass of readings, one per frequency, for each. */
  predicate InnerSoFar(blocks: seq<Block>, readings: seq<seq<(Cell, Cell)>>, k: string, minors: seq<string>,
                       c: nat, freqs: seq<int>)
  {
    |blocks| == c && |readings| == c && InRow(blocks, k, minors) && Fits(blocks, freqs)
    && ReadsFit(readings, |freqs|) && (c == 0 || |freqs| > 0)
  }

  /** One turn of the inner loop of `Experiment3`: the pair `k-minors[c]`, with every
      loop fact carried from `c` minor parameters to `c + 1`. */
  method ReadingStep(meter: SerialPort, controller: SerialPort, k: string, minors: seq<string>, c: nat,
                     freqs: seq<int>, n: nat, df: Frame, frame: Frame, ghost read: ReplyReader,
                     ghost asked: seq<string>, ghost lines: seq<string>, ghost taken: seq<(Cell, Cell)>,
                     ghost start: seq<string>, ghost blocks: seq<Block>, ghost readings: seq<seq<(Cell, Cell)>>)
    returns (m: Result<Frame>, ghost blocks': seq<Block>, ghost readings': seq<seq<(Cell, Cell)>>)
    requires meter != controller && Interprets(read, Missing) && c < |minors|
    requires InnerSoFar(blocks, readings, k, minors, c, freqs)
    requires meter.written == start + MinorsTrace(minors[..c], freqs, n)
    requires Polled(controller.written, controller.pending, asked, lines, taken + Flatten(readings), read)
    requires frame == ApplyWrites(df, PassWrites(blocks, readings, |freqs|))
    modifies meter, controller
    ensures m.Ok? ==> InnerSoFar(blocks', readings', k, minors, c + 1, freqs)
    ensures m.Ok? ==> meter.written == start + MinorsTrace(minors[..c + 1], freqs, n)
    ensures m.Ok? ==> Polled(controller.written, controller.pending, asked, lines, taken + Flatten(readings'), read)
    ensures m.Ok? ==> m.value == ApplyWrites(df, PassWrites(blocks', readings', |freqs|))
    ensures m.Err? ==> ReadingFault(m.fault, n, freqs) && blocks' == blocks && readings' == readings
    ensures n == 0 || |freqs| == 0 ==> m.Err?
    ensures Remains(meter.pending, old(meter.pending))
  {
    ghost var stats, cells;
    m, stats, cells := ReadingPair(meter, controller, k, minors[c], freqs, n, frame, read, asked, lines,
                                   taken + Flatten(readings));
    blocks', readings' := blocks, readings;
    if m.Ok? {
      assert |cells| == |freqs| > 0;
      assert |readings| == |blocks| && ReadsFit(readings, |freqs|);
      ghost var b := Block(k, minors[c], stats);
      assert b.main == k && b.minor == minors[c] && b.stats == stats;
      assert m.value == ApplyWrites(frame, ReadingWrites(cells[|freqs| - 1], |freqs|)
                                           + BlockWrites(k, PairName(k, minors[c]), stats));
      PassSnoc(df, frame, m.value, blocks, readings, b, cells, |freqs|);
      assert (readings + [cells])[..|readings|] == readings;
      assert Flatten(readings + [cells]) == Flatten(readings) + cells;
      Regroup(taken, Flatten(readings), cells);
      MinorsTraceSnoc(minors, c, freqs, n);
      Regroup(start, MinorsTrace(minors[..c], freqs, n), PairTrace(minors[c], freqs, n));
      GrowRow(blocks, k, minors, c, stats, freqs);
      blocks', readings' := blocks + [b], readings + [cells];
    }
  }

  /** The inner loop of `Experiment3` for one main parameter `k`: each minor parameter in
      turn, with its frequency loop, its readings and its six column assignments. */
  method ReadingMain(meter: SerialPort, controller: SerialPort, k: string, minors: seq<string>, freqs: seq<int>,
                     n: nat, df: Frame, ghost read: ReplyReader, ghost asked: seq<string>, ghost lines: seq<string>,
                     ghost taken: seq<(Cell, Cell)>)
    returns (r: Result<Frame>, ghost blocks: seq<Block>, ghost readings: seq<seq<(Cell, Cell)>>)
    requires meter != controller && Interprets(read, Missing)
    requires Polled(controller.written, controller.pending, asked, lines, taken, read)
    modifies meter, controller
    ensures r.Ok? ==> meter.written == old(meter.written) + MinorsTrace(minors, freqs, n)
    ensures r.Ok? ==> Keys(blocks) == Row(k, minors) && Fits(blocks, freqs)
    ensures r.Ok? ==> |readings| == |blocks| && ReadsFit(readings, |freqs|) && (|blocks| == 0 || |freqs| > 0)
    ensures r.Ok? ==> Polled(controller.written, controller.pending, asked, lines, taken + Flatten(readings), read)
    ensures r.Ok? ==> r.value == ApplyWrites(df, PassWrites(blocks, readings, |freqs|))
    ensures r.Err? ==> ReadingFault(r.fault, n, freqs)
    ensures |minors| > 0 && (n == 0 || |freqs| == 0) ==> r.Err?
    ensures Remains(meter.pending, old(meter.pending))
  {
    var frame := df;
    blocks := [];
    readings := [];
    var c := 0;
    assert minors[..0] == [];
    assert taken + Flatten(readings) == taken;
    while c < |minors|
      invariant 0 <= c <= |minors| && InnerSoFar(blocks, readings, k, minors, c, freqs)
      invariant meter.written == old(meter.written) + MinorsTrace(minors[..c], freqs, n)
      invariant Polled(controller.written, controller.pending, asked, lines, taken + Flatten(readings), read)
      invariant frame == ApplyWrites(df, PassWrites(blocks, readings, |freqs|))
      invariant n == 0 || |freqs| == 0 ==> c == 0
      invariant Remains(meter.pending, old(meter.pending))
    {
      ghost var before := meter.pending;
      var m;
      m, blocks, readings := ReadingStep(meter, controller, k, minors, c, freqs, n, df, frame, read, asked, lines,
                                         taken, old(meter.written), blocks, readings);
      RemainsTrans(meter.pending, before, old(meter.pending));
      if m.Err? {
        return Err(m.fault), blocks, readings;
      }
      frame := m.value;
      c := c + 1;
    }
    assert minors[..c] == minors;
    assert Keys(blocks) == Row(k, minors);
    r := Ok(frame);
  }

  /** One pass of the outer loop of `Experiment3`: `FUNC:IMP:A k`, then the inner loop. */
  method ReadingPass(meter: SerialPort, controller: SerialPort, k: string, minors: seq<string>, freqs: seq<int>,
                     n: nat, df: Frame, ghost read: ReplyReader, ghost asked: seq<string>, ghost lines: seq<string>,
                     ghost taken: seq<(Cell, Cell)>)
    returns (r: Result<Frame>, ghost more: seq<Block>, ghost rs: seq<seq<(Cell, Cell)>>)
    requires meter != controller && Interprets(read, Missing)
    requires Polled(controller.written, controller.pending, asked, lines, taken, read)
    modifies meter, controller
    ensures r.Ok? ==> meter.written
                      == old(meter.written) + ([CommandLine(MainCommand(k))] + MinorsTrace(minors, freqs, n))
    ensures r.Ok? ==> Keys(more) == Row(k, minors) && Fits(more, freqs)
    ensures r.Ok? ==> |rs| == |more| && ReadsFit(rs, |freqs|) && (|more| == 0 || |freqs| > 0)
    ensures r.Ok? ==> Polled(controller.written, controller.pending, asked, lines, taken + Flatten(rs), read)
    ensures r.Ok? ==> r.value == ApplyWrites(df, PassWrites(more, rs, |freqs|))
    ensures r.Err? ==> ReadingFault(r.fault, n, freqs)
    ensures |minors| > 0 && (n == 0 || |freqs| == 0) ==> r.Err?
    ensures Remains(meter.pending, old(meter.pending))
  {
    more, rs := [], [];
    var acked := Command(meter, MainCommand(k));
    if !acked {
      r := Err(NoAcknowledgement);
    } else {
      ghost var mid := meter.pending;
      r, more, rs := ReadingMain(meter, controller, k, minors, freqs, n, df, read, asked, lines, taken);
      RemainsTrans(meter.pending, mid, old(meter.pending));
      if r.Ok? {
        Regroup(old(meter.written), [CommandLine(MainCommand(k))], MinorsTrace(minors, freqs, n));
      }
    }
  }

  /** The pairs of `mains` and `minors` were measured in order, each with one reading per
      frequency. */
  predicate Swept(blocks: seq<Block>, readings: seq<seq<(Cell, Cell)>>, mains: seq<string>, minors: seq<string>,
                  freqs: seq<int>)
  {
    Keys(blocks) == Pairs(mains, minors) && Fits(blocks, freqs)
    && |readings| == |blocks| && ReadsFit(readings, |freqs|) && (|blocks| == 0 || |freqs| > 0)
  }

  /** One turn of the outer loop of `Experiment3`, carrying every loop fact from `a` main
      parameters to `a + 1`. */
  method ReadingMainsStep(meter: SerialPort, controller: SerialPort, mains: seq<string>, a: nat,
                          minors: seq<string>, freqs: seq<int>, n: nat, frame: Frame, ghost read: ReplyReader,
                          ghost asked: seq<string>, ghost lines: seq<string>, ghost start: seq<string>,
                          ghost blocks: seq<Block>, ghost readings: seq<seq<(Cell, Cell)>>)
    returns (m: Result<Frame>, ghost blocks': seq<Block>, ghost readings': seq<seq<(Cell, Cell)>>)
    requires meter != controller && Interprets(read, Missing) && a < |mains|
    requires meter.written == start + MainsTrace(mains[..a], minors, freqs, n)
    requires Swept(blocks, readings, mains[..a], minors, freqs)
    requires Polled(controller.written, controller.pending, asked, lines, Flatten(readings), read)
    requires frame == ReadingFrame(freqs, blocks, readings)
    modifies meter, controller
    ensures m.Ok? ==> meter.written == start + MainsTrace(mains[..a + 1], minors, freqs, n)
    ensures m.Ok? ==> Swept(blocks', readings', mains[..a + 1], minors, freqs)
    ensures m.Ok? ==> Polled(controller.written, controller.pending, asked, lines, Flatten(readings'), read)
    ensures m.Ok? ==> m.value == ReadingFrame(freqs, blocks', readings')
    ensures m.Err? ==> ReadingFault(m.fault, n, freqs) && blocks' == blocks && readings' == readings
    ensures |minors| > 0 && (n == 0 || |freqs| == 0) ==> m.Err?
    ensures Remains(meter.pending, old(meter.pending))
  {
    ghost var more, rs;
    m, more, rs := ReadingPass(meter, controller, mains[a], minors, freqs, n, frame, read, asked, lines,
                               Flatten(readings));
    blocks', readings' := blocks, readings;
    if m.Ok? {
      var rows := |freqs|;
      PassWritesAppend(blocks, readings, more, rs, rows);
      ApplyAppend(FrequencyFrame(freqs), PassWrites(blocks, readings, rows), PassWrites(more, rs, rows));
      FlattenAppend(readings, rs);
      MainsTraceSnoc(start, mains, a, minors, freqs, n);
      GrowPairs(blocks, more, mains, a, minors, freqs);
      blocks', readings' := blocks + more, readings + rs;
      assert m.value == ReadingFrame(freqs, blocks', readings');
    }
  }

  /** The outer loop of `Experiment3`: one `FUNC:IMP:A k` and its inner loop per main
      parameter, writing into the frequency table. */
  method ReadingMains(meter: SerialPort, controller: SerialPort, freqs: seq<int>, mains: seq<string>,
                      minors: seq<string>, n: nat, ghost read: ReplyReader, ghost asked: seq<string>,
                      ghost lines: seq<string>)
    returns (r: Result<Frame>, ghost blocks: seq<Block>, ghost readings: seq<seq<(Cell, Cell)>>)
    requires meter != controller && Interprets(read, Missing)
    requires Polled(controller.written, controller.pending, asked, lines, [], read)
    modifies meter, controller
    ensures r.Ok? ==> meter.written == old(meter.written) + MainsTrace(mains, minors, freqs, n)
    ensures r.Ok? ==> Swept(blocks, readings, mains, minors, freqs)
    ensures r.Ok? ==> Polled(controller.written, controller.pending, asked, lines, Flatten(readings), read)
    ensures r.Ok? ==> r.value == ReadingFrame(freqs, blocks, readings)
    ensures r.Err? ==> ReadingFault(r.fault, n, freqs)
    ensures |mains| > 0 && |minors| > 0 && (n == 0 || |freqs| == 0) ==> r.Err?
    ensures Remains(meter.pending, old(meter.pending))
  {
    var df := FrequencyFrame(freqs);
    blocks, readings := [], [];
    r := Ok(df);
    var a := 0;
    assert mains[..0] == [];
    while a < |mains| && r.Ok?
      decreases |mains| - a, if r.Ok? then 1 else 0
      invariant 0 <= a <= |mains|
      invariant r.Ok? ==> meter.written == old(meter.written) + MainsTrace(mains[..a], minors, freqs, n)
      invariant Swept(blocks, readings, mains[..a], minors, freqs)
      invariant r.Ok? ==> Polled(controller.written, controller.pending, asked, lines, Flatten(readings), read)
      invariant r.Ok? ==> df == ReadingFrame(freqs, blocks, readings)
      invariant r.Err? ==> ReadingFault(r.fault, n, freqs)
      invariant |minors| > 0 && (n == 0 || |freqs| == 0) && r.Ok? ==> a == 0
      invariant Remains(meter.pending, old(meter.pending))
    {
      ghost var before := meter.pending;
      var m;
      m, blocks, readings := ReadingMainsStep(meter, controller, mains, a, minors, freqs, n, df, read, asked,
                                              lines, old(meter.written), blocks, readings);
      RemainsTrans(meter.pending, before, old(meter.pending));
      if m.Err? {
        r := Err(m.fault);
      } else {
        df := m.value;
        a := a + 1;
      }
    }
    if r.Ok? {
      assert mains[..a] == mains;
      r := Ok(df);
    }
  }

  /** The nested loops of `Experiment3` and the end of its run: the controller is set to
      `fallback` and stopped once every pair is measured. */
  method ReadingRun(meter: SerialPort, controller: SerialPort, freqs: seq<int>, mains: seq<string>,
                    minors: seq<string>, n: nat, fallback: Word, ghost read: ReplyReader,
                    ghost asked: seq<string>, ghost lines: seq<string>)
    returns (r: Result<Frame>, ghost blocks: seq<Block>, ghost readings: seq<seq<(Cell, Cell)>>)
    requires meter != controller && Interprets(read, Missing)
    requires controller.written == asked && controller.pending == lines
    modifies meter, controller
    ensures r.Ok? ==> meter.written == old(meter.written) + MainsTrace(mains, minors, freqs, n)
    ensures r.Ok? ==> Swept(blocks, readings, mains, minors, freqs)
    ensures r.Ok? ==> Ended(controller.written, controller.pending, asked, lines, Flatten(readings), fallback, read)
    ensures r.Ok? ==> r.value == ReadingFrame(freqs, blocks, readings)
    ensures r.Err? ==> ReadingFault(r.fault, n, freqs)
    ensures |mains| > 0 && |minors| > 0 && (n == 0 || |freqs| == 0) ==> r.Err?
    ensures Remains(meter.pending, old(meter.pending))
  {
    assert controller.written == asked + Repeat(READ_REQUEST, 0);
    assert controller.pending == Drop(lines, 0);
    r, blocks, readings := ReadingMains(meter, controller, freqs, mains, minors, n, read, asked, lines);
    if r.Ok? {
      EndRun(controller, fallback, asked, lines, Flatten(readings), read);
    }
  }

  /** `Experiment3(ser, ser2, freqencies, mainMeasurement, minorMeasurement, voltage,
      biasVoltage, numMeasurements)`: the setup and the nested loops of `Experiment`, with
      one controller reading per frequency, then the controller set back to 18.0 degrees
      and stopped. Reading `t` of the sweep is what the `t`-th reply of the controller
      reads as. */
  method ReadingSweep(meter: SerialPort, controller: SerialPort, freqs: seq<int>, mains: seq<string>,
                      minors: seq<string>, volt: string, bias: Option<string>, n: nat, ghost read: ReplyReader)
    returns (r: Result<Frame>, ghost blocks: seq<Block>, ghost readings: seq<seq<(Cell, Cell)>>)
    requires meter != controller && Interprets(read, Missing)
    modifies meter, controller
    ensures r.Ok? ==> meter.written == old(meter.written) + SweepTrace(volt, bias, mains, minors, freqs, n)
    ensures r.Ok? ==> Swept(blocks, readings, mains, minors, freqs)
    ensures r.Ok? ==> Ended(controller.written, controller.pending, old(controller.written), old(controller.pending),
                            Flatten(readings), FALLBACK, read)
    ensures r.Ok? ==> r.value == ReadingFrame(freqs, blocks, readings)
    ensures r.Err? ==> ReadingFault(r.fault, n, freqs)
    ensures |mains| > 0 && |minors| > 0 && (n == 0 || |freqs| == 0) ==> r.Err?
    ensures Remains(meter.pending, old(meter.pending))
  {
    blocks, readings := [], [];
    var acked := SetUp(meter, volt, bias);
    if !acked {
      r := Err(NoAcknowledgement);
    } else {
      ghost var mid := meter.pending;
      r, blocks, readings := ReadingRun(meter, controller, freqs, mains, minors, n, FALLBACK, read,
                                        old(controller.written), old(controller.pending));
      RemainsTrans(meter.pending, mid, old(meter.pending));
      if r.Ok? {
        Regroup(old(meter.written), SetupTrace(volt, bias), MainsTrace(mains, minors, freqs, n));
      }
    }
  }

  /** `Experiment3` reads the controller once per pair and frequency. */
  lemma ReadingCount(mains: seq<string>, minors: seq<string>, freqs: seq<int>, blocks: seq<Block>,
                     readings: seq<seq<(Cell, Cell)>>)
    requires Keys(blocks) == Pairs(mains, minors) && |readings| == |blocks| && ReadsFit(readings, |freqs|)
    ensures |Flatten(readings)| == |mains| * |minors| * |freqs|
  {
    PairsOrder(mains, minors);
    FlattenLength(readings, |freqs|);
  }

  /** The PV (`pv`) or the SV cell of each reading, in order: `pv_list` or `sv_list`. */
  function ReadingCells(cells: seq<(Cell, Cell)>, pv: bool): (column: seq<Cell>)
    ensures |column| == |cells|
    ensures forall t :: 0 <= t < |cells| ==> column[t] == if pv then cells[t].0 else cells[t].1
  {
    seq(|cells|, t requires 0 <= t < |cells| => if pv then cells[t].0 else cells[t].1)
  }

  /** The six assignments at the end of `Experiment_b1`: the two reading lists, then the
      four columns of the pair (Z, THR). */
  function SetpointWrites(cells: seq<(Cell, Cell)>, stats: seq<Stats>): seq<Column>
  {
    [Column(PV, ReadingCells(cells, true)), Column(SV, ReadingCells(cells, false))]
    + BlockWrites(EFF_MAIN, EFF_MINOR, stats)
  }

  /** The six names `Experiment_b1` assigns, in order. */
  lemma SetpointNames(cells: seq<(Cell, Cell)>, stats: seq<Stats>)
    ensures Names(SetpointWrites(cells, stats)) == [PV, SV, "Z Avg.", "Z Std.", "THR Avg.", "THR Std."]
  {
    assert EFF_MAIN + AVG == "Z Avg." && EFF_MAIN + STD == "Z Std.";
    assert EFF_MINOR + AVG == "THR Avg." && EFF_MINOR + STD == "THR Std.";
  }

  /** The six names `Experiment_b1` assigns are distinct and none is `Frequency`. */
  lemma SetpointFresh(cells: seq<(Cell, Cell)>, stats: seq<Stats>)
    ensures var w := SetpointWrites(cells, stats);
            (forall c :: 0 <= c < |w| ==> w[c].name !in Names(FrequencyFrame([])))
            && (forall c, d :: 0 <= c < d < |w| ==> w[c].name != w[d].name)
  {
    var w := SetpointWrites(cells, stats);
    var names := [PV, SV, "Z Avg.", "Z Std.", "THR Avg.", "THR Std."];
    assert forall c :: 0 <= c < |w| ==> w[c].name == names[c] by {
      SetpointNames(cells, stats);
      assert forall c :: 0 <= c < |w| ==> Names(w)[c] == w[c].name;
    }
    assert forall c, d :: 0 <= c < d < |names| ==> names[c] != names[d] by {
      assert "Z Avg."[2] != "Z Std."[2] && "THR Avg."[4] != "THR Std."[4];
      assert "Z Avg."[0] != "THR Avg."[0] && PV[0] != SV[0];
    }
    assert forall c :: 0 <= c < |names| ==> names[c] != FREQUENCY by {
      assert FREQUENCY[0] != PV[0] && FREQUENCY[0] != SV[0];
      assert FREQUENCY[0] != "Z Avg."[0] && FREQUENCY[0] != "THR Avg."[0];
    }
  }

  /** The six names `Experiment_b1` assigns are new to the frequency table and distinct, so
      each assignment adds its column at the right end. */
  lemma SetpointAppends(freqs: seq<int>, cells: seq<(Cell, Cell)>, stats: seq<Stats>)
    ensures ApplyWrites(FrequencyFrame(freqs), SetpointWrites(cells, stats))
            == FrequencyFrame(freqs) + SetpointWrites(cells, stats)
  {
    SetpointFresh(cells, stats);
    assert Names(FrequencyFrame(freqs)) == Names(FrequencyFrame([]));
    ApplyFresh(FrequencyFrame(freqs), SetpointWrites(cells, stats));
  }

  /** With distinct names, the frame after the writes holds each write's own cells. */
  lemma FreshLookup(f: Frame, w: seq<Column>, k: nat)
    requires k < |w|
    requires forall c, d :: 0 <= c < d < |w| ==> w[c].name != w[d].name
    ensures Lookup(ApplyWrites(f, w), w[k].name) == Some(w[k].cells)
  {
    LastWriteAt(w, k, w[k].name);
    ApplyLookup(f, w, w[k].name);
  }

  /** The names of `Experiment_b1`'s table: `Frequency`, then the six it assigns. */
  lemma SetpointFrameNames(freqs: seq<int>, cells: seq<(Cell, Cell)>, stats: seq<Stats>)
    ensures Names(ApplyWrites(FrequencyFrame(freqs), SetpointWrites(cells, stats)))
            == [FREQUENCY, PV, SV, "Z Avg.", "Z Std.", "THR Avg.", "THR Std."]
  {
    var f0 := FrequencyFrame(freqs);
    var w := SetpointWrites(cells, stats);
    SetpointAppends(freqs, cells, stats);
    NamesConcat(f0, w);
    SetpointNames(cells, stats);
  }

  /** `Experiment_b1` leaves the `Frequency` column as it was. */
  lemma SetpointKeepsFrequency(freqs: seq<int>, cells: seq<(Cell, Cell)>, stats: seq<Stats>)
    ensures Lookup(ApplyWrites(FrequencyFrame(freqs), SetpointWrites(cells, stats)), FREQUENCY)
            == Lookup(FrequencyFrame(freqs), FREQUENCY)
  {
    var w := SetpointWrites(cells, stats);
    SetpointFresh(cells, stats);
    assert Names(FrequencyFrame(freqs)) == Names(FrequencyFrame([]));
    LastWriteNone(w, FREQUENCY);
    ApplyLookup(FrequencyFrame(freqs), w, FREQUENCY);
  }

  /** Each of the six assigned columns of `Experiment_b1` holds what was assigned to it. */
  lemma SetpointLookups(freqs: seq<int>, cells: seq<(Cell, Cell)>, stats: seq<Stats>)
    ensures var f := ApplyWrites(FrequencyFrame(freqs), SetpointWrites(cells, stats));
            Lookup(f, PV) == Some(ReadingCells(cells, true))
            && Lookup(f, SV) == Some(ReadingCells(cells, false))
            && Lookup(f, "Z Avg.") == Some(EntryCells(stats, 0))
            && Lookup(f, "Z Std.") == Some(EntryCells(stats, 1))
            && Lookup(f, "THR Avg.") == Some(EntryCells(stats, 2))
            && Lookup(f, "THR Std.") == Some(EntryCells(stats, 3))
  {
    var f0 := FrequencyFrame(freqs);
    var w := SetpointWrites(cells, stats);
    SetpointFresh(cells, stats);
    SetpointNames(cells, stats);
    FreshLookup(f0, w, 0);
    FreshLookup(f0, w, 1);
    FreshLookup(f0, w, 2);
    FreshLookup(f0, w, 3);
    FreshLookup(f0, w, 4);
    FreshLookup(f0, w, 5);
  }

  /** The columns of `Experiment_b1`, in order: `Frequency`, `PV`, `SV`, `Z Avg.`, `Z Std.`,
      `THR Avg.` and `THR Std.`; row `t` holds the reading and the averages taken at
      frequency `t`. */
  lemma SetpointColumns(freqs: seq<int>, cells: seq<(Cell, Cell)>, stats: seq<Stats>)
    ensures var f := ApplyWrites(FrequencyFrame(freqs), SetpointWrites(cells, stats));
            Names(f) == [FREQUENCY, PV, SV, "Z Avg.", "Z Std.", "THR Avg.", "THR Std."]
            && Lookup(f, FREQUENCY) == Lookup(FrequencyFrame(freqs), FREQUENCY)
            && Lookup(f, PV) == Some(ReadingCells(cells, true))
            && Lookup(f, SV) == Some(ReadingCells(cells, false))
            && Lookup(f, "Z Avg.") == Some(EntryCells(stats, 0))
            && Lookup(f, "Z Std.") == Some(EntryCells(stats, 1))
            && Lookup(f, "THR Avg.") == Some(EntryCells(stats, 2))
            && Lookup(f, "THR Std.") == Some(EntryCells(stats, 3))
  {
    SetpointFrameNames(freqs, cells, stats);
    SetpointKeepsFrequency(freqs, cells, stats);
    SetpointLookups(freqs, cells, stats);
  }

  /** The six column assignments at the end of `Experiment_b1`, in their order. */
  method StoreSetpointColumns(freqs: seq<int>, cells: seq<(Cell, Cell)>, stats: seq<Stats>) returns (g: Frame)
    ensures g == ApplyWrites(FrequencyFrame(freqs), SetpointWrites(cells, stats))
  {
    var df := FrequencyFrame(freqs);
    var rw := [Column(PV, ReadingCells(cells, true)), Column(SV, ReadingCells(cells, false))];
    g := Assign(df, PV, ReadingCells(cells, true));
    g := Assign(g, SV, ReadingCells(cells, false));
    PairApplied(df, rw);
    g := StoreBlock(g, EFF_MAIN, EFF_MINOR, stats);
    ApplyAppend(df, rw, BlockWrites(EFF_MAIN, EFF_MINOR, stats));
  }

  /** `Experiment_b1(ser, freqencies, voltage, biasVoltage, numMeasurements, ser2,
      set_temp)`: the controller started on `setpoint` (`set_temp*10`), the setup of the
      pair (Z, THR), and the frequency loop with one controller reading per frequency.
      The controller is left running. */
  method SetpointSweep(meter: SerialPort, controller: SerialPort, freqs: seq<int>, volt: string,
                       bias: Option<string>, n: nat, setpoint: Word, ghost read: ReplyReader)
    returns (r: Result<Frame>, ghost stats: seq<Stats>, ghost cells: seq<(Cell, Cell)>)
    requires meter != controller && Interprets(read, Missing)
    modifies meter, controller
    ensures old(controller.written) + StartFrames(setpoint) <= controller.written
    ensures r.Ok? ==> meter.written == old(meter.written) + EfficiencyTrace(volt, bias, freqs, n)
    ensures r.Ok? ==> controller.written == old(controller.written) + StartFrames(setpoint)
                                            + Repeat(READ_REQUEST, |freqs|)
    ensures r.Ok? ==> controller.pending == Drop(old(controller.pending), 2 + |freqs|)
    ensures r.Ok? ==> ReadFrom(cells, Drop(old(controller.pending), 2), read)
    ensures r.Ok? ==> |stats| == |freqs| && |cells| == |freqs|
    ensures r.Ok? ==> r.value == ApplyWrites(FrequencyFrame(freqs), SetpointWrites(cells, stats))
    ensures r.Ok? ==> Acks(old(meter.pending), |SetupTrace(volt, bias)| + 2).Some?
                      && Ok(stats) == AverageRun(Measure(n), Acks(old(meter.pending), |SetupTrace(volt, bias)| + 2).value,
                                                 |freqs|, n).averages
    ensures r.Err? ==> MeterFault(r.fault, n)
    ensures n == 0 && |freqs| > 0 ==> r.Err?
    ensures Remains(meter.pending, old(meter.pending))
  {
    stats, cells := [], [];
    StartRun(controller, setpoint);
    ghost var started := controller.written;
    ghost var polled := controller.pending;
    var acked := PairSetUp(meter, volt, bias, EFF_MAIN, EFF_MINOR);
    if !acked {
      r := Err(NoAcknowledgement);
    } else {
      ghost var mid := meter.pending;
      ghost var configured := meter.written;
      var m, got, waits := MeasureFrequenciesWithReadings(meter, controller, freqs, n, Missing, read);
      RemainsTrans(meter.pending, mid, old(meter.pending));
      assert started <= controller.written;
      if m.Err? {
        r := Err(m.fault);
      } else {
        stats, cells := m.value, got;
        var g := StoreSetpointColumns(freqs, got, m.value);
        r := Ok(g);
        ghost var pair := [CommandLine(MainCommand(EFF_MAIN)), CommandLine(MinorCommand(EFF_MINOR))];
        assert configured == old(meter.written) + SetupTrace(volt, bias) + pair;
        Regroup(old(meter.written), SetupTrace(volt, bias), pair);
        Regroup(old(meter.written), SetupTrace(volt, bias) + pair, FrequencyTrace(freqs, n));
        assert EfficiencyTrace(volt, bias, freqs, n) == SetupTrace(volt, bias) + pair + FrequencyTrace(freqs, n);
        DropDrop(old(controller.pending), 2, |freqs|);
        assert controller.pending == Drop(old(controller.pending), 2 + |freqs|);
      }
    }
  }
}
