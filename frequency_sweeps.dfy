/** `Experiment`, the frequency sweep over every main/minor parameter pair, and
    `Experiment_eff`, the same sweep for the single pair Z/THR.

    The table starts as one `Frequency` column. After the frequency loop of each pair it
    gets four assignments, `{k} Avg.`, `{k} Std.`, `{k}-{i} Avg.` and `{k}-{i} Std.`, so a
    later minor parameter overwrites the `{k}` columns of an earlier one. */
module FrequencySweeps {
  import opened Common
  import opened SerialLine
  import opened Statistics
  import opened Meter
  import opened Frames
  import opened Sequencing

  const AVG := " Avg."
  const STD := " Std."
  const FREQUENCY := "Frequency"

  /** `"-".join([k, i])`: the column name of a main/minor pair; `k` and `i` read back
      from either side of the hyphen after `k`. */
  function PairName(k: string, i: string): (name: string)
    ensures |name| == |k| + 1 + |i|
    ensures name[..|k|] == k && name[|k|] == '-' && name[|k| + 1..] == i
  {
    k + "-" + i
  }

  /** Entry `index` of each `DataAveraging` result, one cell per frequency. */
  function EntryCells(stats: seq<Stats>, index: nat): (cells: seq<Cell>)
    requires index < 4
    ensures |cells| == |stats|
    ensures forall t :: 0 <= t < |stats| ==> cells[t] == Real(Entry(stats[t], index))
  {
    seq(|stats|, t requires 0 <= t < |stats| => Real(Entry(stats[t], index)))
  }

  /** `pd.DataFrame(freqencies, columns = ['Frequency'])`. */
  function FrequencyFrame(freqs: seq<int>): (f: Frame)
    ensures Names(f) == [FREQUENCY] && Rectangular(f, |freqs|)
    ensures Lookup(f, FREQUENCY).Some?
    ensures forall t :: 0 <= t < |freqs| ==> Lookup(f, FREQUENCY).value[t] == Whole(freqs[t])
  {
    [Column(FREQUENCY, seq(|freqs|, t requires 0 <= t < |freqs| => Whole(freqs[t])))]
  }

  /** What one main/minor pair measured: one `DataAveraging` result per frequency. */
  datatype Block = Block(main: string, minor: string, stats: seq<Stats>)

  /** The four assignments after a frequency loop, for the major columns `main` and the
      minor columns `minorName`. */
  function BlockWrites(main: string, minorName: string, stats: seq<Stats>): seq<Column>
  {
    [Column(main + AVG, EntryCells(stats, 0)), Column(main + STD, EntryCells(stats, 1)),
     Column(minorName + AVG, EntryCells(stats, 2)), Column(minorName + STD, EntryCells(stats, 3))]
  }

  /** Every assignment of the sweep, pair after pair. */
  function SweepWrites(blocks: seq<Block>): seq<Column>
  {
    if |blocks| == 0 then []
    else
      var b := blocks[|blocks| - 1];
      SweepWrites(blocks[..|blocks| - 1]) + BlockWrites(b.main, PairName(b.main, b.minor), b.stats)
  }

  /** The table `Experiment` returns for the pairs it measured. */
  function SweepFrame(freqs: seq<int>, blocks: seq<Block>): Frame
  {
    ApplyWrites(FrequencyFrame(freqs), SweepWrites(blocks))
  }

  lemma {:induction false} SweepWritesAppend(a: seq<Block>, b: seq<Block>)
    ensures SweepWrites(a + b) == SweepWrites(a) + SweepWrites(b)
    decreases |b|
  {
    if |b| == 0 {
      assert a + b == a;
    } else {
      assert (a + b)[..|a + b| - 1] == a + b[..|b| - 1];
      assert (a + b)[|a + b| - 1] == b[|b| - 1];
      SweepWritesAppend(a, b[..|b| - 1]);
    }
  }

  /** The pairs `(k, i)` for one main parameter, in the order of the inner loop. */
  function Row(k: string, minors: seq<string>): (pairs: seq<(string, string)>)
    ensures |pairs| == |minors|
    ensures forall j :: 0 <= j < |minors| ==> pairs[j] == (k, minors[j])
  {
    seq(|minors|, j requires 0 <= j < |minors| => (k, minors[j]))
  }

  /** The pairs in the order of the nested loops: k outer, i inner. */
  function Pairs(mains: seq<string>, minors: seq<string>): seq<(string, string)>
  {
    if |mains| == 0 then [] else Pairs(mains[..|mains| - 1], minors) + Row(mains[|mains| - 1], minors)
  }

  /** Pair number `a * |minors| + b` is (main `a`, minor `b`): every pair is visited once,
      main after main. */
  lemma {:induction false} PairsOrder(mains: seq<string>, minors: seq<string>)
    ensures |Pairs(mains, minors)| == |mains| * |minors|
    ensures forall a, b :: 0 <= a < |mains| && 0 <= b < |minors| ==>
              Pairs(mains, minors)[a * |minors| + b] == (mains[a], minors[b])
  {
    if |mains| > 0 {
      var front := mains[..|mains| - 1];
      PairsOrder(front, minors);
      OneMore(|front|, |minors|);
      forall a, b | 0 <= a < |mains| && 0 <= b < |minors|
        ensures Pairs(mains, minors)[a * |minors| + b] == (mains[a], minors[b])
      {
        if a < |front| {
          MulBelow(a, b, |front|, |minors|);
          assert front[a] == mains[a];
        }
      }
    }
  }

  /** `a * m + b < f * m` when `a < f` and `b < m`. */
  lemma MulBelow(a: nat, b: nat, f: nat, m: nat)
    requires a < f && b < m
    ensures a * m + b < f * m
  {
    assert (a + 1) * m <= f * m;
  }

  /** The pairs the blocks were measured for. */
  function Keys(blocks: seq<Block>): (keys: seq<(string, string)>)
    ensures |keys| == |blocks|
    ensures forall b :: 0 <= b < |blocks| ==> keys[b] == (blocks[b].main, blocks[b].minor)
  {
    seq(|blocks|, b requires 0 <= b < |blocks| => (blocks[b].main, blocks[b].minor))
  }

  /** Each block holds one result per frequency. */
  predicate Fits(blocks: seq<Block>, freqs: seq<int>)
  {
    forall b :: 0 <= b < |blocks| ==> |blocks[b].stats| == |freqs|
  }

  /** No assignment of the sweep is to `Frequency`: every name ends in " Avg." or " Std.". */
  lemma {:induction false} NoFrequencyWrite(blocks: seq<Block>)
    ensures LastWrite(SweepWrites(blocks), FREQUENCY).None?
  {
    if |blocks| > 0 {
      var b := blocks[|blocks| - 1];
      NoFrequencyWrite(blocks[..|blocks| - 1]);
      NotFrequency(b.main);
      NotFrequency(PairName(b.main, b.minor));
      var w := BlockWrites(b.main, PairName(b.main, b.minor), b.stats);
      LastWriteNone(w, FREQUENCY);
      LastWriteAppend(SweepWrites(blocks[..|blocks| - 1]), w, FREQUENCY);
    }
  }

  lemma NotFrequency(x: string)
    ensures x + AVG != FREQUENCY && x + STD != FREQUENCY
  {
    if |x| + 5 == |FREQUENCY| {
      assert (x + AVG)[4] == ' ' && (x + STD)[4] == ' ';
    }
  }

  /** The last write to a name in `a + b` is in `b` if `b` writes the name at all. */
  lemma {:induction false} LastWriteAppend(a: seq<Column>, b: seq<Column>, name: string)
    ensures LastWrite(a + b, name) == if LastWrite(b, name).Some? then LastWrite(b, name) else LastWrite(a, name)
    decreases |b|
  {
    if |b| == 0 {
      assert a + b == a;
    } else {
      assert (a + b)[..|a + b| - 1] == a + b[..|b| - 1];
      assert (a + b)[|a + b| - 1] == b[|b| - 1];
      LastWriteAppend(a, b[..|b| - 1], name);
    }
  }

  /** Every assignment of a fitting sweep has one cell per frequency. */
  lemma {:induction false} SweepWritesFit(blocks: seq<Block>, freqs: seq<int>)
    requires Fits(blocks, freqs)
    ensures forall c :: 0 <= c < |SweepWrites(blocks)| ==> |SweepWrites(blocks)[c].cells| == |freqs|
  {
    if |blocks| > 0 {
      SweepWritesFit(blocks[..|blocks| - 1], freqs);
    }
  }

  /** The table has one row per frequency, and its `Frequency` column is still the
      frequencies it started with, in the first place. */
  lemma SweepFrameShape(freqs: seq<int>, blocks: seq<Block>)
    requires Fits(blocks, freqs)
    ensures Rectangular(SweepFrame(freqs, blocks), |freqs|)
    ensures Lookup(SweepFrame(freqs, blocks), FREQUENCY) == Lookup(FrequencyFrame(freqs), FREQUENCY)
    ensures |Names(SweepFrame(freqs, blocks))| >= 1 && Names(SweepFrame(freqs, blocks))[0] == FREQUENCY
  {
    SweepWritesFit(blocks, freqs);
    ApplyKeepsShape(FrequencyFrame(freqs), SweepWrites(blocks), |freqs|);
    NoFrequencyWrite(blocks);
    ApplyLookup(FrequencyFrame(freqs), SweepWrites(blocks), FREQUENCY);
    ApplyNames(FrequencyFrame(freqs), SweepWrites(blocks), FREQUENCY);
  }

  /** The four columns of the last pair hold its results: the `{k}` columns show the last
      minor parameter measured with `k`, whatever earlier pairs wrote there. */
  lemma LastPairWins(freqs: seq<int>, blocks: seq<Block>)
    requires |blocks| > 0
    ensures var b := blocks[|blocks| - 1];
            var f := SweepFrame(freqs, blocks);
            Lookup(f, b.main + AVG) == Some(EntryCells(b.stats, 0))
            && Lookup(f, b.main + STD) == Some(EntryCells(b.stats, 1))
            && Lookup(f, PairName(b.main, b.minor) + AVG) == Some(EntryCells(b.stats, 2))
            && Lookup(f, PairName(b.main, b.minor) + STD) == Some(EntryCells(b.stats, 3))
  {
    var b := blocks[|blocks| - 1];
    var front := SweepWrites(blocks[..|blocks| - 1]);
    var p := PairName(b.main, b.minor);
    var w := BlockWrites(b.main, p, b.stats);
    var all := SweepWrites(blocks);
    assert all == front + w;
    var f := |front|;
    assert all[f] == w[0] && all[f + 1] == w[1] && all[f + 2] == w[2] && all[f + 3] == w[3];
    assert (b.main + AVG)[|b.main| + 1] != (b.main + STD)[|b.main| + 1];
    assert (p + AVG)[|p| + 1] != (p + STD)[|p| + 1];
    LastWriteAt(all, f, b.main + AVG);
    LastWriteAt(all, f + 1, b.main + STD);
    LastWriteAt(all, f + 2, p + AVG);
    LastWriteAt(all, f + 3, p + STD);
    ApplyLookup(FrequencyFrame(freqs), all, b.main + AVG);
    ApplyLookup(FrequencyFrame(freqs), all, b.main + STD);
    ApplyLookup(FrequencyFrame(freqs), all, p + AVG);
    ApplyLookup(FrequencyFrame(freqs), all, p + STD);
  }

  /** The meter lines for one pair: `FUNC:IMP:B i`, then the frequency loop. */
  function PairTrace(i: string, freqs: seq<int>, n: nat): seq<string>
  {
    [CommandLine(MinorCommand(i))] + FrequencyTrace(freqs, n)
  }

  /** The meter lines of the inner loop for one main parameter, pair after pair. */
  function MinorsTrace(minors: seq<string>, freqs: seq<int>, n: nat): seq<string>
  {
    if |minors| == 0 then []
    else MinorsTrace(minors[..|minors| - 1], freqs, n) + PairTrace(minors[|minors| - 1], freqs, n)
  }

  /** The meter lines of the outer loop: `FUNC:IMP:A k`, then the inner loop, for each main
      parameter. */
  function MainsTrace(mains: seq<string>, minors: seq<string>, freqs: seq<int>, n: nat): seq<string>
  {
    if |mains| == 0 then []
    else
      MainsTrace(mains[..|mains| - 1], minors, freqs, n)
      + [CommandLine(MainCommand(mains[|mains| - 1]))] + MinorsTrace(minors, freqs, n)
  }

  /** Everything `Experiment` writes to the meter. */
  function SweepTrace(volt: string, bias: Option<string>, mains: seq<string>, minors: seq<string>,
                      freqs: seq<int>, n: nat): seq<string>
  {
    SetupTrace(volt, bias) + MainsTrace(mains, minors, freqs, n)
  }

  /** Each pair adds its `FUNC:IMP:B` line, which is neither kind, and one frequency pass. */
  lemma {:induction false} MinorsTraceCount(minors: seq<string>, freqs: seq<int>, n: nat, prefix: string, per: nat)
    requires prefix == FREQ_PREFIX || prefix == FETCH_PREFIX
    requires CountWhere(FrequencyTrace(freqs, n), prefix) == per
    ensures CountWhere(MinorsTrace(minors, freqs, n), prefix) == |minors| * per
  {
    if |minors| > 0 {
      var front := minors[..|minors| - 1];
      var i := minors[|minors| - 1];
      MinorsTraceCount(front, freqs, n, prefix, per);
      MinorLineKind(i, prefix);
      CountAppend([CommandLine(MinorCommand(i))], FrequencyTrace(freqs, n), prefix);
      CountAppend(MinorsTrace(front, freqs, n), PairTrace(i, freqs, n), prefix);
      OneMore(|front|, per);
    }
  }

  /** Each main parameter adds its `FUNC:IMP:A` line, which is neither kind, and one inner
      loop. */
  lemma {:induction false} MainsTraceCount(mains: seq<string>, minors: seq<string>, freqs: seq<int>, n: nat,
                                           prefix: string, per: nat)
    requires prefix == FREQ_PREFIX || prefix == FETCH_PREFIX
    requires CountWhere(MinorsTrace(minors, freqs, n), prefix) == per
    ensures CountWhere(MainsTrace(mains, minors, freqs, n), prefix) == |mains| * per
  {
    if |mains| > 0 {
      var front := mains[..|mains| - 1];
      var head := MainsTrace(front, minors, freqs, n);
      var line := [CommandLine(MainCommand(mains[|mains| - 1]))];
      MainsTraceCount(front, minors, freqs, n, prefix, per);
      MainLineKind(mains[|mains| - 1], prefix);
      CountAppend(head, line, prefix);
      CountAppend(head + line, MinorsTrace(minors, freqs, n), prefix);
      OneMore(|front|, per);
    }
  }

  /** `Experiment` sends one `FREQ` command per pair and frequency, and `n` fetches after
      each. */
  lemma SweepTraceCounts(volt: string, bias: Option<string>, mains: seq<string>, minors: seq<string>,
                         freqs: seq<int>, n: nat)
    ensures CountWhere(SweepTrace(volt, bias, mains, minors, freqs, n), FREQ_PREFIX)
            == |mains| * (|minors| * |freqs|)
    ensures CountWhere(SweepTrace(volt, bias, mains, minors, freqs, n), FETCH_PREFIX)
            == |mains| * (|minors| * |freqs|) * n
  {
    FrequencyTraceCounts(freqs, n);
    MinorsTraceCount(minors, freqs, n, FREQ_PREFIX, |freqs|);
    MinorsTraceCount(minors, freqs, n, FETCH_PREFIX, |freqs| * n);
    MainsTraceCount(mains, minors, freqs, n, FREQ_PREFIX, |minors| * |freqs|);
    MainsTraceCount(mains, minors, freqs, n, FETCH_PREFIX, |minors| * (|freqs| * n));
    SetupCounts(volt, bias, FREQ_PREFIX);
    SetupCounts(volt, bias, FETCH_PREFIX);
    CountAppend(SetupTrace(volt, bias), MainsTrace(mains, minors, freqs, n), FREQ_PREFIX);
    CountAppend(SetupTrace(volt, bias), MainsTrace(mains, minors, freqs, n), FETCH_PREFIX);
    MulAssoc(|mains|, |minors|, |freqs|, n);
  }

  lemma MulAssoc(a: nat, b: nat, c: nat, d: nat)
    ensures a * (b * (c * d)) == a * (b * c) * d
  {
  }

  /** The blocks measured so far for main parameter `k` are its first pairs, in order. */
  predicate InRow(blocks: seq<Block>, k: string, minors: seq<string>)
  {
    |blocks| <= |minors| && forall b :: 0 <= b < |blocks| ==> blocks[b].main == k && blocks[b].minor == minors[b]
  }

  lemma GrowRow(blocks: seq<Block>, k: string, minors: seq<string>, c: nat, stats: seq<Stats>, freqs: seq<int>)
    requires c == |blocks| < |minors| && InRow(blocks, k, minors) && Fits(blocks, freqs) && |stats| == |freqs|
    ensures InRow(blocks + [Block(k, minors[c], stats)], k, minors)
    ensures Fits(blocks + [Block(k, minors[c], stats)], freqs)
  {
  }

  /** One pair: `FUNC:IMP:B i`, the frequency loop, and the four column assignments. */
  method MeasurePair(meter: SerialPort, k: string, i: string, freqs: seq<int>, n: nat, df: Frame)
    returns (r: Result<Frame>, ghost stats: seq<Stats>)
    modifies meter
    ensures r.Ok? ==> meter.written == old(meter.written) + PairTrace(i, freqs, n)
    ensures r.Ok? ==> |stats| == |freqs| && r.value == ApplyWrites(df, BlockWrites(k, PairName(k, i), stats))
    ensures r.Ok? ==> AckIndex(old(meter.pending)).Some?
                      && Ok(stats) == AverageRun(Measure(n), AfterAck(old(meter.pending)), |freqs|, n).averages
    ensures r.Err? ==> MeterFault(r.fault, n)
    ensures n == 0 && |freqs| > 0 ==> r.Err?
    ensures Remains(meter.pending, old(meter.pending))
  {
    stats := [];
    var acked := Command(meter, MinorCommand(i));
    if !acked {
      r := Err(NoAcknowledgement);
    } else {
      ghost var mid := meter.pending;
      var m, waits := MeasureFrequencies(meter, freqs, n);
      RemainsTrans(meter.pending, mid, old(meter.pending));
      if m.Err? {
        r := Err(m.fault);
      } else {
        stats := m.value;
        var g := StoreBlock(df, k, PairName(k, i), m.value);
        Regroup(old(meter.written), [CommandLine(MinorCommand(i))], FrequencyTrace(freqs, n));
        r := Ok(g);
      }
    }
  }

  /** The inner loop for one main parameter `k`: for each minor parameter, `FUNC:IMP:B i`,
      the frequency loop, and the four column assignments to `df`. */
  method MeasureMain(meter: SerialPort, k: string, minors: seq<string>, freqs: seq<int>, n: nat, df: Frame)
    returns (r: Result<Frame>, ghost blocks: seq<Block>)
    modifies meter
    ensures r.Ok? ==> meter.written == old(meter.written) + MinorsTrace(minors, freqs, n)
    ensures r.Ok? ==> Keys(blocks) == Row(k, minors) && Fits(blocks, freqs)
    ensures r.Ok? ==> r.value == ApplyWrites(df, SweepWrites(blocks))
    ensures r.Err? ==> r.fault in {NoAcknowledgement, ValueError, IndexError}
    ensures r.Err? && r.fault == IndexError ==> n == 0
    ensures n == 0 && |minors| > 0 && |freqs| > 0 ==> r.Err?
    ensures Remains(meter.pending, old(meter.pending))
  {
    var frame := df;
    blocks := [];
    var c := 0;
    while c < |minors|
      invariant 0 <= c <= |minors| && |blocks| == c
      invariant meter.written == old(meter.written) + MinorsTrace(minors[..c], freqs, n)
      invariant InRow(blocks, k, minors) && Fits(blocks, freqs)
      invariant frame == ApplyWrites(df, SweepWrites(blocks))
      invariant n == 0 && |freqs| > 0 ==> c == 0
      invariant Remains(meter.pending, old(meter.pending))
    {
      ghost var before := meter.pending;
      ghost var sent := meter.written;
      var m;
      ghost var stats;
      m, stats := MeasurePair(meter, k, minors[c], freqs, n, frame);
      RemainsTrans(meter.pending, before, old(meter.pending));
      if m.Err? {
        return Err(m.fault), blocks;
      }
      frame := m.value;
      GrowMain(df, blocks, k, minors, c, stats, freqs, frame);
      GrowMinorsTrace(old(meter.written), sent, meter.written, minors, c, freqs, n);
      blocks := blocks + [Block(k, minors[c], stats)];
      c := c + 1;
    }
    assert minors[..c] == minors;
    assert Keys(blocks) == Row(k, minors);
    r := Ok(frame);
  }

  /** The pair measured at `c` extends the blocks, and its four assignments extend the table. */
  lemma GrowMain(df: Frame, blocks: seq<Block>, k: string, minors: seq<string>, c: nat, stats: seq<Stats>,
                 freqs: seq<int>, frame: Frame)
    requires c == |blocks| < |minors| && InRow(blocks, k, minors) && Fits(blocks, freqs) && |stats| == |freqs|
    requires frame == ApplyWrites(ApplyWrites(df, SweepWrites(blocks)), BlockWrites(k, PairName(k, minors[c]), stats))
    ensures InRow(blocks + [Block(k, minors[c], stats)], k, minors)
    ensures Fits(blocks + [Block(k, minors[c], stats)], freqs)
    ensures frame == ApplyWrites(df, SweepWrites(blocks + [Block(k, minors[c], stats)]))
  {
    ApplyAppend(df, SweepWrites(blocks), BlockWrites(k, PairName(k, minors[c]), stats));
    SweepWritesSnoc(blocks, Block(k, minors[c], stats));
    GrowRow(blocks, k, minors, c, stats, freqs);
  }

  /** The pair at `c` written after the first `c` pairs' trace is the trace of `c + 1` pairs. */
  lemma GrowMinorsTrace(start: seq<string>, sent: seq<string>, written: seq<string>, minors: seq<string>, c: nat,
                        freqs: seq<int>, n: nat)
    requires c < |minors| && sent == start + MinorsTrace(minors[..c], freqs, n)
    requires written == sent + PairTrace(minors[c], freqs, n)
    ensures written == start + MinorsTrace(minors[..c + 1], freqs, n)
  {
    MinorsTraceSnoc(minors, c, freqs, n);
    Regroup(start, MinorsTrace(minors[..c], freqs, n), PairTrace(minors[c], freqs, n));
  }

  /** Four assignments in a row are `ApplyWrites` of the four. */
  lemma BlockApplied(f: Frame, w: seq<Column>)
    requires |w| == 4
    ensures ApplyWrites(f, w)
            == Assign(Assign(Assign(Assign(f, w[0].name, w[0].cells), w[1].name, w[1].cells),
                             w[2].name, w[2].cells), w[3].name, w[3].cells)
  {
    assert w[..1][..0] == [] && w[..1][0] == w[0];
    assert ApplyWrites(f, w[..1]) == Assign(f, w[0].name, w[0].cells);
    assert w[..2][..1] == w[..1] && w[..2][1] == w[1];
    assert ApplyWrites(f, w[..2]) == Assign(ApplyWrites(f, w[..1]), w[1].name, w[1].cells);
    assert w[..3][..2] == w[..2] && w[..3][2] == w[2];
    assert ApplyWrites(f, w[..3]) == Assign(ApplyWrites(f, w[..2]), w[2].name, w[2].cells);
    assert w[..|w| - 1] == w[..3];
  }

  lemma SweepWritesSnoc(blocks: seq<Block>, b: Block)
    ensures SweepWrites(blocks + [b]) == SweepWrites(blocks) + BlockWrites(b.main, PairName(b.main, b.minor), b.stats)
  {
    assert (blocks + [b])[..|blocks|] == blocks;
  }

  lemma MinorsTraceSnoc(minors: seq<string>, c: nat, freqs: seq<int>, n: nat)
    requires c < |minors|
    ensures MinorsTrace(minors[..c + 1], freqs, n) == MinorsTrace(minors[..c], freqs, n) + PairTrace(minors[c], freqs, n)
  {
    assert minors[..c + 1][..c] == minors[..c];
  }

  /** The four column assignments after a frequency loop, in their order. */
  method StoreBlock(df: Frame, main: string, minorName: string, stats: seq<Stats>) returns (g: Frame)
    ensures g == ApplyWrites(df, BlockWrites(main, minorName, stats))
  {
    g := Assign(df, main + AVG, EntryCells(stats, 0));
    g := Assign(g, main + STD, EntryCells(stats, 1));
    g := Assign(g, minorName + AVG, EntryCells(stats, 2));
    g := Assign(g, minorName + STD, EntryCells(stats, 3));
    BlockApplied(df, BlockWrites(main, minorName, stats));
  }

  /** The outer loop after `mains[..a]`, followed by main `mains[a]`, is the outer loop after
      `mains[..a + 1]`. */
  lemma MainsTraceSnoc(start: seq<string>, mains: seq<string>, a: nat, minors: seq<string>,
                       freqs: seq<int>, n: nat)
    requires a < |mains|
    ensures start + MainsTrace(mains[..a], minors, freqs, n)
              + ([CommandLine(MainCommand(mains[a]))] + MinorsTrace(minors, freqs, n))
            == start + MainsTrace(mains[..a + 1], minors, freqs, n)
  {
    assert mains[..a + 1][..a] == mains[..a];
    var head := MainsTrace(mains[..a], minors, freqs, n);
    var step := [CommandLine(MainCommand(mains[a]))] + MinorsTrace(minors, freqs, n);
    Regroup(head, [CommandLine(MainCommand(mains[a]))], MinorsTrace(minors, freqs, n));
    Regroup(start, head, step);
  }

  /** The blocks of `mains[..a]` followed by the row of `mains[a]` are the blocks of
      `mains[..a + 1]`. */
  lemma GrowPairs(blocks: seq<Block>, more: seq<Block>, mains: seq<string>, a: nat,
                  minors: seq<string>, freqs: seq<int>)
    requires a < |mains|
    requires Keys(blocks) == Pairs(mains[..a], minors) && Fits(blocks, freqs)
    requires Keys(more) == Row(mains[a], minors) && Fits(more, freqs)
    ensures Keys(blocks + more) == Pairs(mains[..a + 1], minors) && Fits(blocks + more, freqs)
  {
    assert mains[..a + 1][..a] == mains[..a];
    assert Keys(blocks + more) == Keys(blocks) + Keys(more);
  }

  /** One pass of the outer loop: `FUNC:IMP:A k`, then the inner loop over the minors. */
  method SweepMain(meter: SerialPort, k: string, minors: seq<string>, freqs: seq<int>, n: nat, df: Frame)
    returns (r: Result<Frame>, ghost more: seq<Block>)
    modifies meter
    ensures r.Ok? ==> meter.written
                      == old(meter.written) + ([CommandLine(MainCommand(k))] + MinorsTrace(minors, freqs, n))
    ensures r.Ok? ==> Keys(more) == Row(k, minors) && Fits(more, freqs)
    ensures r.Ok? ==> r.value == ApplyWrites(df, SweepWrites(more))
    ensures r.Err? ==> MeterFault(r.fault, n)
    ensures n == 0 && |minors| > 0 && |freqs| > 0 ==> r.Err?
    ensures Remains(meter.pending, old(meter.pending))
  {
    more := [];
    var acked := Command(meter, MainCommand(k));
    if !acked {
      r := Err(NoAcknowledgement);
    } else {
      ghost var mid := meter.pending;
      r, more := MeasureMain(meter, k, minors, freqs, n, df);
      RemainsTrans(meter.pending, mid, old(meter.pending));
      if r.Ok? {
        Regroup(old(meter.written), [CommandLine(MainCommand(k))], MinorsTrace(minors, freqs, n));
      }
    }
  }

  /** The outer loop of `Experiment`: one `FUNC:IMP:A k` and its inner loop per main
      parameter, writing into the frequency table. */
  method SweepMains(meter: SerialPort, freqs: seq<int>, mains: seq<string>, minors: seq<string>, n: nat)
    returns (r: Result<Frame>, ghost blocks: seq<Block>)
    modifies meter
    ensures r.Ok? ==> meter.written == old(meter.written) + MainsTrace(mains, minors, freqs, n)
    ensures r.Ok? ==> Keys(blocks) == Pairs(mains, minors) && Fits(blocks, freqs)
    ensures r.Ok? ==> r.value == SweepFrame(freqs, blocks)
    ensures r.Err? ==> MeterFault(r.fault, n)
    ensures n == 0 && |mains| > 0 && |minors| > 0 && |freqs| > 0 ==> r.Err?
    ensures Remains(meter.pending, old(meter.pending))
  {
    var df := FrequencyFrame(freqs);
    blocks := [];
    var a := 0;
    while a < |mains|
      invariant 0 <= a <= |mains|
      invariant meter.written == old(meter.written) + MainsTrace(mains[..a], minors, freqs, n)
      invariant Keys(blocks) == Pairs(mains[..a], minors) && Fits(blocks, freqs)
      invariant df == SweepFrame(freqs, blocks)
      invariant n == 0 && |minors| > 0 && |freqs| > 0 ==> a == 0
      invariant Remains(meter.pending, old(meter.pending))
    {
      ghost var before := meter.pending;
      var m;
      ghost var more;
      m, more := SweepMain(meter, mains[a], minors, freqs, n, df);
      RemainsTrans(meter.pending, before, old(meter.pending));
      if m.Err? {
        return Err(m.fault), blocks;
      }
      GrowMains(freqs, blocks, more, mains, a, minors, df, m.value);
      MainsTraceSnoc(old(meter.written), mains, a, minors, freqs, n);
      df := m.value;
      blocks := blocks + more;
      a := a + 1;
    }
    assert mains[..a] == mains;
    r := Ok(df);
  }

  /** The row of `mains[a]` measured after the blocks of `mains[..a]` extends the blocks and
      the table. */
  lemma GrowMains(freqs: seq<int>, blocks: seq<Block>, more: seq<Block>, mains: seq<string>, a: nat,
                  minors: seq<string>, df: Frame, frame: Frame)
    requires a < |mains|
    requires Keys(blocks) == Pairs(mains[..a], minors) && Fits(blocks, freqs) && df == SweepFrame(freqs, blocks)
    requires Keys(more) == Row(mains[a], minors) && Fits(more, freqs) && frame == ApplyWrites(df, SweepWrites(more))
    ensures Keys(blocks + more) == Pairs(mains[..a + 1], minors) && Fits(blocks + more, freqs)
    ensures frame == SweepFrame(freqs, blocks + more)
  {
    SweepWritesAppend(blocks, more);
    ApplyAppend(FrequencyFrame(freqs), SweepWrites(blocks), SweepWrites(more));
    GrowPairs(blocks, more, mains, a, minors, freqs);
  }

  /** `Experiment(ser, freqencies, mainMeasurement, minorMeasurement, voltage,
      biasVoltage, numMeasurements)`. */
  method FrequencySweep(meter: SerialPort, freqs: seq<int>, mains: seq<string>, minors: seq<string>,
                        volt: string, bias: Option<string>, n: nat)
    returns (r: Result<Frame>, ghost blocks: seq<Block>)
    modifies meter
    ensures r.Ok? ==> meter.written == old(meter.written) + SweepTrace(volt, bias, mains, minors, freqs, n)
    ensures r.Ok? ==> Keys(blocks) == Pairs(mains, minors) && Fits(blocks, freqs)
    ensures r.Ok? ==> r.value == SweepFrame(freqs, blocks)
    ensures r.Err? ==> MeterFault(r.fault, n)
    ensures n == 0 && |mains| > 0 && |minors| > 0 && |freqs| > 0 ==> r.Err?
    ensures Remains(meter.pending, old(meter.pending))
  {
    blocks := [];
    var acked := SetUp(meter, volt, bias);
    if !acked {
      r := Err(NoAcknowledgement);
    } else {
      ghost var start := meter.written;
      ghost var mid := meter.pending;
      r, blocks := SweepMains(meter, freqs, mains, minors, n);
      RemainsTrans(meter.pending, mid, old(meter.pending));
      if r.Ok? {
        Regroup(old(meter.written), SetupTrace(volt, bias), MainsTrace(mains, minors, freqs, n));
      }
    }
  }

  /** `Experiment_eff` fixes the pair to impedance `Z` and phase `THR`. */
  const EFF_MAIN := "Z"
  const EFF_MINOR := "THR"

  /** Everything `Experiment_eff` writes to the meter. */
  function EfficiencyTrace(volt: string, bias: Option<string>, freqs: seq<int>, n: nat): seq<string>
  {
    SetupTrace(volt, bias) + [CommandLine(MainCommand(EFF_MAIN)), CommandLine(MinorCommand(EFF_MINOR))]
    + FrequencyTrace(freqs, n)
  }

  /** `Experiment` with a single pair sends the setup, `FUNC:IMP:A k`, `FUNC:IMP:B i` and the
      frequency loop. */
  lemma SinglePairTrace(volt: string, bias: Option<string>, k: string, i: string, freqs: seq<int>, n: nat)
    ensures SweepTrace(volt, bias, [k], [i], freqs, n)
            == SetupTrace(volt, bias) + [CommandLine(MainCommand(k)), CommandLine(MinorCommand(i))]
               + FrequencyTrace(freqs, n)
  {
    var a := CommandLine(MainCommand(k));
    var b := CommandLine(MinorCommand(i));
    var rest := FrequencyTrace(freqs, n);
    assert [k][..0] == [] && [i][..0] == [];
    assert MinorsTrace([i], freqs, n) == [b] + rest;
    assert MainsTrace([k], [i], freqs, n) == [a] + ([b] + rest);
    Regroup([a], [b], rest);
    assert [a] + [b] == [a, b];
    Regroup(SetupTrace(volt, bias), [a, b], rest);
  }

  /** On the meter line, `Experiment_eff` is `Experiment` with the one pair (Z, THR). */
  lemma EfficiencyTraceIsSweep(volt: string, bias: Option<string>, freqs: seq<int>, n: nat)
    ensures EfficiencyTrace(volt, bias, freqs, n) == SweepTrace(volt, bias, [EFF_MAIN], [EFF_MINOR], freqs, n)
  {
    SinglePairTrace(volt, bias, EFF_MAIN, EFF_MINOR, freqs, n);
  }

  /** The four assignments of one pair on a frame holding only `Frequency` add the four
      columns, in order, each holding its entry of every frequency's result. */
  lemma SinglePairColumns(freqs: seq<int>, main: string, minorName: string, stats: seq<Stats>)
    requires main + AVG != main + STD && minorName + AVG != minorName + STD
    requires main + AVG != minorName + AVG && main + STD != minorName + STD
    requires main + AVG != minorName + STD && main + STD != minorName + AVG
    requires FREQUENCY !in [main + AVG, main + STD, minorName + AVG, minorName + STD]
    ensures var f := ApplyWrites(FrequencyFrame(freqs), BlockWrites(main, minorName, stats));
            Names(f) == [FREQUENCY, main + AVG, main + STD, minorName + AVG, minorName + STD]
            && Lookup(f, FREQUENCY) == Lookup(FrequencyFrame(freqs), FREQUENCY)
            && Lookup(f, main + AVG) == Some(EntryCells(stats, 0))
            && Lookup(f, main + STD) == Some(EntryCells(stats, 1))
            && Lookup(f, minorName + AVG) == Some(EntryCells(stats, 2))
            && Lookup(f, minorName + STD) == Some(EntryCells(stats, 3))
  {
    var f0 := FrequencyFrame(freqs);
    var w := BlockWrites(main, minorName, stats);
    ApplyFresh(f0, w);
    var f := f0 + w;
    assert Names(f) == [FREQUENCY, w[0].name, w[1].name, w[2].name, w[3].name];
    assert Lookup(f, FREQUENCY) == Lookup(f0, FREQUENCY) by {
      LastWriteNone(w, FREQUENCY);
      ApplyLookup(f0, w, FREQUENCY);
    }
    assert Lookup(f, w[0].name) == Some(w[0].cells) by {
      LastWriteAt(w, 0, w[0].name);
      ApplyLookup(f0, w, w[0].name);
    }
    assert Lookup(f, w[1].name) == Some(w[1].cells) by {
      LastWriteAt(w, 1, w[1].name);
      ApplyLookup(f0, w, w[1].name);
    }
    assert Lookup(f, w[2].name) == Some(w[2].cells) by {
      LastWriteAt(w, 2, w[2].name);
      ApplyLookup(f0, w, w[2].name);
    }
    assert Lookup(f, w[3].name) == Some(w[3].cells) by {
      LastWriteAt(w, 3, w[3].name);
      ApplyLookup(f0, w, w[3].name);
    }
  }

  /** The columns of `Experiment_eff`: `Frequency`, then `Z Avg.`, `Z Std.`, `THR Avg.` and
      `THR Std.`, each holding its entry of every frequency's result. Unlike `Experiment` on
      the same pair, the minor columns are not named `Z-THR`. */
  lemma EfficiencyColumns(freqs: seq<int>, stats: seq<Stats>)
    ensures var f := ApplyWrites(FrequencyFrame(freqs), BlockWrites(EFF_MAIN, EFF_MINOR, stats));
            Names(f) == [FREQUENCY, "Z Avg.", "Z Std.", "THR Avg.", "THR Std."]
            && Lookup(f, FREQUENCY) == Lookup(FrequencyFrame(freqs), FREQUENCY)
            && Lookup(f, "Z Avg.") == Some(EntryCells(stats, 0))
            && Lookup(f, "Z Std.") == Some(EntryCells(stats, 1))
            && Lookup(f, "THR Avg.") == Some(EntryCells(stats, 2))
            && Lookup(f, "THR Std.") == Some(EntryCells(stats, 3))
  {
    assert EFF_MAIN + AVG == "Z Avg." && EFF_MAIN + STD == "Z Std.";
    assert EFF_MINOR + AVG == "THR Avg." && EFF_MINOR + STD == "THR Std.";
    assert "Z Avg."[2] != "Z Std."[2] && "THR Avg."[4] != "THR Std."[4];
    assert "Z Avg."[0] != "THR Avg."[0];
    assert FREQUENCY[0] != "Z Avg."[0] && FREQUENCY[0] != "THR Avg."[0];
    SinglePairColumns(freqs, EFF_MAIN, EFF_MINOR, stats);
  }

  /** The setup followed by a fixed pair: `VOLT`, the optional `BIAS:VOLT`, `FUNC:IMP:A k`
      and `FUNC:IMP:B i`, each waiting for its acknowledgement; the first one missing
      stops the setup. */
  method PairSetUp(meter: SerialPort, volt: string, bias: Option<string>, k: string, i: string)
    returns (acked: bool)
    modifies meter
    ensures acked ==> meter.written == old(meter.written) + SetupTrace(volt, bias)
                                       + [CommandLine(MainCommand(k)), CommandLine(MinorCommand(i))]
    ensures AckedRun(old(meter.pending), |SetupTrace(volt, bias)| + 2, acked, meter.pending)
    ensures Remains(meter.pending, old(meter.pending))
  {
    ghost var lines := meter.pending;
    ghost var s := |SetupTrace(volt, bias)|;
    acked := SetUp(meter, volt, bias);
    ghost var start := meter.written;
    ghost var acked0, rest0 := acked, meter.pending;
    if acked {
      acked := Command(meter, MainCommand(k));
    }
    AckedRunMore(lines, s, acked0, rest0, acked, meter.pending);
    ghost var acked1, rest1 := acked, meter.pending;
    if acked {
      acked := Command(meter, MinorCommand(i));
      Regroup(start, [CommandLine(MainCommand(k))], [CommandLine(MinorCommand(i))]);
      assert [CommandLine(MainCommand(k))] + [CommandLine(MinorCommand(i))]
             == [CommandLine(MainCommand(k)), CommandLine(MinorCommand(i))];
    }
    AckedRunMore(lines, s + 1, acked1, rest1, acked, meter.pending);
    AcksRemain(lines, s + 2);
  }

  /** The setup, a fixed pair `k`, `i`, the frequency loop and the four column assignments,
      with the minor columns named after `i` alone. */
  method FixedPairSweep(meter: SerialPort, freqs: seq<int>, k: string, i: string, volt: string,
                        bias: Option<string>, n: nat)
    returns (r: Result<Frame>, ghost stats: seq<Stats>)
    modifies meter
    ensures r.Ok? ==> meter.written == old(meter.written) + SetupTrace(volt, bias)
                      + [CommandLine(MainCommand(k)), CommandLine(MinorCommand(i))] + FrequencyTrace(freqs, n)
    ensures r.Ok? ==> |stats| == |freqs|
    ensures r.Ok? ==> r.value == ApplyWrites(FrequencyFrame(freqs), BlockWrites(k, i, stats))
    ensures r.Ok? ==> Acks(old(meter.pending), |SetupTrace(volt, bias)| + 2).Some?
                      && Ok(stats) == AverageRun(Measure(n), Acks(old(meter.pending), |SetupTrace(volt, bias)| + 2).value,
                                                 |freqs|, n).averages
    ensures r.Err? ==> MeterFault(r.fault, n)
    ensures n == 0 && |freqs| > 0 ==> r.Err?
    ensures Remains(meter.pending, old(meter.pending))
  {
    stats := [];
    var acked := PairSetUp(meter, volt, bias, k, i);
    if !acked {
      r := Err(NoAcknowledgement);
    } else {
      ghost var before := meter.pending;
      var m, waits := MeasureFrequencies(meter, freqs, n);
      RemainsTrans(meter.pending, before, old(meter.pending));
      if m.Err? {
        r := Err(m.fault);
      } else {
        stats := m.value;
        var df := StoreBlock(FrequencyFrame(freqs), k, i, m.value);
        r := Ok(df);
      }
    }
  }

  /** `Experiment_eff(ser, freqencies, voltage, biasVoltage, numMeasurements)`: the setup,
      the fixed pair (Z, THR), the frequency loop and the four column assignments. */
  method EfficiencySweep(meter: SerialPort, freqs: seq<int>, volt: string, bias: Option<string>, n: nat)
    returns (r: Result<Frame>, ghost stats: seq<Stats>)
    modifies meter
    ensures r.Ok? ==> meter.written == old(meter.written) + EfficiencyTrace(volt, bias, freqs, n)
    ensures r.Ok? ==> |stats| == |freqs|
    ensures r.Ok? ==> r.value == ApplyWrites(FrequencyFrame(freqs), BlockWrites(EFF_MAIN, EFF_MINOR, stats))
    ensures r.Ok? ==> Acks(old(meter.pending), |SetupTrace(volt, bias)| + 2).Some?
                      && Ok(stats) == AverageRun(Measure(n), Acks(old(meter.pending), |SetupTrace(volt, bias)| + 2).value,
                                                 |freqs|, n).averages
    ensures r.Err? ==> MeterFault(r.fault, n)
    ensures n == 0 && |freqs| > 0 ==> r.Err?
    ensures Remains(meter.pending, old(meter.pending))
  {
    r, stats := FixedPairSweep(meter, freqs, EFF_MAIN, EFF_MINOR, volt, bias, n);
    if r.Ok? {
      ghost var setup, pair := SetupTrace(volt, bias), [CommandLine(MainCommand(EFF_MAIN)), CommandLine(MinorCommand(EFF_MINOR))];
      ghost var loop := FrequencyTrace(freqs, n);
      Regroup(old(meter.written) + setup, pair, loop);
      Regroup(old(meter.written), setup, pair + loop);
      Regroup(setup, pair, loop);
    }
  }
}
