/** The steps the temperature sweeps build their loops from: one `PIDDataReadout` turned
    into the PV and SV cells of a row, and the frequency loop of `Experiment3` and
    `Experiment_b1`, which reads the controller after each `FREQ` command. */
module TemperatureReads {
  import opened Common
  import opened SerialLine
  import opened FrameCodec
  import opened Controller
  import opened Readings
  import opened Frames
  import opened Statistics
  import opened Meter
  import opened Sequencing

  /** The PV and SV cells a sweep makes of one reply line of the controller, with
      `unavailable` (None or nan) for a reply that is not a reading. Only the LRC
      recomputation of `PIDDataReadout` can raise. */
  function CellsOf(line: string, unavailable: Cell): (r: Result<(Cell, Cell)>)
    ensures !StartsWith(Strip(line), ":") ==> r == Ok((unavailable, unavailable))
    ensures r.Err? ==> r.fault == ValueError
    ensures r.Ok? ==> (r.value.0.Tenths? && r.value.1.Tenths?) || r.value == (unavailable, unavailable)
  {
    match DecodeReply(Strip(line))
    case Err(e) => Err(e)
    case Ok(readout) =>
      CellsAreReadingsOrMarker(readout, unavailable);
      Ok(TemperatureCells(TemperatureOf(readout), unavailable))
  }

  /** A well-formed reply line lands in the row as its two register values. */
  lemma CellsOfReplyFrame(pv: Word, sv: Word, unavailable: Cell)
    ensures CellsOf(ReplyFrame(pv, sv), unavailable) == Ok((Tenths(pv), Tenths(sv)))
  {
    ReplyFrameCells(pv, sv, unavailable);
  }

  /** A reply whose LRC field was corrupted lands in the row as the marker. */
  lemma CellsOfCorruptedReply(pv: Word, sv: Word, l: string, unavailable: Cell)
    requires |l| == 2 && LrcOf(ReplyBody(pv, sv)) != Ok(l)
    requires Strip(":" + ReplyBody(pv, sv) + l) == ":" + ReplyBody(pv, sv) + l
    ensures CellsOf(":" + ReplyBody(pv, sv) + l, unavailable) == Ok((unavailable, unavailable))
  {
    CorruptedLrcShowsLetters(pv, sv, l, unavailable, true, 0);
  }

  /** `temp = PIDDataReadout(ser2)` and the choice of PV and SV that follows it. */
  method ReadCells(controller: SerialPort, unavailable: Cell) returns (r: Result<(Cell, Cell)>)
    modifies controller
    ensures controller.written == old(controller.written) + [READ_REQUEST]
    ensures controller.pending == Drop(old(controller.pending), 1)
    ensures r == CellsOf(LineAt(old(controller.pending), 0), unavailable)
  {
    var readout := ReadTemperature(controller);
    if readout.Err? {
      r := Err(readout.fault);
    } else {
      r := Ok(TemperatureCells(TemperatureOf(readout.value), unavailable));
    }
  }

  /** How a sweep reads one reply line of the controller. The loops are stated for any
      `read` that `Interprets` replies as `CellsOf` does, so that their proofs never
      need to take a reply apart. */
  type ReplyReader = string -> Result<(Cell, Cell)>

  ghost predicate Interprets(read: ReplyReader, unavailable: Cell)
  {
    forall line {:trigger CellsOf(line, unavailable)} :: read(line) == CellsOf(line, unavailable)
  }

  /** `CellsOf` itself, as a reader. */
  function Reader(unavailable: Cell): (read: ReplyReader)
    ensures Interprets(read, unavailable)
  {
    line => CellsOf(line, unavailable)
  }

  /** Every reading of `cells` is what the reply of the same index in `lines` reads as. */
  predicate ReadFrom(cells: seq<(Cell, Cell)>, lines: seq<string>, read: ReplyReader)
  {
    forall t :: 0 <= t < |cells| ==> read(LineAt(lines, t)) == Ok(cells[t])
  }

  /** Reading `t` is what `CellsOf` makes of reply `t`. */
  lemma ReadingIsReply(cells: seq<(Cell, Cell)>, lines: seq<string>, read: ReplyReader, unavailable: Cell, t: nat)
    requires Interprets(read, unavailable) && ReadFrom(cells, lines, read) && t < |cells|
    ensures CellsOf(LineAt(lines, t), unavailable) == Ok(cells[t])
  {
    assert read(LineAt(lines, t)) == Ok(cells[t]);
  }

  /** A reading taken from a well-formed reply holds the reply's two register values. */
  lemma ReadingOfReplyFrame(cells: seq<(Cell, Cell)>, lines: seq<string>, read: ReplyReader, unavailable: Cell,
                            t: nat, pv: Word, sv: Word)
    requires Interprets(read, unavailable) && ReadFrom(cells, lines, read) && t < |cells|
    requires LineAt(lines, t) == ReplyFrame(pv, sv)
    ensures cells[t] == (Tenths(pv), Tenths(sv))
  {
    ReadingIsReply(cells, lines, read, unavailable, t);
    CellsOfReplyFrame(pv, sv, unavailable);
  }

  lemma GrowReadings(cells: seq<(Cell, Cell)>, lines: seq<string>, read: ReplyReader, c: (Cell, Cell))
    requires ReadFrom(cells, lines, read)
    requires read(LineAt(lines, |cells|)) == Ok(c)
    ensures ReadFrom(cells + [c], lines, read)
  {
    var grown := cells + [c];
    forall t | 0 <= t < |grown|
      ensures read(LineAt(lines, t)) == Ok(grown[t])
    {
      if t < |cells| {
        assert grown[t] == cells[t];
      }
    }
  }

  /** Readings of the lines after the first `|prev|` continue the readings `prev`. */
  lemma ReadFromAppend(prev: seq<(Cell, Cell)>, cells: seq<(Cell, Cell)>, lines: seq<string>, read: ReplyReader)
    requires ReadFrom(prev, lines, read)
    requires ReadFrom(cells, Drop(lines, |prev|), read)
    ensures ReadFrom(prev + cells, lines, read)
  {
    var all := prev + cells;
    forall t | 0 <= t < |all|
      ensures read(LineAt(lines, t)) == Ok(all[t])
    {
      if t < |prev| {
        assert all[t] == prev[t];
      } else {
        assert all[t] == cells[t - |prev|];
        DropDrop(lines, |prev|, t - |prev|);
      }
    }
  }

  /** The controller's link after the readings `taken`: one read request each after
      `asked`, one reply line each consumed from `lines`, and reading `t` is what the
      `t`-th reply reads as. */
  predicate Polled(written: seq<string>, pending: seq<string>, asked: seq<string>, lines: seq<string>,
                   taken: seq<(Cell, Cell)>, read: ReplyReader)
  {
    written == asked + Repeat(READ_REQUEST, |taken|)
    && pending == Drop(lines, |taken|)
    && ReadFrom(taken, lines, read)
  }

  /** What the controller link shows once a run that took the readings `taken` from the
      replies `lines` has ended with the fall-back set value and STOP. */
  predicate Ended(written: seq<string>, pending: seq<string>, asked: seq<string>, lines: seq<string>,
                  taken: seq<(Cell, Cell)>, fallback: Word, read: ReplyReader)
  {
    written == asked + Repeat(READ_REQUEST, |taken|) + StopFrames(fallback)
    && pending == Drop(lines, |taken| + 2)
    && ReadFrom(taken, lines, read)
  }

  /** Ending a run that took the readings `taken` from the replies `lines`: the fall-back
      set value and STOP follow the read requests, and each consumes one more echo line. */
  method EndRun(controller: SerialPort, fallback: Word, ghost asked: seq<string>, ghost lines: seq<string>,
                ghost taken: seq<(Cell, Cell)>, ghost read: ReplyReader)
    requires Polled(controller.written, controller.pending, asked, lines, taken, read)
    modifies controller
    ensures Ended(controller.written, controller.pending, asked, lines, taken, fallback, read)
  {
    StopRun(controller, fallback);
    DropDrop(lines, |taken|, 2);
  }

  /** A run that started with two writes on the link `origin` has consumed their two
      echoes, one reply per reading and the two echoes of the end. */
  lemma EndedAfterStart(written: seq<string>, pending: seq<string>, asked: seq<string>, origin: seq<string>,
                        taken: seq<(Cell, Cell)>, fallback: Word, read: ReplyReader)
    requires Ended(written, pending, asked, Drop(origin, 2), taken, fallback, read)
    ensures pending == Drop(origin, |taken| + 4)
    ensures |written| == |asked| + |taken| + 2
  {
    DropDrop(origin, 2, |taken| + 2);
  }

  /** More readings taken from where the last ones stopped extend the record. */
  lemma PollMore(asked: seq<string>, lines: seq<string>, prev: seq<(Cell, Cell)>, cells: seq<(Cell, Cell)>,
                 w1: seq<string>, p1: seq<string>, w2: seq<string>, p2: seq<string>, read: ReplyReader)
    requires Polled(w1, p1, asked, lines, prev, read)
    requires w2 == w1 + Repeat(READ_REQUEST, |cells|) && p2 == Drop(p1, |cells|)
    requires ReadFrom(cells, p1, read)
    ensures Polled(w2, p2, asked, lines, prev + cells, read)
  {
    RequestsGrow(asked, prev, cells, w1, w2);
    assert p2 == Drop(lines, |prev + cells|) by {
      DropDrop(lines, |prev|, |cells|);
    }
    assert ReadFrom(prev + cells, lines, read) by {
      ReadFromAppend(prev, cells, lines, read);
    }
  }

  /** `a` requests and then `b` more are `a + b` requests. */
  lemma RequestsGrow(asked: seq<string>, prev: seq<(Cell, Cell)>, cells: seq<(Cell, Cell)>, w1: seq<string>,
                     w2: seq<string>)
    requires w1 == asked + Repeat(READ_REQUEST, |prev|) && w2 == w1 + Repeat(READ_REQUEST, |cells|)
    ensures w2 == asked + Repeat(READ_REQUEST, |prev + cells|)
  {
    RepeatGrow(READ_REQUEST, |prev|, |cells|);
    Regroup(asked, Repeat(READ_REQUEST, |prev|), Repeat(READ_REQUEST, |cells|));
  }

  /** `n` requests and then one more are `n + 1` requests. */
  lemma RepeatGrow<T>(x: T, a: nat, b: nat)
    ensures Repeat(x, a) + Repeat(x, b) == Repeat(x, a + b)
  {
    assert forall k :: 0 <= k < a + b ==> (Repeat(x, a) + Repeat(x, b))[k] == x;
  }

  lemma PrefixOfPrefix<T>(s: seq<T>, c: nat)
    requires c < |s|
    ensures s[..c + 1][..c] == s[..c]
  {
  }

  /** `temp = PIDDataReadout(ser2)` and the PV and SV it gives: the next reading, which
      extends the controller's record. Only the LRC recomputation can fail. */
  method ReadNext(controller: SerialPort, unavailable: Cell, ghost read: ReplyReader, ghost asked: seq<string>,
                  ghost lines: seq<string>, ghost taken: seq<(Cell, Cell)>)
    returns (r: Result<(Cell, Cell)>)
    requires Interprets(read, unavailable)
    requires Polled(controller.written, controller.pending, asked, lines, taken, read)
    modifies controller
    ensures r.Ok? ==> Polled(controller.written, controller.pending, asked, lines, taken + [r.value], read)
    ensures r.Err? ==> r.fault == ValueError
    ensures old(controller.written) <= controller.written
  {
    r := ReadCells(controller, unavailable);
    if r.Ok? {
      ghost var c := |taken|;
      DropStep(lines, c);
      GrowReadings(taken, lines, read, r.value);
      Regroup(asked, Repeat(READ_REQUEST, c), [READ_REQUEST]);
    }
  }

  /** `LCRCommander(ser, f'FREQ {j}')` already acknowledged: the settling time, then
      `DataAveraging(ser, n)`, completing frequency `c`'s block of the meter's trace. */
  method AverageFrequency(meter: SerialPort, freqs: seq<int>, c: nat, n: nat, ghost start: seq<string>)
    returns (r: Result<Stats>)
    requires c < |freqs|
    requires meter.written == start + FrequencyTrace(freqs[..c], n) + [CommandLine(FreqCommand(freqs[c]))]
    modifies meter
    ensures r == AverageOf(old(meter.pending), n)
    ensures r.Ok? ==> meter.pending == Drop(old(meter.pending), 2 * n)
    ensures r.Ok? ==> meter.written == start + FrequencyTrace(freqs[..c + 1], n)
    ensures r.Err? ==> MeterFault(r.fault, n)
    ensures n == 0 ==> r.Err?
    ensures Remains(meter.pending, old(meter.pending))
  {
    r := AverageSamples(meter, n);
    if r.Ok? {
      AverageConsumes(old(meter.pending), n);
      FrequencySnoc(freqs, c, n);
      Regroup(start, FrequencyTrace(freqs[..c], n), FrequencyBlock(freqs[c], n));
    }
  }

  /** Frequency `c` of `Experiment3` and `Experiment_b1`: `FREQ freqs[c]`, the settling
      time, one controller reading, then `DataAveraging(ser, n)`. The meter's trace and the
      controller's requests grow by one frequency, and the reading extends `cells`, the
      readings taken so far from the controller's replies `lines`. */
  method MeasureWithReading(meter: SerialPort, controller: SerialPort, freqs: seq<int>, c: nat, n: nat,
                            unavailable: Cell, ghost read: ReplyReader, ghost start: seq<string>,
                            ghost asked: seq<string>, ghost lines: seq<string>, ghost cells: seq<(Cell, Cell)>)
    returns (r: Result<Stats>, reading: (Cell, Cell), wait: nat)
    requires meter != controller && c < |freqs| && |cells| == c && Interprets(read, unavailable)
    requires meter.written == start + FrequencyTrace(freqs[..c], n)
    requires Polled(controller.written, controller.pending, asked, lines, cells, read)
    modifies meter, controller
    ensures r.Ok? ==> AckedAveraged(old(meter.pending), n, r.value, meter.pending)
    ensures AckIndex(old(meter.pending)).None? ==> r == Err(NoAcknowledgement)
    ensures r.Ok? ==> meter.written == start + FrequencyTrace(freqs[..c + 1], n)
    ensures r.Ok? ==> Polled(controller.written, controller.pending, asked, lines, cells + [reading], read)
    ensures wait == SettleDelay(freqs[c])
    ensures old(controller.written) <= controller.written
    ensures r.Err? ==> MeterFault(r.fault, n)
    ensures n == 0 ==> r.Err?
    ensures Remains(meter.pending, old(meter.pending))
  {
    wait := SettleDelay(freqs[c]);
    reading := (unavailable, unavailable);
    var acked := Command(meter, FreqCommand(freqs[c]));
    if !acked {
      return Err(NoAcknowledgement), reading, wait;
    }
    var got := ReadNext(controller, unavailable, read, asked, lines, cells);
    if got.Err? {
      return Err(got.fault), reading, wait;
    }
    reading := got.value;
    ghost var settled := meter.pending;
    r := AverageFrequency(meter, freqs, c, n, start);
    RemainsTrans(meter.pending, settled, old(meter.pending));
  }

  /** The frequency loop of `Experiment3` and `Experiment_b1`: one average and one reading
      per frequency, in frequency order; reading `t` is the `t`-th reply of the controller. */
  method MeasureFrequenciesWithReadings(meter: SerialPort, controller: SerialPort, freqs: seq<int>, n: nat,
                                        unavailable: Cell, ghost read: ReplyReader)
    returns (r: Result<seq<Stats>>, cells: seq<(Cell, Cell)>, waits: seq<nat>)
    requires meter != controller && Interprets(read, unavailable)
    modifies meter, controller
    ensures r.Ok? ==> |r.value| == |freqs| && |cells| == |freqs|
    ensures r.Ok? ==> r == AverageRun(Measure(n), old(meter.pending), |freqs|, n).averages
    ensures r.Ok? ==> meter.pending == AverageRun(Measure(n), old(meter.pending), |freqs|, n).rest
    ensures r.Ok? ==> meter.written == old(meter.written) + FrequencyTrace(freqs, n)
    ensures r.Ok? ==> controller.written == old(controller.written) + Repeat(READ_REQUEST, |freqs|)
    ensures r.Ok? ==> controller.pending == Drop(old(controller.pending), |freqs|)
    ensures r.Ok? ==> ReadFrom(cells, old(controller.pending), read)
    ensures r.Ok? ==> waits == Delays(freqs)
    ensures old(controller.written) <= controller.written
    ensures r.Err? ==> MeterFault(r.fault, n)
    ensures n == 0 && |freqs| > 0 ==> r.Err?
    ensures Remains(meter.pending, old(meter.pending))
  {
    var measured: seq<Stats> := [];
    cells := [];
    waits := [];
    var c := 0;
    AverageRunStep(Measure(n), old(meter.pending), 0, n);
    assert Polled(controller.written, controller.pending, old(controller.written), old(controller.pending), cells, read);
    while c < |freqs|
      invariant 0 <= c <= |freqs| && |measured| == c && |cells| == c
      invariant AverageRun(Measure(n), old(meter.pending), c, n) == Run(Ok(measured), meter.pending)
      invariant meter.written == old(meter.written) + FrequencyTrace(freqs[..c], n)
      invariant Polled(controller.written, controller.pending, old(controller.written),
                       old(controller.pending), cells, read)
      invariant waits == Delays(freqs[..c])
      invariant old(controller.written) <= controller.written
      invariant n == 0 ==> c == 0
      invariant Remains(meter.pending, old(meter.pending))
    {
      ghost var before := meter.pending;
      var m, reading, wait := MeasureWithReading(meter, controller, freqs, c, n, unavailable, read,
                                                 old(meter.written), old(controller.written),
                                                 old(controller.pending), cells);
      RemainsTrans(meter.pending, before, old(meter.pending));
      if m.Err? {
        r := Err(m.fault);
        return;
      }
      MeasureStep(old(meter.pending), c, n, measured, before, m, meter.pending);
      FrequencySnoc(freqs, c, n);
      waits := waits + [wait];
      measured := measured + [m.value];
      cells := cells + [reading];
      c := c + 1;
    }
    assert freqs[..c] == freqs;
    r := Ok(measured);
  }
}
