/** What the time-driven sweeps `Experiment2`, `Experiment_b2` and `Experiment_b3` share:
    the row dicts they collect and `pd.DataFrame(result_rows)` turns into the table, the
    stop test of `Experiment_b3`, and the step of reading the controller and then
    averaging the meter's samples.

    The clock is a parameter: `clock(t)` is the elapsed time `time.time() - t_start` at
    the `t`-th reading, already in tenths of a second, so `round(t_now, 1)` keeps it. */
module TimedRows {
  import opened Common
  import opened SerialLine
  import opened Statistics
  import opened Meter
  import opened FrameCodec
  import opened Readings
  import opened Frames
  import opened Sequencing
  import opened TemperatureReads
  import opened FrequencySweeps

  const TIME := "Time (s)"

  /** What one row dict holds: the time, the reading and the averages. */
  datatype Sampled = Sampled(time: int, reading: (Cell, Cell), stats: Stats)

  /** The values of one row dict, in the order of its keys. */
  function RecordOf(s: Sampled): (row: seq<Cell>)
    ensures |row| == 7 && row[0] == Tenths(s.time) && row[1] == s.reading.0 && row[2] == s.reading.1
    ensures forall e :: 0 <= e < 4 ==> row[3 + e] == Real(Entry(s.stats, e))
  {
    [Tenths(s.time), s.reading.0, s.reading.1, Real(Entry(s.stats, 0)), Real(Entry(s.stats, 1)),
     Real(Entry(s.stats, 2)), Real(Entry(s.stats, 3))]
  }

  function Records(rows: seq<Sampled>): (records: seq<seq<Cell>>)
    ensures |records| == |rows|
    ensures forall t :: 0 <= t < |rows| ==> records[t] == RecordOf(rows[t])
  {
    seq(|rows|, t requires 0 <= t < |rows| => RecordOf(rows[t]))
  }

  /** The keys of one row dict, in insertion order. */
  function RecordNames(pv: string, sv: string, main: string, minorName: string): (names: seq<string>)
    ensures |names| == 7
  {
    [TIME, pv, sv, main + AVG, main + STD, minorName + AVG, minorName + STD]
  }

  predicate Distinct(names: seq<string>)
  {
    forall c, d :: 0 <= c < d < |names| ==> names[c] != names[d]
  }

  /** `pd.DataFrame(result_rows)` for rows that all have the keys `names`. */
  function TimedFrame(names: seq<string>, rows: seq<Sampled>): Frame
    requires |names| == 7
  {
    FromRecords(names, Records(rows))
  }

  /** With distinct keys, column `names[c]` holds entry `c` of every row dict, in order;
      with no rows there is no column. */
  lemma TimedColumns(names: seq<string>, rows: seq<Sampled>)
    requires |names| == 7 && Distinct(names)
    ensures |rows| == 0 ==> TimedFrame(names, rows) == []
    ensures |rows| > 0 ==> Names(TimedFrame(names, rows)) == names
    ensures |rows| > 0 ==> forall c :: 0 <= c < 7 ==>
              Lookup(TimedFrame(names, rows), names[c]) == Some(seq(|rows|, t requires 0 <= t < |rows| => RecordOf(rows[t])[c]))
  {
    if |rows| > 0 {
      var f := TimedFrame(names, rows);
      forall c | 0 <= c < 7
        ensures Lookup(f, names[c]) == Some(seq(|rows|, t requires 0 <= t < |rows| => RecordOf(rows[t])[c]))
      {
        assert Names(f)[c] == names[c];
        var p := Position(f, names[c]);
        assert p.Some?;
        assert Names(f)[p.value] == names[c];
        assert p.value == c;
        assert |f[c].cells| == |rows|;
        assert forall t :: 0 <= t < |rows| ==> f[c].cells[t] == Records(rows)[t][c] == RecordOf(rows[t])[c];
        assert f[c].cells == seq(|rows|, t requires 0 <= t < |rows| => RecordOf(rows[t])[c]);
      }
    }
  }

  /** What `DataAveraging(ser, n)` writes `k` times over. */
  function FetchTrace(n: nat, k: nat): seq<string>
  {
    RepeatSeq(Repeat(FETCH_QUERY, n), k)
  }

  /** The stop test of `Experiment_b3` on a row's PV cell: a reading at or past `until`
      (tenths of a degree) in the direction of travel. */
  function PvReached(pv: Cell, heating: bool, until: int): (stop: bool)
    ensures stop ==> pv.Tenths?
    ensures pv.Tenths? ==> (stop <==> if heating then pv.t >= until else pv.t <= until)
  {
    pv.Tenths? && if heating then pv.t >= until else pv.t <= until
  }

  /** On the cells of a reading, the test is the intended stop test of the reading, and the
      comparison the source makes on the nan-marked cell gives the same answer. */
  lemma PvReachedIsReached(t: Temperature, heating: bool, until: int)
    ensures PvReached(TemperatureCells(t, NotANumber).0, heating, until) == Reached(t, heating, until)
    ensures AsWrittenReached(TemperatureCells(t, NotANumber).0, heating, until) == Ok(Reached(t, heating, until))
  {
    ReachedAgreesOnCells(t, heating, until);
  }

  /** `temp = PIDDataReadout(ser2)`, the PV and SV it gives, then
      `measurements = DataAveraging(ser, n)`. A successful average consumes meter lines. */
  method ReadThenAverage(meter: SerialPort, controller: SerialPort, n: nat, unavailable: Cell,
                         ghost read: ReplyReader, ghost asked: seq<string>, ghost lines: seq<string>,
                         ghost taken: seq<(Cell, Cell)>)
    returns (r: Result<Stats>, reading: (Cell, Cell))
    requires meter != controller && Interprets(read, unavailable)
    requires Polled(controller.written, controller.pending, asked, lines, taken, read)
    modifies meter, controller
    ensures r.Ok? ==> r == AverageOf(old(meter.pending), n)
    ensures r.Ok? ==> meter.pending == Drop(old(meter.pending), 2 * n)
    ensures r.Ok? ==> meter.written == old(meter.written) + Repeat(FETCH_QUERY, n)
    ensures r.Ok? ==> |meter.pending| < |old(meter.pending)|
    ensures r.Ok? ==> Polled(controller.written, controller.pending, asked, lines, taken + [reading], read)
    ensures old(controller.written) <= controller.written
    ensures r.Err? ==> MeterFault(r.fault, n)
    ensures n == 0 ==> r.Err?
    ensures Remains(meter.pending, old(meter.pending))
  {
    reading := (unavailable, unavailable);
    var got := ReadNext(controller, unavailable, read, asked, lines, taken);
    if got.Err? {
      r := Err(got.fault);
    } else {
      reading := got.value;
      r := AverageRow(meter, n);
    }
  }

  /** `measurements = DataAveraging(ser, n)` inside a sweep: `n` FETCH? queries on success,
      and a successful average consumes meter lines. */
  method AverageRow(meter: SerialPort, n: nat) returns (r: Result<Stats>)
    modifies meter
    ensures r == AverageOf(old(meter.pending), n)
    ensures r.Ok? ==> meter.pending == Drop(old(meter.pending), 2 * n)
    ensures r.Ok? ==> meter.written == old(meter.written) + Repeat(FETCH_QUERY, n)
    ensures r.Ok? ==> |meter.pending| < |old(meter.pending)|
    ensures r.Err? ==> MeterFault(r.fault, n)
    ensures n == 0 ==> r.Err?
    ensures Remains(meter.pending, old(meter.pending))
  {
    r := AverageSamples(meter, n);
    if r.Ok? {
      AverageConsumes(old(meter.pending), n);
    }
  }
}
