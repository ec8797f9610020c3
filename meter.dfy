/** The host's side of the ET4510 LCR meter link: `LCRCommander` (send a command, wait
    for `exec success`), `LCRDataReadout` (send `FETCH?`, read two lines, keep the
    second), `DataAveraging` (n fetches, mean and spread of both channels) and
    `TimeAdjustments` (how long to let the meter settle at a frequency). */
module Meter {
  import opened Common
  import opened SerialLine
  import opened Decimal
  import opened Statistics

  const EXEC_SUCCESS := "exec success"
  const FETCH_QUERY := "FETCH?\n"

  /** What `LCRCommander` writes for `command`: the command, a space and a line feed. */
  function CommandLine(command: string): string
  {
    command + " \n"
  }

  /** The line the meter sends once a command is done: `exec success` around white space. */
  predicate Acknowledges(line: string)
  {
    Strip(line) == EXEC_SUCCESS
  }

  /** Position of the first line that strips to `exec success`, if there is one. */
  function AckIndex(lines: seq<string>): (r: Option<nat>)
    ensures r.Some? ==> r.value < |lines|
  {
    if |lines| == 0 then None
    else if Acknowledges(lines[0]) then Some(0)
    else
      match AckIndex(lines[1..])
      case None => None
      case Some(i) => Some(i + 1)
  }

  /** The index found is the first acknowledgement; none is found exactly when no line
      acknowledges. */
  lemma {:induction false} AckIndexIsFirst(lines: seq<string>)
    ensures AckIndex(lines).Some? ==> Acknowledges(lines[AckIndex(lines).value])
    ensures AckIndex(lines).Some? ==> forall k :: 0 <= k < AckIndex(lines).value ==> !Acknowledges(lines[k])
    ensures AckIndex(lines).None? <==> forall k :: 0 <= k < |lines| ==> !Acknowledges(lines[k])
  {
    if |lines| > 0 && !Acknowledges(lines[0]) {
      var tail := lines[1..];
      AckIndexIsFirst(tail);
      assert forall k :: 1 <= k < |lines| ==> lines[k] == tail[k - 1];
    }
  }

  /** What is pending after `LCRCommander` returns: everything after the acknowledgement.
      With no acknowledgement the source waits forever; the model ends with nothing
      pending and reports it. */
  function AfterAck(lines: seq<string>): seq<string>
  {
    match AckIndex(lines)
    case Some(i) => lines[i + 1..]
    case None => []
  }

  /** `LCRCommander(ser, command)`. */
  method SendCommand(port: SerialPort, command: string) returns (acked: bool)
    modifies port
    ensures port.written == old(port.written) + [CommandLine(command)]
    ensures acked <==> AckIndex(old(port.pending)).Some?
    ensures port.pending == AfterAck(old(port.pending))
    ensures Remains(port.pending, old(port.pending))
  {
    port.Write(CommandLine(command));
    ghost var lines := port.pending;
    AckIndexIsFirst(lines);
    ghost var k := 0;
    acked := false;
    while !acked && port.pending != []
      invariant port.written == old(port.written) + [CommandLine(command)]
      invariant 0 <= k <= |lines| && port.pending == lines[k..]
      invariant !acked ==> forall j :: 0 <= j < k ==> !Acknowledges(lines[j])
      invariant acked ==> 0 < k && Acknowledges(lines[k - 1])
                          && forall j :: 0 <= j < k - 1 ==> !Acknowledges(lines[j])
      decreases |port.pending|
    {
      var line := port.ReadLine();
      assert line == lines[k];
      acked := Acknowledges(line);
      k := k + 1;
    }
    if acked {
      assert AckIndex(lines) == Some(k - 1);
    }
  }

  /** A command is acknowledged only by consuming at least one line. */
  lemma AckConsumes(lines: seq<string>)
    requires AckIndex(lines).Some?
    ensures |AfterAck(lines)| < |lines| && Remains(AfterAck(lines), lines)
  {
    var i := AckIndex(lines).value;
    assert AfterAck(lines) == lines[i + 1..];
  }

  /** What is pending after `k` commands in a row, each waiting for its acknowledgement,
      or None when one of them finds none. */
  function Acks(lines: seq<string>, k: nat): Option<seq<string>>
  {
    if k == 0 then Some(lines)
    else
      match Acks(lines, k - 1)
      case None => None
      case Some(rest) => if AckIndex(rest).None? then None else Some(AfterAck(rest))
  }

  /** One more command: its acknowledgement is looked for in what the earlier ones left. */
  lemma AckStep(lines: seq<string>, k: nat)
    ensures Acks(lines, 0) == Some(lines)
    ensures Acks(lines, k + 1) == match Acks(lines, k)
                                  case None => None
                                  case Some(rest) => if AckIndex(rest).None? then None else Some(AfterAck(rest))
  {
  }

  /** Commands only ever consume lines, at least one each. */
  lemma {:induction false} AcksRemain(lines: seq<string>, k: nat)
    ensures Acks(lines, k).Some? ==> Remains(Acks(lines, k).value, lines)
    ensures Acks(lines, k).Some? ==> |Acks(lines, k).value| + k <= |lines|
  {
    if k > 0 {
      AcksRemain(lines, k - 1);
      var before := Acks(lines, k - 1);
      if before.Some? && AckIndex(before.value).Some? {
        AckConsumes(before.value);
        RemainsTrans(AfterAck(before.value), before.value, lines);
      }
    }
  }

  /** A first command that is acknowledged, then `m` more, are `m + 1` commands. */
  lemma {:induction false} AckFirst(lines: seq<string>, m: nat)
    requires AckIndex(lines).Some?
    ensures Acks(lines, m + 1) == Acks(AfterAck(lines), m)
  {
    AckStep(lines, m);
    AckStep(AfterAck(lines), 0);
    if m > 0 {
      AckFirst(lines, m - 1);
      AckStep(AfterAck(lines), m - 1);
    } else {
      AckStep(lines, 0);
    }
  }

  /** What `k` commands in a row leave on `lines`: `acked` when each found its
      acknowledgement, and `rest` pending, nothing once one went unacknowledged. */
  predicate AckedRun(lines: seq<string>, k: nat, acked: bool, rest: seq<string>)
  {
    if acked then Acks(lines, k) == Some(rest) else Acks(lines, k).None? && rest == []
  }

  /** One more command after `k`: sent and looked for in `rest` when the run so far was
      acknowledged, skipped otherwise. */
  lemma AckedRunMore(lines: seq<string>, k: nat, acked: bool, rest: seq<string>, acked': bool, rest': seq<string>)
    requires AckedRun(lines, k, acked, rest)
    requires acked ==> (acked' <==> AckIndex(rest).Some?) && rest' == AfterAck(rest)
    requires !acked ==> !acked' && rest' == rest
    ensures AckedRun(lines, k + 1, acked', rest')
  {
    AckStep(lines, k);
  }

  /** Once a command goes unacknowledged, so do the runs that include it. */
  lemma {:induction false} AcksStopped(lines: seq<string>, j: nat, k: nat)
    requires j <= k && Acks(lines, j).None?
    ensures Acks(lines, k).None?
    decreases k
  {
    if k > j {
      AcksStopped(lines, j, k - 1);
      AckStep(lines, k - 1);
    }
  }

  /** A first command that goes unacknowledged ends every run it begins, with nothing
      pending. */
  lemma AckedRunNoFirst(lines: seq<string>, m: nat)
    requires AckIndex(lines).None?
    ensures AckedRun(lines, m + 1, false, AfterAck(lines))
  {
    AckStep(lines, 0);
    AcksStopped(lines, 1, m + 1);
  }

  /** A run of `m` commands after an acknowledged first one is a run of `m + 1`. */
  lemma AckedRunAfterFirst(lines: seq<string>, m: nat, acked: bool, rest: seq<string>)
    requires AckIndex(lines).Some? && AckedRun(AfterAck(lines), m, acked, rest)
    ensures AckedRun(lines, m + 1, acked, rest)
  {
    AckFirst(lines, m);
  }

  /** `LCRDataReadout(ser)`: the reply is the second line read, stripped. */
  method Fetch(port: SerialPort) returns (reply: string)
    modifies port
    ensures port.written == old(port.written) + [FETCH_QUERY]
    ensures port.pending == Drop(old(port.pending), 2)
    ensures reply == Strip(LineAt(old(port.pending), 1))
  {
    port.Write(FETCH_QUERY);
    ghost var lines := port.pending;
    var readout: seq<string> := [];
    while |readout| < 2
      invariant |readout| <= 2
      invariant port.written == old(port.written) + [FETCH_QUERY]
      invariant port.pending == Drop(lines, |readout|)
      invariant forall j :: 0 <= j < |readout| ==> readout[j] == Strip(LineAt(lines, j))
    {
      DropStep(lines, |readout|);
      var line := port.ReadLine();
      readout := readout + [Strip(line)];
    }
    reply := readout[1];
  }

  /** `np.float64(reply.split(','))` stacked as one row of two: exactly two fields, each a
      number; anything else raises ValueError. */
  function ParseSample(reply: string): (r: Option<Sample>)
    ensures r.Some? ==> |Split(reply, ',')| == 2
  {
    var fields := Split(reply, ',');
    if |fields| != 2 then None
    else
      match (ParseReal(fields[0]), ParseReal(fields[1]))
      case (Some(major), Some(minor)) => Some(Sample(major, minor))
      case _ => None
  }

  /** A reply written as two numbers separated by a comma reads back as that sample. */
  lemma ParseSampleOfIntegers(a: int, b: int)
    ensures ParseSample(IntText(a) + "," + IntText(b)) == Some(Sample(a as real, b as real))
  {
    var reply := IntText(a) + "," + IntText(b);
    assert reply == Join([IntText(a), IntText(b)], ',');
    assert forall k :: 0 <= k < |IntText(a)| ==> IntText(a)[k] != ',';
    assert forall k :: 0 <= k < |IntText(b)| ==> IntText(b)[k] != ',';
    JoinSplit([IntText(a), IntText(b)], ',');
    ParseIntText(a);
    ParseIntText(b);
  }

  /** The empty line of a timed-out read is never a sample. */
  lemma EmptyIsNoSample()
    ensures ParseSample("").None?
  {
    assert Split("", ',') == [""];
  }

  /** What `DataAveraging` makes of the raw second line of a fetch: stripped by
      `LCRDataReadout`, then split and converted. */
  function ReadSample(line: string): Option<Sample>
  {
    ParseSample(Strip(line))
  }

  /** The first `n` fetches of `DataAveraging` on `lines`, each reply read by `parse`:
      the samples read, and how many fetches were made — all `n`, or up to and including
      the first reply that is not a sample, where ValueError ends the loop. */
  function Gather(parse: string -> Option<Sample>, lines: seq<string>, n: nat): (r: (Result<seq<Sample>>, nat))
    ensures r.1 <= n
    ensures r.0.Ok? ==> r.1 == n && |r.0.value| == n
    ensures r.0.Err? ==> r.0.fault == ValueError && r.1 > 0
  {
    if n == 0 then (Ok([]), 0)
    else
      var (earlier, m) := Gather(parse, lines, n - 1);
      if earlier.Err? then (earlier, m)
      else
        match parse(LineAt(lines, 2 * n - 1))
        case None => (Err(ValueError), n)
        case Some(s) => (Ok(earlier.value + [s]), n)
  }

  /** The run succeeds exactly when every reply is a sample, and then holds those samples
      in order. */
  lemma {:induction false} GatherSucceeds(parse: string -> Option<Sample>, lines: seq<string>, n: nat)
    ensures Gather(parse, lines, n).0.Ok? <==> forall j :: 0 <= j < n ==> parse(LineAt(lines, 2 * j + 1)).Some?
    ensures Gather(parse, lines, n).0.Ok? ==>
              forall j :: 0 <= j < n ==> parse(LineAt(lines, 2 * j + 1)) == Some(Gather(parse, lines, n).0.value[j])
  {
    if n > 0 {
      GatherSucceeds(parse, lines, n - 1);
    }
  }

  /** A failed run stops at the first reply that is not a sample. */
  lemma {:induction false} GatherFails(parse: string -> Option<Sample>, lines: seq<string>, n: nat)
    requires Gather(parse, lines, n).0.Err?
    ensures parse(LineAt(lines, 2 * Gather(parse, lines, n).1 - 1)).None?
    ensures forall j :: 0 <= j < Gather(parse, lines, n).1 - 1 ==> parse(LineAt(lines, 2 * j + 1)).Some?
  {
    if Gather(parse, lines, n - 1).0.Err? {
      GatherFails(parse, lines, n - 1);
    } else {
      GatherSucceeds(parse, lines, n - 1);
    }
  }

  /** Once a fetch has failed, later fetches are never made. */
  lemma {:induction false} GatherStops(parse: string -> Option<Sample>, lines: seq<string>, i: nat, n: nat)
    requires i <= n && Gather(parse, lines, i).0.Err?
    ensures Gather(parse, lines, n) == Gather(parse, lines, i)
    decreases n
  {
    if n > i {
      GatherStops(parse, lines, i, n - 1);
    }
  }

  /** `DataAveraging(ser, n)` as a function of the pending lines. With `n = 0` the
      preallocated row is all there is, and indexing its column raises IndexError. */
  function AverageOf(lines: seq<string>, n: nat): (r: Result<Stats>)
    ensures r.Err? ==> r.fault == ValueError || (r.fault == IndexError && n == 0)
    ensures r.Ok? ==> n > 0 && Gather(ReadSample, lines, n).0.Ok?
  {
    match Gather(ReadSample, lines, n).0
    case Err(e) => Err(e)
    case Ok(s) => if n == 0 then Err(IndexError) else Ok(StatsOf(s))
  }

  /** How many fetches `DataAveraging(ser, n)` makes on `lines`. */
  function FetchCount(lines: seq<string>, n: nat): (m: nat)
    ensures m <= n
  {
    Gather(ReadSample, lines, n).1
  }

  /** The fetch after `2 * i` lines were read keeps line `2 * i + 1`. */
  lemma FetchedReply(lines: seq<string>, i: nat)
    ensures LineAt(Drop(lines, 2 * i), 1) == LineAt(lines, 2 * i + 1)
    ensures Drop(Drop(lines, 2 * i), 2) == Drop(lines, 2 * (i + 1))
  {
    DropDrop(lines, 2 * i, 1);
    DropDrop(lines, 2 * i, 2);
  }

  /** One row of `DataAveraging`'s data: a fetch, its reply converted to a sample,
      which extends the rows read so far or ends the run. */
  method FetchSample(port: SerialPort, ghost lines: seq<string>, ghost i: nat, ghost samples: seq<Sample>)
    returns (s: Option<Sample>)
    requires Gather(ReadSample, lines, i) == (Ok(samples), i)
    requires port.pending == Drop(lines, 2 * i)
    modifies port
    ensures port.written == old(port.written) + [FETCH_QUERY]
    ensures port.pending == Drop(lines, 2 * (i + 1))
    ensures s.None? ==> Gather(ReadSample, lines, i + 1) == (Err(ValueError), i + 1)
    ensures s.Some? ==> Gather(ReadSample, lines, i + 1) == (Ok(samples + [s.value]), i + 1)
  {
    FetchedReply(lines, i);
    var reply := Fetch(port);
    s := ParseSample(reply);
  }

  /** The stacking loop of `DataAveraging(ser, n)`: fetches until `n` rows are stacked or
      a reply is not a sample, and how many fetches that took. */
  method CollectRows(port: SerialPort, n: nat) returns (r: Result<seq<Sample>>, i: nat)
    modifies port
    ensures i <= n && (r.Ok? ==> i == n)
    ensures Gather(ReadSample, old(port.pending), i) == (r, i)
    ensures port.written == old(port.written) + Repeat(FETCH_QUERY, i)
    ensures port.pending == Drop(old(port.pending), 2 * i)
  {
    ghost var lines := port.pending;
    r := Ok([]);
    i := 0;
    while i < n && r.Ok?
      invariant 0 <= i <= n
      invariant Gather(ReadSample, lines, i) == (r, i)
      invariant port.written == old(port.written) + Repeat(FETCH_QUERY, i)
      invariant port.pending == Drop(lines, 2 * i)
    {
      var s := FetchSample(port, lines, i, r.value);
      if s.None? {
        r := Err(ValueError);
      } else {
        r := Ok(r.value + [s.value]);
      }
      RepeatSnoc(old(port.written), FETCH_QUERY, i);
      i := i + 1;
    }
  }

  /** The rows `DataAveraging(ser, n)` stacks: `n` fetches, or fewer when a reply ends the
      run with ValueError. */
  method CollectSamples(port: SerialPort, n: nat) returns (r: Result<seq<Sample>>)
    modifies port
    ensures port.written == old(port.written) + Repeat(FETCH_QUERY, FetchCount(old(port.pending), n))
    ensures port.pending == Drop(old(port.pending), 2 * FetchCount(old(port.pending), n))
    ensures r == Gather(ReadSample, old(port.pending), n).0
  {
    var i;
    r, i := CollectRows(port, n);
    if r.Err? {
      GatherStops(ReadSample, old(port.pending), i, n);
    }
  }

  /** `DataAveraging(ser, n)`: the stacked rows, then the four statistics. */
  method AverageSamples(port: SerialPort, n: nat) returns (r: Result<Stats>)
    modifies port
    ensures port.written == old(port.written) + Repeat(FETCH_QUERY, FetchCount(old(port.pending), n))
    ensures port.pending == Drop(old(port.pending), 2 * FetchCount(old(port.pending), n))
    ensures r == AverageOf(old(port.pending), n)
    ensures Remains(port.pending, old(port.pending))
  {
    DropRemains(port.pending, 2 * FetchCount(port.pending, n));
    var rows := CollectSamples(port, n);
    if rows.Err? {
      return Err(rows.fault);
    }
    if n == 0 {
      return Err(IndexError);
    }
    r := Ok(StatsOf(rows.value));
  }

  /** A successful average consumed exactly two lines per fetch, so at least two. */
  lemma AverageConsumes(lines: seq<string>, n: nat)
    requires AverageOf(lines, n).Ok?
    ensures 2 * n <= |lines| && FetchCount(lines, n) == n
    ensures |Drop(lines, 2 * FetchCount(lines, n))| < |lines|
    ensures Remains(Drop(lines, 2 * FetchCount(lines, n)), lines)
  {
    GatherSucceeds(ReadSample, lines, n);
    assert ReadSample(LineAt(lines, 2 * n - 1)).Some?;
    EmptyIsNoSample();
  }

  /** `n` replies that are all the same sample average to that sample, with no spread. */
  lemma AverageOfIdenticalReplies(lines: seq<string>, n: nat, s: Sample)
    requires n > 0
    requires forall j :: 0 <= j < n ==> ReadSample(LineAt(lines, 2 * j + 1)) == Some(s)
    ensures AverageOf(lines, n) == Ok(Stats(s.major, 0.0, s.minor, 0.0))
  {
    GatherSucceeds(ReadSample, lines, n);
    assert Gather(ReadSample, lines, n).0.value == Repeat(s, n);
    IdenticalSamples(s, n);
  }

  /** `TimeAdjustments(freq)`: the settling time in seconds, 10 below 100 Hz, 2 up to
      1000 Hz, none above. */
  function SettleDelay(freq: int): (seconds: nat)
    ensures seconds == 10 <==> freq < 100
    ensures seconds == 0 <==> freq > 1000
  {
    if freq < 100 then 10 else if freq <= 1000 then 2 else 0
  }

  /** Lower frequencies never settle for less time, and only three delays occur. */
  lemma SettleDelayShape(f: int, g: int)
    requires f <= g
    ensures SettleDelay(g) <= SettleDelay(f)
    ensures SettleDelay(f) in {0, 2, 10}
  {
  }
}
