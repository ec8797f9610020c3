/** The serial link of either instrument, seen from the host: the lines the device has
    sent and the host has not yet read, and the log of everything the host has written.
    `readline` on a link with nothing pending times out and gives the empty string. */
module SerialLine {

  /** The `k`-th pending line, or the empty string a timed-out `readline` returns. */
  function LineAt(lines: seq<string>, k: nat): string
  {
    if k < |lines| then lines[k] else ""
  }

  /** What is still pending once `k` lines have been read. */
  function Drop(lines: seq<string>, k: nat): (rest: seq<string>)
    ensures |rest| == if k <= |lines| then |lines| - k else 0
  {
    if k <= |lines| then lines[k..] else []
  }

  /** `rest` is what remains of `lines` after some lines were read from the front. */
  predicate Remains(rest: seq<string>, lines: seq<string>)
  {
    |rest| <= |lines| && rest == lines[|lines| - |rest|..]
  }

  lemma DropRemains(lines: seq<string>, k: nat)
    ensures Remains(Drop(lines, k), lines)
  {
  }

  lemma RemainsTrans(a: seq<string>, b: seq<string>, c: seq<string>)
    requires Remains(a, b) && Remains(b, c)
    ensures Remains(a, c)
  {
    assert b[|b| - |a|..] == c[|c| - |b|..][|b| - |a|..];
  }

  /** Reading one line after `k`: the line is the `k`-th, and `k + 1` lines are gone. */
  lemma DropStep(lines: seq<string>, k: nat)
    ensures LineAt(Drop(lines, k), 0) == LineAt(lines, k)
    ensures Drop(Drop(lines, k), 1) == Drop(lines, k + 1)
  {
  }

  lemma DropDrop(lines: seq<string>, a: nat, b: nat)
    ensures Drop(Drop(lines, a), b) == Drop(lines, a + b)
    ensures LineAt(Drop(lines, a), b) == LineAt(lines, a + b)
  {
  }

  class SerialPort {
    /** Lines the device has sent and the host has not read yet, each with its line end. */
    var pending: seq<string>
    /** Everything the host has written, one entry per `write` call. */
    var written: seq<string>

    constructor (replies: seq<string>)
      ensures pending == replies && written == []
    {
      pending := replies;
      written := [];
    }

    /** `ser.write(text.encode())`. */
    method Write(text: string)
      modifies this
      ensures written == old(written) + [text]
      ensures pending == old(pending)
    {
      written := written + [text];
    }

    /** `ser.readline().decode()`. */
    method ReadLine() returns (line: string)
      modifies this
      ensures line == LineAt(old(pending), 0)
      ensures pending == Drop(old(pending), 1)
      ensures written == old(written)
    {
      if pending == [] {
        line := "";
      } else {
        line := pending[0];
        pending := pending[1..];
      }
    }
  }
}
