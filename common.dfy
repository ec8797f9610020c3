/** Values shared by every part of the model: optional values, the exceptions the
    Python code can raise, and the few string operations of Python's `str` that the
    device protocols rely on (`strip`, slicing, decimal rendering of an `int`). */
module Common {

  datatype Option<+T> = None | Some(value: T)

  /** The ways a call in the core ends other than by returning a value. */
  datatype Fault =
    | ValueError         // int(..., 16), float() or a numpy shape mismatch rejected its input
    | IndexError         // indexing a one-dimensional numpy array with two indices
    | TypeError          // ordering a missing reading or a string against a number
    | UnboundLocal       // a local read before any loop iteration assigned it
    | NoAcknowledgement  // the meter never sent `exec success` (the source waits forever)

  datatype Result<+T> = Ok(value: T) | Err(fault: Fault)

  /** The characters `str.isspace()` accepts, hence the ones `str.strip()` removes. */
  predicate IsSpace(c: char)
  {
    c == ' ' || ('\t' <= c <= '\r') || ('\U{1c}' <= c <= '\U{1f}') || c == '\U{85}' || c == '\U{a0}'
    || c == '\U{1680}' || ('\U{2000}' <= c <= '\U{200a}') || c == '\U{2028}' || c == '\U{2029}'
    || c == '\U{202f}' || c == '\U{205f}' || c == '\U{3000}'
  }

  /** Python's `s.strip()`: white space dropped from the front, then from the back. */
  function Strip(s: string): (r: string)
    ensures |r| <= |s|
    ensures |r| > 0 ==> !IsSpace(r[0]) && !IsSpace(r[|r| - 1])
  {
    if |s| > 0 && IsSpace(s[0]) then Strip(s[1..])
    else if |s| > 0 && IsSpace(s[|s| - 1]) then Strip(s[..|s| - 1])
    else s
  }

  /** Stripping keeps exactly the characters between the leading and the trailing white space. */
  lemma {:induction false} StripKeepsCore(pre: string, core: string, post: string)
    requires forall k :: 0 <= k < |pre| ==> IsSpace(pre[k])
    requires forall k :: 0 <= k < |post| ==> IsSpace(post[k])
    requires |core| > 0 && !IsSpace(core[0]) && !IsSpace(core[|core| - 1])
    ensures Strip(pre + core + post) == core
    decreases |pre| + |post|
  {
    var s := pre + core + post;
    if |pre| > 0 {
      assert s[0] == pre[0];
      assert s[1..] == pre[1..] + core + post;
      StripKeepsCore(pre[1..], core, post);
    } else if |post| > 0 {
      assert s == core + post;
      assert s[0] == core[0];
      assert s[|s| - 1] == post[|post| - 1];
      assert s[..|s| - 1] == pre + core + post[..|post| - 1];
      StripKeepsCore(pre, core, post[..|post| - 1]);
    } else {
      assert s == core;
    }
  }

  /** A string of white space only strips to the empty string. */
  lemma {:induction false} StripAllSpace(s: string)
    requires forall k :: 0 <= k < |s| ==> IsSpace(s[k])
    ensures Strip(s) == ""
    decreases |s|
  {
    if |s| > 0 {
      assert IsSpace(s[0]);
      StripAllSpace(s[1..]);
    }
  }

  predicate StartsWith(s: string, prefix: string)
  {
    |prefix| <= |s| && s[..|prefix|] == prefix
  }

  /** Python's slice `s[a:b]` for non-negative bounds: both clamp to the length. */
  function Slice(s: string, a: nat, b: nat): (r: string)
    ensures |r| <= |s|
    ensures a <= b && b <= |s| ==> r == s[a..b]
  {
    var lo := if a < |s| then a else |s|;
    var hi := if b < |s| then b else |s|;
    if hi < lo then "" else s[lo..hi]
  }

  /** Python's `s[:-2]`. */
  function DropLast2(s: string): (r: string)
    ensures |s| >= 2 ==> r == s[..|s| - 2]
    ensures |s| < 2 ==> r == ""
  {
    if |s| >= 2 then s[..|s| - 2] else ""
  }

  /** `n` copies of `x`, in a sequence. */
  function Repeat<T>(x: T, n: nat): (r: seq<T>)
    ensures |r| == n
    ensures forall k :: 0 <= k < n ==> r[k] == x
  {
    if n == 0 then [] else Repeat(x, n - 1) + [x]
  }

  /** One more copy after `n` copies, following what came before. */
  lemma RepeatSnoc<T>(a: seq<T>, x: T, n: nat)
    ensures a + Repeat(x, n) + [x] == a + Repeat(x, n + 1)
  {
    assert Repeat(x, n + 1) == Repeat(x, n) + [x];
  }

  /** Concatenation regrouped. */
  lemma Regroup<T>(a: seq<T>, b: seq<T>, c: seq<T>)
    ensures a + b + c == a + (b + c)
  {
  }

  /** The concatenation of `n` copies of `block`. */
  function RepeatSeq<T>(block: seq<T>, n: nat): seq<T>
  {
    if n == 0 then [] else RepeatSeq(block, n - 1) + block
  }

  function DecimalDigit(d: nat): (c: char)
    requires d < 10
    ensures '0' <= c <= '9'
  {
    ('0' as int + d) as char
  }

  /** Python's `f"{n}"` for a non-negative `int`. */
  function NatText(n: nat): (s: string)
    ensures |s| > 0
    ensures forall k :: 0 <= k < |s| ==> '0' <= s[k] <= '9'
  {
    if n < 10 then [DecimalDigit(n)] else NatText(n / 10) + [DecimalDigit(n % 10)]
  }

  /** Python's `f"{n}"` for any `int`: a minus sign, then the digits of the magnitude. */
  function IntText(n: int): (s: string)
    ensures |s| > 0
    ensures n >= 0 ==> s == NatText(n)
    ensures n < 0 ==> s == "-" + NatText(-n)
  {
    if n < 0 then "-" + NatText(-n) else NatText(n)
  }

  /** Python's `s.split(sep)` for a one-character separator: the pieces between the
      separators, empty ones included. */
  function Split(s: string, sep: char): (parts: seq<string>)
    ensures |parts| >= 1
  {
    if |s| == 0 then [""]
    else
      var rest := Split(s[1..], sep);
      if s[0] == sep then [""] + rest
      else [[s[0]] + rest[0]] + rest[1..]
  }

  /** `sep.join(parts)`. */
  function Join(parts: seq<string>, sep: char): string
    requires |parts| >= 1
  {
    if |parts| == 1 then parts[0] else parts[0] + [sep] + Join(parts[1..], sep)
  }

  /** Splitting loses nothing: joining the pieces gives the string back. */
  lemma {:induction false} SplitJoin(s: string, sep: char)
    ensures Join(Split(s, sep), sep) == s
  {
    if |s| > 0 {
      SplitJoin(s[1..], sep);
      var rest := Split(s[1..], sep);
      if s[0] == sep {
        assert ([""] + rest)[1..] == rest;
      } else {
        var parts := [[s[0]] + rest[0]] + rest[1..];
        assert parts[1..] == rest[1..];
        if |rest| > 1 {
          assert Join(rest, sep) == rest[0] + [sep] + Join(rest[1..], sep);
        }
      }
    }
  }

  /** Pieces free of the separator are exactly what splitting their join returns. */
  lemma {:induction false} JoinSplit(parts: seq<string>, sep: char)
    requires |parts| >= 1
    requires forall k :: 0 <= k < |parts| ==> sep !in parts[k]
    ensures Split(Join(parts, sep), sep) == parts
    decreases |parts|, |parts[0]|
  {
    var p := parts[0];
    if |p| > 0 {
      var parts' := [p[1..]] + parts[1..];
      assert sep !in p[1..];
      JoinSplit(parts', sep);
      assert Join(parts, sep)[1..] == Join(parts', sep) by {
        if |parts| > 1 {
          assert parts'[1..] == parts[1..];
        }
      }
      assert [p[0]] + p[1..] == p;
    } else if |parts| > 1 {
      JoinSplit(parts[1..], sep);
      assert Join(parts, sep) == [sep] + Join(parts[1..], sep);
      assert Join(parts, sep)[1..] == Join(parts[1..], sep);
    }
  }
}
