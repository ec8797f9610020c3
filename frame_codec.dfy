/** Modbus ASCII framing for the Omega CN740 temperature controller: the longitudinal
    redundancy check of section 2.5.2.2 of the Modbus over Serial Line Specification
    V1.02, the function-0x06 "Write Single Register" request of section 6.6 of the
    Modbus Application Protocol Specification V1.1b3, and the decoding of the reply to
    the fixed function-0x03 "Read Holding Registers" request of section 6.3. */
module FrameCodec {
  import opened Common

  type Byte = x: int | 0 <= x < 0x100
  type Word = x: int | 0 <= x < 0x1_0000

  /** The value of one ASCII hexadecimal digit of either case, as `int(c, 16)` reads it. */
  function HexDigitValue(c: char): (r: Option<nat>)
    ensures r.Some? ==> r.value < 16
    ensures r.Some? <==> ('0' <= c <= '9' || 'A' <= c <= 'F' || 'a' <= c <= 'f')
  {
    if '0' <= c <= '9' then Some(c as int - '0' as int)
    else if 'A' <= c <= 'F' then Some(c as int - 'A' as int + 10)
    else if 'a' <= c <= 'f' then Some(c as int - 'a' as int + 10)
    else None
  }

  predicate IsHexDigit(c: char)
  {
    HexDigitValue(c).Some?
  }

  /** Digits as `f"{v:X}"` writes them: 0-9 and upper-case A-F. */
  predicate IsUpperHex(s: string)
  {
    forall k :: 0 <= k < |s| ==> '0' <= s[k] <= '9' || 'A' <= s[k] <= 'F'
  }

  function Pow16(n: nat): (p: nat)
    ensures p >= 1
  {
    if n == 0 then 1 else 16 * Pow16(n - 1)
  }

  /** `int(s, 16)` for a non-empty string of ASCII hexadecimal digits; None where Python
      raises ValueError. */
  function HexNumber(s: string): (r: Option<nat>)
    ensures |s| == 0 ==> r.None?
  {
    if |s| == 0 then None
    else
      var last := HexDigitValue(s[|s| - 1]);
      if |s| == 1 then last
      else
        var front := HexNumber(s[..|s| - 1]);
        if front.Some? && last.Some? then Some(16 * front.value + last.value) else None
  }

  /** `int(s, 16)` raises exactly when `s` is empty or holds a character that is not a
      hexadecimal digit. */
  lemma {:induction false} HexNumberDefined(s: string)
    ensures HexNumber(s).Some? <==> |s| > 0 && forall k :: 0 <= k < |s| ==> IsHexDigit(s[k])
  {
    if |s| > 1 {
      var front := s[..|s| - 1];
      HexNumberDefined(front);
      assert forall k :: 0 <= k < |front| ==> front[k] == s[k];
    }
  }

  /** `k` hexadecimal digits denote a number below `16^k`. */
  lemma {:induction false} HexNumberBound(s: string)
    requires HexNumber(s).Some?
    ensures HexNumber(s).value < Pow16(|s|)
  {
    if |s| > 1 {
      HexNumberBound(s[..|s| - 1]);
    }
  }

  /** The upper-case digit for `d`. */
  function HexChar(d: nat): (c: char)
    requires d < 16
    ensures HexDigitValue(c) == Some(d)
    ensures '0' <= c <= '9' || 'A' <= c <= 'F'
  {
    if d < 10 then ('0' as int + d) as char else ('A' as int + d - 10) as char
  }

  /** `f"{b:02X}"`. */
  function Hex2(b: Byte): (s: string)
    ensures |s| == 2 && IsUpperHex(s)
  {
    [HexChar(b / 16), HexChar(b % 16)]
  }

  /** `f"{w:04X}"`. */
  function Hex4(w: Word): (s: string)
    ensures |s| == 4 && IsUpperHex(s)
  {
    Hex2(w / 256) + Hex2(w % 256)
  }

  lemma Hex2RoundTrip(b: Byte)
    ensures HexNumber(Hex2(b)) == Some(b)
  {
    var s := Hex2(b);
    HexPair(s);
  }

  /** An upper-case digit is the rendering of its own value. */
  lemma HexCharOf(c: char)
    requires '0' <= c <= '9' || 'A' <= c <= 'F'
    ensures HexDigitValue(c).Some? && HexChar(HexDigitValue(c).value) == c
  {
  }

  /** Two upper-case digits are the rendering of their own value. */
  lemma Hex2Canonical(s: string)
    requires |s| == 2 && IsUpperHex(s)
    ensures HexNumber(s).Some? && HexNumber(s).value < 0x100
    ensures Hex2(HexNumber(s).value) == s
  {
    HexCharOf(s[0]);
    HexCharOf(s[1]);
    var hi := HexDigitValue(s[0]).value;
    var lo := HexDigitValue(s[1]).value;
    HexPair(s);
    var b := 16 * hi + lo;
    assert b / 16 == hi && b % 16 == lo;
  }

  /** The rendering of a pair of upper-case digits, in the terms a literal needs. */
  lemma Hex2Literal(s: string)
    requires |s| == 2 && IsUpperHex(s)
    ensures Hex2(16 * HexDigitValue(s[0]).value + HexDigitValue(s[1]).value) == s
  {
    Hex2Canonical(s);
    HexPair(s);
  }

  /** Two digits read by `int(pair, 16)`. */
  lemma HexPair(s: string)
    requires |s| == 2 && IsHexDigit(s[0]) && IsHexDigit(s[1])
    ensures HexNumber(s) == Some(16 * HexDigitValue(s[0]).value + HexDigitValue(s[1]).value)
  {
    assert s[..1] == [s[0]];
  }

  /** One more digit after `a` shifts its value left by one digit. */
  lemma HexNumberSnoc(a: string, c: char)
    requires HexNumber(a).Some? && IsHexDigit(c)
    ensures HexNumber(a + [c]) == Some(16 * HexNumber(a).value + HexDigitValue(c).value)
  {
    var s := a + [c];
    assert s[..|s| - 1] == a && s[|s| - 1] == c;
  }

  /** Two more digits after two digits `a` shift `a`'s value left by one byte. */
  lemma HexNumberAppendPair(a: string, b: string)
    requires |a| == 2 && HexNumber(a).Some? && |b| == 2 && HexNumber(b).Some?
    ensures HexNumber(a + b) == Some(256 * HexNumber(a).value + HexNumber(b).value)
  {
    HexNumberDefined(b);
    assert IsHexDigit(b[0]) && IsHexDigit(b[1]);
    HexPair(b);
    HexNumberSnoc(a, b[0]);
    HexNumberSnoc(a + [b[0]], b[1]);
    assert a + [b[0]] + [b[1]] == a + b;
  }

  lemma Hex4RoundTrip(w: Word)
    ensures HexNumber(Hex4(w)) == Some(w)
  {
    Hex2RoundTrip(w / 256);
    Hex2RoundTrip(w % 256);
    HexNumberAppendPair(Hex2(w / 256), Hex2(w % 256));
  }

  /** The running `total` of `calc_lrc`: the pairs of `s` read as hexadecimal numbers and
      added up; a trailing odd digit is read on its own. None where `int(pair, 16)` raises. */
  function PairSum(s: string): (r: Option<int>)
    ensures r.Some? ==> r.value >= 0
    decreases |s|
  {
    if |s| == 0 then Some(0)
    else if |s| == 1 then HexNumber(s)
    else
      var head := HexNumber(s[..2]);
      var tail := PairSum(s[2..]);
      if head.Some? && tail.Some? then Some(head.value + tail.value) else None
  }

  /** `calc_lrc` raises exactly when a character of `s` is not a hexadecimal digit. */
  lemma {:induction false} PairSumDefined(s: string)
    ensures PairSum(s).Some? <==> forall k :: 0 <= k < |s| ==> IsHexDigit(s[k])
    decreases |s|
  {
    if |s| == 1 {
      HexNumberDefined(s);
    } else if |s| > 1 {
      HexNumberDefined(s[..2]);
      PairSumDefined(s[2..]);
      assert forall k :: 2 <= k < |s| ==> s[2..][k - 2] == s[k];
      assert forall k :: 0 <= k < 2 ==> s[..2][k] == s[k];
    }
  }

  /** The sum over a concatenation whose first part has an even length. */
  lemma {:induction false} PairSumAppend(a: string, b: string)
    requires |a| % 2 == 0
    requires PairSum(a).Some? && PairSum(b).Some?
    ensures PairSum(a + b) == Some(PairSum(a).value + PairSum(b).value)
    decreases |a|
  {
    if |a| > 0 {
      assert (a + b)[..2] == a[..2];
      assert (a + b)[2..] == a[2..] + b;
      PairSumAppend(a[2..], b);
    } else {
      assert a + b == b;
    }
  }

  /** `calc_lrc(hexstr)`: the two's complement of the byte sum, masked to eight bits and
      written as two upper-case digits. The LRC cancels the sum modulo 256. */
  function LrcOf(hexstr: string): (r: Result<string>)
    ensures r.Ok? <==> PairSum(hexstr).Some?
    ensures r.Err? ==> r.fault == ValueError
    ensures r.Ok? ==> |r.value| == 2 && IsUpperHex(r.value)
  {
    match PairSum(hexstr)
    case None => Err(ValueError)
    case Some(total) => Ok(Hex2((-total) % 256))
  }

  /** The LRC cancels the byte sum modulo 256. */
  lemma LrcCancels(hexstr: string)
    requires PairSum(hexstr).Some?
    ensures HexNumber(LrcOf(hexstr).value).Some?
    ensures (PairSum(hexstr).value + HexNumber(LrcOf(hexstr).value).value) % 256 == 0
  {
    var t := PairSum(hexstr).value;
    var v := (-t) % 256;
    Hex2RoundTrip(v);
    var q := (-t) / 256;
    assert -t == 256 * q + v;
    ByteResidue(t + v, 0, -q);
  }

  lemma LrcOfSum(hexstr: string, total: int)
    requires PairSum(hexstr) == Some(total)
    ensures LrcOf(hexstr) == Ok(Hex2((-total) % 256))
  {
  }

  /** Appended to an even number of digits, the LRC brings the byte sum of the whole
      to zero modulo 256: the check a receiver makes. */
  lemma LrcCompletesSum(body: string, check: string)
    requires |body| % 2 == 0 && LrcOf(body) == Ok(check)
    ensures PairSum(body + check).Some? && PairSum(body + check).value % 256 == 0
  {
    var t := PairSum(body).value;
    LrcCancels(body);
    var v := HexNumber(check).value;
    CheckDigitsAppended(body, check, t, v);
    SameResidue(PairSum(body + check).value, t + v);
  }

  lemma CheckDigitsAppended(body: string, check: string, b: int, h: int)
    requires |body| % 2 == 0 && PairSum(body) == Some(b)
    requires |check| == 2 && HexNumber(check) == Some(h)
    ensures PairSum(body + check) == Some(b + h)
  {
    assert check[..2] == check && check[2..] == "";
    assert PairSum(check) == Some(h);
    PairSumAppend(body, check);
  }

  lemma SameResidue(x: int, y: int)
    requires x == y
    ensures x % 256 == y % 256
  {
  }

  /** No other pair of upper-case digits cancels the sum: the LRC is determined. */
  lemma LrcIsUnique(hexstr: string, l: string)
    requires PairSum(hexstr).Some?
    requires |l| == 2 && IsUpperHex(l) && HexNumber(l).Some?
    requires (PairSum(hexstr).value + HexNumber(l).value) % 256 == 0
    ensures LrcOf(hexstr) == Ok(l)
  {
    var t := PairSum(hexstr).value;
    var v := HexNumber(l).value;
    assert (-t) % 256 == v by {
      var q := (t + v) / 256;
      assert t + v == 256 * q;
      ByteResidue(-t, v, -q);
    }
    assert Hex2(v) == l by {
      Hex2Canonical(l);
    }
  }

  /** A value below 256 that differs from `x` by a multiple of 256 is `x % 256`. */
  lemma ByteResidue(x: int, v: int, q: int)
    requires 0 <= v < 256 && x == v + 256 * q
    ensures x % 256 == v
  {
  }

  /** `calc_lrc` as the source runs it: a loop over the pairs accumulating `total`. */
  method CalcLrc(hexstr: string) returns (r: Result<string>)
    ensures r == LrcOf(hexstr)
  {
    var total := 0;
    var i := 0;
    while i < |hexstr|
      invariant 0 <= i <= |hexstr| + 1 && i % 2 == 0
      invariant i < |hexstr| ==> PairSum(hexstr).Some? == PairSum(hexstr[i..]).Some?
      invariant i < |hexstr| && PairSum(hexstr).Some? ==>
                  PairSum(hexstr).value == total + PairSum(hexstr[i..]).value
      invariant i >= |hexstr| ==> PairSum(hexstr) == Some(total)
    {
      var pair := Slice(hexstr, i, i + 2);
      var v := HexNumber(pair);
      assert pair == hexstr[i..][..if |hexstr| - i >= 2 then 2 else 1];
      assert hexstr[i..][|pair|..] == hexstr[i + |pair|..];
      if v.None? {
        return Err(ValueError);
      }
      total := total + v.value;
      i := i + 2;
    }
    r := Ok(Hex2((-total) % 256));
  }

  const DEVICE_ADDRESS := "01"
  const WRITE_SINGLE_REGISTER := "06"

  /** The fixed request `:010347000002B3\r\n`: read two registers from 0x4700 (PV, then SV). */
  const READ_REQUEST := ":010347000002B3\r\n"

  /** `calc_lrc`'s first pair of `s` added to the sum of the rest. */
  lemma PairSumStep(s: string, head: nat, rest: int)
    requires |s| >= 2 && IsHexDigit(s[0]) && IsHexDigit(s[1])
    requires head == 16 * HexDigitValue(s[0]).value + HexDigitValue(s[1]).value
    requires PairSum(s[2..]) == Some(rest)
    ensures PairSum(s) == Some(head + rest)
  {
    PairHead(s, head);
    PairSumCons(s, head, rest);
  }

  lemma PairHead(s: string, head: nat)
    requires |s| >= 2 && IsHexDigit(s[0]) && IsHexDigit(s[1])
    requires head == 16 * HexDigitValue(s[0]).value + HexDigitValue(s[1]).value
    ensures HexNumber(s[..2]) == Some(head)
  {
    var pair := s[..2];
    assert pair[0] == s[0] && pair[1] == s[1];
    HexPair(pair);
  }

  lemma PairSumCons(s: string, head: nat, rest: int)
    requires |s| >= 2 && HexNumber(s[..2]) == Some(head) && PairSum(s[2..]) == Some(rest)
    ensures PairSum(s) == Some(head + rest)
  {
  }

  lemma ReadRequestSum()
    ensures PairSum("010347000002") == Some(0x4D)
  {
    var s := "010347000002";
    var s1 := s[2..];
    var s2 := s1[2..];
    var s3 := s2[2..];
    var s4 := s3[2..];
    var s5 := s4[2..];
    assert s5[2..] == "";
    PairSumStep(s5, 2, 0);
    PairSumStep(s4, 0, 2);
    PairSumStep(s3, 0, 2);
    PairSumStep(s2, 0x47, 2);
    PairSumStep(s1, 3, 0x49);
    PairSumStep(s, 1, 0x4C);
  }

  /** The request's hard-coded LRC is the one `calc_lrc` computes for its body. */
  lemma ReadRequestLrc()
    ensures LrcOf("010347000002") == Ok("B3")
    ensures READ_REQUEST == ":" + "010347000002" + "B3" + "\r\n"
  {
    assert READ_REQUEST == ":" + "010347000002" + "B3" + "\r\n";
    assert (-0x4D) % 256 == 179;
    assert Hex2(179) == "B3" by { Hex2Literal("B3"); }
    ReadRequestSum();
    LrcOfSum("010347000002", 0x4D);
  }

  /** The message body of `PIDcommander`: address, function code, register, value. */
  function WriteBody(register: Word, value: Word): (body: string)
    ensures |body| == 12 && IsUpperHex(body)
  {
    DEVICE_ADDRESS + WRITE_SINGLE_REGISTER + Hex4(register) + Hex4(value)
  }

  lemma WriteBodyHasLrc(register: Word, value: Word)
    ensures LrcOf(WriteBody(register, value)).Ok?
  {
    var body := WriteBody(register, value);
    assert forall k :: 0 <= k < |body| ==> IsHexDigit(body[k]);
    PairSumDefined(body);
  }

  /** The full frame `PIDcommander` sends: `:` + body + LRC + CR LF. */
  function WriteFrame(register: Word, value: Word): (frame: string)
    ensures |frame| == 17
  {
    var body := WriteBody(register, value);
    WriteBodyHasLrc(register, value);
    ":" + body + LrcOf(body).value + "\r\n"
  }

  /** A receiver checking the frame finds its register, its value, and a byte sum
      (LRC included) that is zero modulo 256. */
  lemma WriteFrameDecodes(register: Word, value: Word)
    ensures var frame := WriteFrame(register, value);
            && frame[0] == ':' && frame[15..] == "\r\n"
            && frame[1..5] == DEVICE_ADDRESS + WRITE_SINGLE_REGISTER
            && HexNumber(frame[5..9]) == Some(register)
            && HexNumber(frame[9..13]) == Some(value)
            && PairSum(frame[1..15]).Some? && PairSum(frame[1..15]).value % 256 == 0
  {
    var body := WriteBody(register, value);
    WriteBodyHasLrc(register, value);
    var frame := WriteFrame(register, value);
    assert frame[1..15] == body + LrcOf(body).value;
    assert frame[5..9] == Hex4(register);
    assert frame[9..13] == Hex4(value);
    Hex4RoundTrip(register);
    Hex4RoundTrip(value);
    LrcCompletesSum(body, LrcOf(body).value);
  }


  lemma WriteExampleSum()
    ensures PairSum("010647010190") == Some(224)
  {
    var s := "010647010190";
    var s1 := s[2..];
    var s2 := s1[2..];
    var s3 := s2[2..];
    var s4 := s3[2..];
    var s5 := s4[2..];
    assert s5[2..] == "";
    PairSumStep(s5, 0x90, 0);
    PairSumStep(s4, 1, 0x90);
    PairSumStep(s3, 1, 0x91);
    PairSumStep(s2, 0x47, 0x92);
    PairSumStep(s1, 6, 0xD9);
    PairSumStep(s, 1, 0xDF);
  }

  lemma WriteFrameParts(register: Word, value: Word)
    ensures LrcOf(WriteBody(register, value)).Ok?
    ensures WriteFrame(register, value)
            == ":" + WriteBody(register, value) + LrcOf(WriteBody(register, value)).value + "\r\n"
  {
    WriteBodyHasLrc(register, value);
  }

  lemma WriteExampleBody()
    ensures WriteBody(0x4701, 400) == "010647010190"
  {
    assert "01" + "06" + ("47" + "01") + ("01" + "90") == "010647010190";
    assert Hex4(0x4701) == "47" + "01" by {
      Hex2Literal("47");
      Hex2Literal("01");
    }
    assert Hex4(400) == "01" + "90" by {
      Hex2Literal("01");
      Hex2Literal("90");
    }
  }

  lemma WriteExampleLrc()
    ensures LrcOf("010647010190") == Ok("20")
  {
    assert (-224) % 256 == 32;
    assert Hex2(32) == "20" by { Hex2Literal("20"); }
    WriteExampleSum();
    LrcOfSum("010647010190", 224);
  }

  /** The frame of the example in the source: SV register 0x4701 set to 400 (40.0 degC). */
  lemma WriteFrameExample()
    ensures WriteFrame(0x4701, 400) == ":01064701019020\r\n"
  {
    assert ":" + "010647010190" + "20" + "\r\n" == ":01064701019020\r\n";
    WriteExampleBody();
    WriteExampleLrc();
    WriteFrameParts(0x4701, 400);
  }

  /** What `PIDDataReadout` makes of one reply line. */
  datatype Readout =
    | NoFrame                          // the line does not start with `:`; Python returns None
    | LrcMismatch(diagnostic: string)  // Python returns the diagnostic string
    | Reading(pv: nat, sv: nat)        // register values, in tenths of a degree

  function Diagnostic(raw: string, body: string, computed: string, received: string): string
  {
    "raw=" + raw + ", body=" + body + ", lrc_calc=" + computed + ", lrc_recv=" + received
  }

  /** `PIDDataReadout` after the read: the reply `raw` (already stripped) is split into
      PV = body[6:10], SV = body[10:14] and the received LRC body[14:16], and the LRC is
      recomputed over body[:-2]. Only the recomputation can raise. */
  function DecodeReply(raw: string): (r: Result<Readout>)
    ensures r == Ok(NoFrame) <==> !StartsWith(raw, ":")
    ensures r.Err? ==> r.fault == ValueError && StartsWith(raw, ":") && LrcOf(DropLast2(raw[1..])).Err?
    ensures r.Ok? && r.value.LrcMismatch? ==> StartsWith(r.value.diagnostic, "raw=")
    ensures r.Ok? && r.value.Reading? ==> r.value.pv < 0x1_0000 && r.value.sv < 0x1_0000
  {
    if !StartsWith(raw, ":") then Ok(NoFrame)
    else
      var body := raw[1..];
      var received := Slice(body, 14, 16);
      match LrcOf(DropLast2(body))
      case Err(e) => Err(e)
      case Ok(computed) =>
        if computed != received then
          var d := Diagnostic(raw, body, computed, received);
          assert d[..4] == "raw=";
          Ok(LrcMismatch(d))
        else
          DataFieldsAreHex(body);
          Ok(Reading(HexNumber(Slice(body, 6, 10)).value, HexNumber(Slice(body, 10, 14)).value))
  }

  /** Once the received LRC matches, PV and SV were part of the checked digits, so
      `int(data, 16)` cannot raise. */
  lemma DataFieldsAreHex(body: string)
    requires LrcOf(DropLast2(body)).Ok?
    requires LrcOf(DropLast2(body)).value == Slice(body, 14, 16)
    ensures |body| >= 16
    ensures HexNumber(Slice(body, 6, 10)).Some? && HexNumber(Slice(body, 6, 10)).value < 0x1_0000
    ensures HexNumber(Slice(body, 10, 14)).Some? && HexNumber(Slice(body, 10, 14)).value < 0x1_0000
  {
    var checked := DropLast2(body);
    assert |body| >= 16;
    PairSumDefined(checked);
    HexNumberDefined(Slice(body, 6, 10));
    HexNumberDefined(Slice(body, 10, 14));
    assert forall k :: 6 <= k < 14 ==> checked[k] == body[k];
    HexNumberBound(Slice(body, 6, 10));
    HexNumberBound(Slice(body, 10, 14));
    assert Pow16(4) == 0x1_0000;
  }

  /** The body of the controller's reply to READ_REQUEST: address 01, function 03,
      byte count 04, then PV and SV. */
  function ReplyBody(pv: Word, sv: Word): (body: string)
    ensures |body| == 14 && IsUpperHex(body)
  {
    DEVICE_ADDRESS + "03" + "04" + Hex4(pv) + Hex4(sv)
  }

  lemma ReplyBodyHasLrc(pv: Word, sv: Word)
    ensures LrcOf(ReplyBody(pv, sv)).Ok?
  {
    var body := ReplyBody(pv, sv);
    assert forall k :: 0 <= k < |body| ==> IsHexDigit(body[k]);
    PairSumDefined(body);
  }

  /** A well-formed reply line, as `readline` returns it. */
  function ReplyFrame(pv: Word, sv: Word): (frame: string)
    ensures |frame| == 19
  {
    ReplyBodyHasLrc(pv, sv);
    ":" + ReplyBody(pv, sv) + LrcOf(ReplyBody(pv, sv)).value + "\r\n"
  }

  /** Stripping a reply line removes exactly its CR LF. */
  lemma ReplyFrameStrip(pv: Word, sv: Word)
    ensures LrcOf(ReplyBody(pv, sv)).Ok?
    ensures Strip(ReplyFrame(pv, sv)) == ":" + ReplyBody(pv, sv) + LrcOf(ReplyBody(pv, sv)).value
  {
    var body := ReplyBody(pv, sv);
    ReplyBodyHasLrc(pv, sv);
    var core := ":" + body + LrcOf(body).value;
    assert ReplyFrame(pv, sv) == "" + core + "\r\n";
    assert core[0] == ':';
    assert !IsSpace(core[|core| - 1]) by {
      assert core[|core| - 1] == LrcOf(body).value[1];
    }
    StripKeepsCore("", core, "\r\n");
  }

  /** Decoding a well-formed reply gives back the two register values. */
  lemma DecodeReplyFrame(pv: Word, sv: Word)
    ensures DecodeReply(Strip(ReplyFrame(pv, sv))) == Ok(Reading(pv, sv))
  {
    var body := ReplyBody(pv, sv);
    ReplyFrameStrip(pv, sv);
    var lrc := LrcOf(body).value;
    var raw := ":" + body + lrc;
    assert StartsWith(raw, ":");
    var b := raw[1..];
    assert b == body + lrc;
    assert DropLast2(b) == body;
    assert Slice(b, 14, 16) == lrc;
    assert Slice(b, 6, 10) == Hex4(pv);
    assert Slice(b, 10, 14) == Hex4(sv);
    Hex4RoundTrip(pv);
    Hex4RoundTrip(sv);
  }

  /** A reply whose LRC field was altered is reported as a mismatch, never as a reading. */
  lemma DecodeDetectsBadLrc(pv: Word, sv: Word, l: string)
    requires |l| == 2 && LrcOf(ReplyBody(pv, sv)) != Ok(l)
    ensures DecodeReply(":" + ReplyBody(pv, sv) + l).Ok?
    ensures DecodeReply(":" + ReplyBody(pv, sv) + l).value.LrcMismatch?
  {
    var body := ReplyBody(pv, sv);
    ReplyBodyHasLrc(pv, sv);
    var raw := ":" + body + l;
    var b := raw[1..];
    assert b == body + l;
    assert DropLast2(b) == body;
    assert Slice(b, 14, 16) == l;
  }
}
