/** Python's `float(text)` (which numpy's `float64` applies to each string) for decimal
    literals: white space around, an optional sign, digits with an optional decimal
    point, and an optional exponent. The literal is read one character at a time, and
    its value is exact, over the reals. */
module Decimal {
  import opened Common

  predicate IsDigit(c: char)
  {
    '0' <= c <= '9'
  }

  predicate AllDigits(s: string)
  {
    forall k :: 0 <= k < |s| ==> IsDigit(s[k])
  }

  /** The value of one decimal digit. */
  function DigitValue(c: char): (v: nat)
    ensures v < 10
  {
    if IsDigit(c) then c as int - '0' as int else 0
  }

  /** The number a run of decimal digits spells. */
  function DigitsValue(s: string): nat
  {
    if |s| == 0 then 0
    else DigitsValue(s[..|s| - 1]) * 10 + DigitValue(s[|s| - 1])
  }

  /** `v` followed by `k` zero digits. */
  function Shifted(v: nat, k: nat): nat
  {
    if k == 0 then v else 10 * Shifted(v, k - 1)
  }

  /** `m` times ten to the power `e`. */
  function Scale(m: real, e: int): (r: real)
    requires m >= 0.0
    ensures r >= 0.0
    decreases if e >= 0 then e else -e
  {
    if e == 0 then m
    else if e > 0 then 10.0 * Scale(m, e - 1)
    else Scale(m, e + 1) / 10.0
  }

  /** Where in an unsigned literal the reader is. */
  datatype Phase =
    | Whole           // integer digits
    | Fraction        // after the decimal point
    | ExponentMark    // just after `e` or `E`
    | ExponentSign    // after the exponent's sign
    | ExponentDigits  // inside the exponent's digits

  /** What has been read so far: every mantissa digit (integer and fraction part) as one
      integer, how many digits that was, how many of them follow the point, and the
      exponent read so far. */
  datatype Reader = Reader(phase: Phase, mantissa: nat, digits: nat, fractionDigits: nat,
                           exponentNegative: bool, exponent: nat)

  const START := Reader(Whole, 0, 0, 0, false, 0)

  /** The reader after one more character, or None where `float` raises ValueError. */
  function Step(r: Reader, c: char): Option<Reader>
  {
    match r.phase
    case Whole =>
      if IsDigit(c) then Some(r.(mantissa := 10 * r.mantissa + DigitValue(c), digits := r.digits + 1))
      else if c == '.' then Some(r.(phase := Fraction))
      else if c == 'e' || c == 'E' then Some(r.(phase := ExponentMark))
      else None
    case Fraction =>
      if IsDigit(c) then
        Some(r.(mantissa := 10 * r.mantissa + DigitValue(c), digits := r.digits + 1,
                fractionDigits := r.fractionDigits + 1))
      else if c == 'e' || c == 'E' then Some(r.(phase := ExponentMark))
      else None
    case ExponentMark =>
      if c == '+' || c == '-' then Some(r.(phase := ExponentSign, exponentNegative := c == '-'))
      else if IsDigit(c) then Some(r.(phase := ExponentDigits, exponent := DigitValue(c)))
      else None
    case ExponentSign =>
      if IsDigit(c) then Some(r.(phase := ExponentDigits, exponent := DigitValue(c)))
      else None
    case ExponentDigits =>
      if IsDigit(c) then Some(r.(exponent := 10 * r.exponent + DigitValue(c)))
      else None
  }

  /** The reader after all of `s`. */
  function Scan(s: string, r: Reader): Option<Reader>
  {
    if |s| == 0 then Some(r)
    else
      match Step(r, s[0])
      case None => None
      case Some(next) => Scan(s[1..], next)
  }

  /** The value once the text has ended: at least one mantissa digit, and no exponent
      mark left without digits. */
  function Finish(r: Reader): (v: Option<real>)
    ensures v.Some? ==> v.value >= 0.0
  {
    if r.digits == 0 || r.phase == ExponentMark || r.phase == ExponentSign then None
    else
      var e := if r.exponentNegative then -(r.exponent as int) else r.exponent as int;
      Some(Scale(r.mantissa as real, e - r.fractionDigits))
  }

  /** The value of an unsigned literal `s` (no white space, no sign). */
  function MagnitudeValue(s: string): (v: Option<real>)
    ensures v.Some? ==> v.value >= 0.0
  {
    match Scan(s, START)
    case None => None
    case Some(r) => Finish(r)
  }

  /** A literal with the white space already stripped: an optional sign, then the
      magnitude. */
  function SignedValue(t: string): Option<real>
  {
    var signed := |t| > 0 && (t[0] == '+' || t[0] == '-');
    match MagnitudeValue(if signed then t[1..] else t)
    case None => None
    case Some(v) => Some(if signed && t[0] == '-' then -v else v)
  }

  /** `float(text)`: None where Python raises ValueError. */
  function ParseReal(text: string): (v: Option<real>)
    ensures v.Some? ==> |Strip(text)| > 0
  {
    var t := Strip(text);
    assert |t| == 0 ==> SignedValue(t).None? by {
      if |t| == 0 {
        assert Scan(t, START) == Some(START);
      }
    }
    SignedValue(t)
  }

  /** Digits read in the integer or the fraction part accumulate into the mantissa. */
  lemma {:induction false} ScanDigits(w: string, rest: string, r: Reader)
    requires AllDigits(w) && (r.phase == Whole || r.phase == Fraction)
    ensures Scan(w + rest, r) ==
              Scan(rest, r.(mantissa := Shifted(r.mantissa, |w|) + DigitsValue(w),
                            digits := r.digits + |w|,
                            fractionDigits := r.fractionDigits + (if r.phase == Fraction then |w| else 0)))
    decreases |w|
  {
    if |w| == 0 {
      assert w + rest == rest;
    } else {
      var front := w[..|w| - 1];
      var c := w[|w| - 1];
      assert w + rest == front + ([c] + rest);
      ScanDigits(front, [c] + rest, r);
      var mid := r.(mantissa := Shifted(r.mantissa, |front|) + DigitsValue(front),
                    digits := r.digits + |front|,
                    fractionDigits := r.fractionDigits + (if r.phase == Fraction then |front| else 0));
      assert ([c] + rest)[1..] == rest;
      assert IsDigit(c);
      assert DigitsValue(w) == DigitsValue(front) * 10 + DigitValue(c);
    }
  }

  /** `f"{n}"` reads back as the same number. */
  lemma {:induction false} NatTextDigits(n: nat)
    ensures AllDigits(NatText(n)) && DigitsValue(NatText(n)) == n
  {
    var s := NatText(n);
    if n >= 10 {
      NatTextDigits(n / 10);
      assert s[..|s| - 1] == NatText(n / 10);
    }
  }

  lemma NatTextMagnitude(n: nat)
    ensures MagnitudeValue(NatText(n)) == Some(n as real)
  {
    var s := NatText(n);
    NatTextDigits(n);
    ScanDigits(s, "", START);
    ZeroShifted(|s|);
    assert s + "" == s;
  }

  /** Text with no white space at either end is what `float` sees. */
  lemma DigitsEndsStrip(s: string)
    requires |s| > 0 && (IsDigit(s[0]) || s[0] == '-') && IsDigit(s[|s| - 1])
    ensures Strip(s) == s
  {
    StripKeepsCore("", s, "");
    assert "" + s + "" == s;
  }

  /** An unsigned literal parses to its magnitude. */
  lemma ParseUnsigned(s: string)
    requires |s| > 0 && IsDigit(s[0]) && IsDigit(s[|s| - 1])
    ensures ParseReal(s) == MagnitudeValue(s)
  {
    DigitsEndsStrip(s);
  }

  lemma NegativeStrips(s: string)
    requires |s| > 0 && IsDigit(s[|s| - 1])
    ensures Strip("-" + s) == "-" + s
  {
    var t := "-" + s;
    assert t[0] == '-' && t[|t| - 1] == s[|s| - 1];
    DigitsEndsStrip(t);
  }

  lemma NegativeValue(s: string)
    requires MagnitudeValue(s).Some?
    ensures SignedValue("-" + s) == Some(-MagnitudeValue(s).value)
  {
    var t := "-" + s;
    assert t[0] == '-' && t[1..] == s;
  }

  /** A literal after a minus sign parses to its negated magnitude. */
  lemma ParseNegative(s: string)
    requires |s| > 0 && IsDigit(s[|s| - 1])
    requires MagnitudeValue(s).Some?
    ensures ParseReal("-" + s) == Some(-MagnitudeValue(s).value)
  {
    NegativeStrips(s);
    NegativeValue(s);
  }

  /** An integer written by `f"{n}"` parses back to itself: the parser and the
      formatter agree. */
  lemma ParseIntText(n: int)
    ensures ParseReal(IntText(n)) == Some(n as real)
  {
    if n >= 0 {
      ParseNatText(n);
    } else {
      ParseNegatedText(-n);
    }
  }

  lemma ParseNatText(m: nat)
    ensures ParseReal(NatText(m)) == Some(m as real)
  {
    NatTextDigits(m);
    ParseUnsigned(NatText(m));
    NatTextMagnitude(m);
  }

  lemma ParseNegatedText(m: nat)
    ensures ParseReal("-" + NatText(m)) == Some(-(m as real))
  {
    NatTextEndsInDigit(m);
    ParseNegative(NatText(m));
  }

  /** `f"{n}"` ends in a digit and reads as `n`: it may follow a minus sign. */
  lemma NatTextEndsInDigit(m: nat)
    ensures |NatText(m)| > 0 && IsDigit(NatText(m)[|NatText(m)| - 1])
    ensures MagnitudeValue(NatText(m)) == Some(m as real)
  {
    var s := NatText(m);
    assert IsDigit(s[|s| - 1]);
    NatTextMagnitude(m);
  }

  /** Reading one character is one step. */
  lemma ScanOne(c: char, rest: string, r: Reader)
    requires Step(r, c).Some?
    ensures Scan([c] + rest, r) == Scan(rest, Step(r, c).value)
  {
    assert ([c] + rest)[1..] == rest;
  }

  /** The point and one fraction digit after the integer digits. */
  lemma PointAndDigit(m: nat, k: nat, d: nat)
    requires d < 10
    ensures Scan(['.', DecimalDigit(d)], Reader(Whole, m, k, 0, false, 0))
            == Some(Reader(Fraction, 10 * m + d, k + 1, 1, false, 0))
  {
    var c := DecimalDigit(d);
    assert ['.', c] == ['.'] + [c];
    ScanOne('.', [c], Reader(Whole, m, k, 0, false, 0));
    assert DigitValue(c) == d;
    ScanOne(c, "", Reader(Fraction, m, k, 0, false, 0));
    assert [c] + "" == [c];
  }

  /** "digits.d" has the value of its digits plus `d` tenths. */
  lemma OneDecimalMagnitude(w: string, d: nat, m: nat)
    requires AllDigits(w) && DigitsValue(w) == m && d < 10
    ensures MagnitudeValue(w + ['.', DecimalDigit(d)]) == Some(m as real + d as real / 10.0)
  {
    ScanOneDecimal(w, d, m);
    TenthsOfScan(w, d, m);
  }

  /** Reading "digits.d" ends in the fraction part, with every digit in the mantissa. */
  lemma ScanOneDecimal(w: string, d: nat, m: nat)
    requires AllDigits(w) && DigitsValue(w) == m && d < 10
    ensures Scan(w + ['.', DecimalDigit(d)], START) == Some(Reader(Fraction, 10 * m + d, |w| + 1, 1, false, 0))
  {
    var tail := ['.', DecimalDigit(d)];
    ScanDigits(w, tail, START);
    ZeroShifted(|w|);
    assert Scan(w + tail, START) == Scan(tail, Reader(Whole, m, |w|, 0, false, 0));
    PointAndDigit(m, |w|, d);
  }

  lemma TenthsOfScan(w: string, d: nat, m: nat)
    requires d < 10
    requires Scan(w + ['.', DecimalDigit(d)], START) == Some(Reader(Fraction, 10 * m + d, |w| + 1, 1, false, 0))
    ensures MagnitudeValue(w + ['.', DecimalDigit(d)]) == Some(m as real + d as real / 10.0)
  {
    FinishTenths(m, |w|, d);
  }

  /** One fraction digit scales the mantissa down by ten. */
  lemma FinishTenths(m: nat, k: nat, d: nat)
    ensures Finish(Reader(Fraction, 10 * m + d, k + 1, 1, false, 0)) == Some(m as real + d as real / 10.0)
  {
    var x := (10 * m + d) as real;
    assert Scale(x, -1) == Scale(x, 0) / 10.0;
  }

  lemma {:induction false} ZeroShifted(k: nat)
    ensures Shifted(0, k) == 0
  {
    if k > 0 {
      ZeroShifted(k - 1);
    }
  }

  /** A decimal point and one fraction digit add tenths: "12.5" is 12.5. */
  lemma ParseOneDecimal(w: string, d: nat, m: nat)
    requires |w| > 0 && AllDigits(w) && DigitsValue(w) == m && d < 10
    ensures ParseReal(w + ['.', DecimalDigit(d)]) == Some(m as real + d as real / 10.0)
  {
    var s := w + ['.', DecimalDigit(d)];
    assert s[0] == w[0] && s[|s| - 1] == DecimalDigit(d);
    ParseUnsigned(s);
    OneDecimalMagnitude(w, d, m);
  }

  /** The digits of `a` then those of `b` spell `a`'s number shifted by `|b|` places,
      plus `b`'s. */
  lemma {:induction false} DigitsConcat(a: string, b: string)
    ensures DigitsValue(a + b) == Shifted(DigitsValue(a), |b|) + DigitsValue(b)
    decreases |b|
  {
    if |b| == 0 {
      assert a + b == a;
    } else {
      var front := b[..|b| - 1];
      DigitsConcat(a, front);
      assert (a + b)[..|a + b| - 1] == a + front;
      assert (a + b)[|a + b| - 1] == b[|b| - 1];
    }
  }

  /** Digits of the exponent accumulate into it. */
  lemma {:induction false} ScanExponentDigits(x: string, rest: string, r: Reader)
    requires AllDigits(x) && r.phase == ExponentDigits
    ensures Scan(x + rest, r) == Scan(rest, r.(exponent := Shifted(r.exponent, |x|) + DigitsValue(x)))
    decreases |x|
  {
    if |x| == 0 {
      assert x + rest == rest;
    } else {
      var front := x[..|x| - 1];
      var c := x[|x| - 1];
      assert x + rest == front + ([c] + rest);
      ScanExponentDigits(front, [c] + rest, r);
      assert ([c] + rest)[1..] == rest;
      assert IsDigit(c);
    }
  }

  /** Integer digits, a point and fraction digits: the reader is in the fraction part with
      all of those digits as one mantissa. */
  lemma ScanMantissa(w: string, f: string, rest: string)
    requires AllDigits(w) && AllDigits(f)
    ensures Scan(w + "." + f + rest, START)
            == Scan(rest, Reader(Fraction, DigitsValue(w + f), |w| + |f|, |f|, false, 0))
  {
    assert w + "." + f + rest == w + (['.'] + (f + rest));
    ScanDigits(w, ['.'] + (f + rest), START);
    ZeroShifted(|w|);
    var whole := Reader(Whole, DigitsValue(w), |w|, 0, false, 0);
    ScanOne('.', f + rest, whole);
    ScanDigits(f, rest, whole.(phase := Fraction));
    DigitsConcat(w, f);
  }

  /** `e`, an optional exponent sign and the exponent's digits end the literal in the
      exponent's digits, with the sign and value read. */
  lemma ScanExponent(sign: string, x: string, r: Reader)
    requires r.phase == Fraction && r.exponent == 0 && !r.exponentNegative
    requires sign == "" || sign == "+" || sign == "-"
    requires |x| > 0 && AllDigits(x)
    ensures Scan("e" + sign + x, r)
            == Some(r.(phase := ExponentDigits, exponentNegative := sign == "-", exponent := DigitsValue(x)))
  {
    var before := r.(phase := if sign == "" then ExponentMark else ExponentSign, exponentNegative := sign == "-");
    assert Scan("e" + sign + x, r) == Scan(x, before) by {
      ScanSign(sign, x, r);
    }
    var counting := before.(phase := ExponentDigits);
    assert Scan(x, before) == Scan(x, counting) by {
      assert x == [x[0]] + x[1..];
      FirstExponentDigit(x[0], x[1..], before);
    }
    assert Scan(x, counting) == Some(counting.(exponent := DigitsValue(x))) by {
      ScanExponentDigits(x, "", counting);
      assert x + "" == x;
      ZeroShifted(|x|);
    }
  }

  /** The first exponent digit sets the exponent as a later one would from zero. */
  lemma FirstExponentDigit(c: char, rest: string, r: Reader)
    requires (r.phase == ExponentMark || r.phase == ExponentSign) && r.exponent == 0 && IsDigit(c)
    ensures Scan([c] + rest, r) == Scan([c] + rest, r.(phase := ExponentDigits))
  {
    var counting := r.(phase := ExponentDigits);
    assert Step(r, c) == Step(counting, c) == Some(counting.(exponent := DigitValue(c)));
    ScanOne(c, rest, r);
    ScanOne(c, rest, counting);
  }

  /** `e` and an optional exponent sign. */
  lemma ScanSign(sign: string, x: string, r: Reader)
    requires r.phase == Fraction && !r.exponentNegative
    requires sign == "" || sign == "+" || sign == "-"
    ensures Scan("e" + sign + x, r)
            == Scan(x, r.(phase := if sign == "" then ExponentMark else ExponentSign, exponentNegative := sign == "-"))
  {
    var marked := r.(phase := ExponentMark);
    assert "e" + sign + x == ['e'] + (sign + x);
    ScanOne('e', sign + x, r);
    if sign != "" {
      assert sign + x == [sign[0]] + x;
      ScanOne(sign[0], x, marked);
    } else {
      assert sign + x == x;
    }
  }

  /** `float` of digits, a point, fraction digits and an exponent: all mantissa digits as
      one integer, scaled by ten to the signed exponent `e` less the number of fraction
      digits. */
  lemma ParseScientific(w: string, f: string, sign: string, x: string, e: int)
    requires |w| > 0 && AllDigits(w) && AllDigits(f) && |x| > 0 && AllDigits(x)
    requires sign == "" || sign == "+" || sign == "-"
    requires e == if sign == "-" then -(DigitsValue(x) as int) else DigitsValue(x) as int
    ensures ParseReal(w + "." + f + "e" + sign + x) == Some(Scale(DigitsValue(w + f) as real, e - |f|))
  {
    var s := w + "." + f + "e" + sign + x;
    assert s[0] == w[0] && s[|s| - 1] == x[|x| - 1];
    ParseUnsigned(s);
    MagnitudeScientific(s, w, f, sign, x, e);
  }

  /** The magnitude of digits, a point, fraction digits and an exponent. */
  lemma MagnitudeScientific(s: string, w: string, f: string, sign: string, x: string, e: int)
    requires |w| + |f| > 0 && AllDigits(w) && AllDigits(f) && |x| > 0 && AllDigits(x)
    requires sign == "" || sign == "+" || sign == "-"
    requires s == w + "." + f + "e" + sign + x
    requires e == if sign == "-" then -(DigitsValue(x) as int) else DigitsValue(x) as int
    ensures MagnitudeValue(s) == Some(Scale(DigitsValue(w + f) as real, e - |f|))
  {
    var last := Reader(ExponentDigits, DigitsValue(w + f), |w| + |f|, |f|, sign == "-", DigitsValue(x));
    ScanScientific(w, f, sign, x);
    MagnitudeOfExponent(s, last, DigitsValue(w + f), e - |f|);
  }

  /** A literal read to the end of its exponent's digits has its mantissa scaled by the
      signed exponent less the fraction digits. */
  lemma MagnitudeOfExponent(s: string, r: Reader, m: nat, p: int)
    requires Scan(s, START) == Some(r) && r.digits > 0 && r.phase == ExponentDigits && r.mantissa == m
    requires (if r.exponentNegative then -(r.exponent as int) else r.exponent as int) - r.fractionDigits == p
    ensures MagnitudeValue(s) == Some(Scale(m as real, p))
  {
  }

  /** The reader's state after digits, a point, fraction digits and an exponent. */
  lemma ScanScientific(w: string, f: string, sign: string, x: string)
    requires AllDigits(w) && AllDigits(f) && |x| > 0 && AllDigits(x)
    requires sign == "" || sign == "+" || sign == "-"
    ensures Scan(w + "." + f + "e" + sign + x, START)
            == Some(Reader(ExponentDigits, DigitsValue(w + f), |w| + |f|, |f|, sign == "-", DigitsValue(x)))
  {
    var read := Reader(Fraction, DigitsValue(w + f), |w| + |f|, |f|, false, 0);
    var mantissa := w + "." + f;
    Regroup(mantissa, "e", sign);
    Regroup(mantissa, "e" + sign, x);
    ScanMantissa(w, f, "e" + sign + x);
    ScanExponent(sign, x, read);
  }

  /** "-1.5e-3" is -0.0015. */
  lemma ParseScientificExample()
    ensures ParseReal("-1.5e-3") == Some(-0.0015)
  {
    var s := "1.5e-3";
    assert MagnitudeValue(s) == Some(0.0015) by {
      assert s == "1" + "." + "5" + "e" + "-" + "3";
      MagnitudeScientific(s, "1", "5", "-", "3", -3);
      assert DigitsValue("1" + "5") == 15 by {
        assert "1" + "5" == "15";
      }
      assert Scale(15.0, -4) == 0.0015;
    }
    assert ParseReal("-" + s) == Some(-0.0015) by {
      ParseNegative(s);
    }
    assert "-" + s == "-1.5e-3";
  }

  /** A second decimal point makes `float` raise ValueError. */
  lemma ParseSecondPoint(w: string, f: string, g: string)
    requires |w| > 0 && AllDigits(w) && AllDigits(f) && |g| > 0 && AllDigits(g)
    ensures ParseReal(w + "." + f + "." + g) == None
  {
    var s := w + "." + f + "." + g;
    assert s[0] == w[0] && s[|s| - 1] == g[|g| - 1];
    DigitsEndsStrip(s);
    assert s == w + "." + f + (['.'] + g);
    ScanMantissa(w, f, ['.'] + g);
    assert (['.'] + g)[0] == '.';
  }

  /** A letter other than the exponent mark after the digits makes `float` raise
      ValueError. */
  lemma ParseStrayLetter(w: string, c: char, g: string)
    requires |w| > 0 && AllDigits(w) && AllDigits(g)
    requires ('a' <= c <= 'z' || 'A' <= c <= 'Z') && c != 'e' && c != 'E'
    ensures ParseReal(w + [c] + g) == None
  {
    var s := w + [c] + g;
    ScanStrayLetter(w, c, g);
    assert s[0] == w[0];
    ParseUnscanned(s);
  }

  /** The reader rejects a letter other than the exponent mark after the digits. */
  lemma ScanStrayLetter(w: string, c: char, g: string)
    requires AllDigits(w)
    requires ('a' <= c <= 'z' || 'A' <= c <= 'Z') && c != 'e' && c != 'E'
    ensures Scan(w + [c] + g, START) == None
  {
    assert w + [c] + g == w + ([c] + g);
    ScanDigits(w, [c] + g, START);
    var whole := START.(mantissa := Shifted(START.mantissa, |w|) + DigitsValue(w), digits := |w|);
    assert Step(whole, c) == None;
    assert ([c] + g)[0] == c;
  }

  /** An unsigned text the reader rejects makes `float` raise ValueError. */
  lemma ParseUnscanned(s: string)
    requires |s| > 0 && IsDigit(s[0]) && !IsSpace(s[|s| - 1]) && Scan(s, START) == None
    ensures ParseReal(s) == None
  {
    StripKeepsCore("", s, "");
    assert "" + s + "" == s;
  }
}
