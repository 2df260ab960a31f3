/** Exact decimal floating point: unscaled * 10^-scale, its text grammar, parser and printer. */
module DecFloat {
  import opened Wire
  import opened Decimal

  datatype Dec = Finite(unscaled: int, scale: int) | PosInf | NegInf | NaN

  datatype DecError = NoDigits | NoExponentDigits | ExponentRange | BadCharacter | ScaleRange

  datatype DecResult = Ok(d: Dec) | Err(e: DecError)

  // ---- The text grammar and what a text denotes ----

  datatype Sign = Absent | Plus | Minus

  datatype Exponent = Exponent(letter: char, sign: Sign, digits: string)

  /** [sign] digits [. digits] [eE [sign] digits] */
  datatype Numeral = Numeral(sign: Sign, ints: string, point: bool, frac: string, exp: Option<Exponent>)

  predicate ExpWellFormed(e: Option<Exponent>) {
    e.Some? ==> (e.value.letter == 'e' || e.value.letter == 'E') && AllDigits(e.value.digits) && e.value.digits != ""
  }

  predicate WellFormed(n: Numeral) {
    && AllDigits(n.ints) && AllDigits(n.frac)
    && (!n.point ==> n.frac == "")
    && (n.ints != "" || n.frac != "")
    && ExpWellFormed(n.exp)
  }

  predicate IsLetter(c: char) { c == 'e' || c == 'E' }

  function SignText(s: Sign): string {
    match s case Absent => "" case Plus => "+" case Minus => "-"
  }

  function ExpText(e: Option<Exponent>): string {
    match e
    case None => ""
    case Some(x) => [x.letter] + (SignText(x.sign) + x.digits)
  }

  function FracText(point: bool, frac: string): string {
    if point then "." + frac else ""
  }

  function Render(n: Numeral): string {
    SignText(n.sign) + (n.ints + (FracText(n.point, n.frac) + ExpText(n.exp)))
  }

  function WithSign(s: Sign, v: int): int {
    if s.Minus? then -v else v
  }

  function ExpOf(e: Option<Exponent>): int
    requires ExpWellFormed(e)
  {
    match e
    case None => 0
    case Some(x) => WithSign(x.sign, NatOf(x.digits))
  }

  function DigitsOf(n: Numeral): string { n.ints + n.frac }

  function Unscaled(n: Numeral): int
    requires WellFormed(n)
  {
    WithSign(n.sign, NatOf(DigitsOf(n)))
  }

  function ScaleOf(n: Numeral): int
    requires WellFormed(n)
  {
    |n.frac| - ExpOf(n.exp)
  }

  /** 10^k for every integer k. */
  function Tens(k: int): (x: real)
    ensures x > 0.0
    decreases if k < 0 then -k else k
  {
    if k == 0 then 1.0 else if k > 0 then 10.0 * Tens(k - 1) else Tens(k + 1) / 10.0
  }

  /** The number a text denotes: integer part plus fraction, times the power of ten. */
  function Denotes(n: Numeral): real
    requires WellFormed(n)
  {
    var magnitude := NatOf(n.ints) as real + NatOf(n.frac) as real * Tens(-|n.frac|);
    (if n.sign.Minus? then -magnitude else magnitude) * Tens(ExpOf(n.exp))
  }

  function ValueOf(d: Dec): real
    requires d.Finite?
  {
    d.unscaled as real * Tens(-d.scale)
  }

  // ---- Parsing ----

  predicate LeadsSign(s: string) { s != "" && (s[0] == '+' || s[0] == '-') }

  function SplitSign(s: string): (r: (Sign, string))
    ensures s == SignText(r.0) + r.1
  {
    if LeadsSign(s) then (if s[0] == '-' then Minus else Plus, s[1..]) else (Absent, s)
  }

  lemma SplitSignText(g: Sign, r: string)
    requires g.Absent? ==> !LeadsSign(r)
    ensures SplitSign(SignText(g) + r) == (g, r)
  {
    if g.Absent? { assert SignText(g) + r == r; }
  }

  /** The mantissa of a text and what follows it. */
  function ScanMantissa(s: string): (r: (Numeral, string)) {
    var (sign, s1) := SplitSign(s);
    var (ints, s2) := Span(s1);
    if s2 != "" && s2[0] == '.' then
      var (frac, s3) := Span(s2[1..]);
      (Numeral(sign, ints, true, frac, None), s3)
    else (Numeral(sign, ints, false, "", None), s2)
  }

  /** The finite grammar with the driver's limits on the exponent's length and the scale. */
  function ParseFinite(s: string): DecResult {
    var (n, rest) := ScanMantissa(s);
    if n.ints == "" && n.frac == "" then Err(NoDigits)
    else if rest == "" then InRange(n)
    else if !IsLetter(rest[0]) then Err(BadCharacter)
    else
      var (sign, r1) := SplitSign(rest[1..]);
      var (digits, r2) := Span(r1);
      if digits == "" then Err(NoExponentDigits)
      else if |r1| > 10 then Err(ExponentRange)
      else if r2 != "" then Err(BadCharacter)
      else InRange(n.(exp := Some(Exponent(rest[0], sign, digits))))
  }

  function InRange(n: Numeral): DecResult
    requires WellFormed(n)
  {
    var scale := ScaleOf(n);
    if -0x8000_0000 <= scale <= MAX_INT32 then Ok(Finite(Unscaled(n), scale)) else Err(ScaleRange)
  }

  function Parse(s: string): DecResult {
    if s == "Infinity" then Ok(PosInf)
    else if s == "-Infinity" then Ok(NegInf)
    else if s == "NaN" then Ok(NaN)
    else ParseFinite(s)
  }

  /** Moves the index over a run of digits. */
  method SkipDigits(s: string, start: nat) returns (i: nat)
    requires start <= |s|
    ensures start <= i <= |s| && Span(s[start..]) == (s[start..i], s[i..])
  {
    i := start;
    while i < |s| && IsDigit(s[i])
      invariant start <= i <= |s|
      invariant AllDigits(s[start..i])
    {
      assert s[start..i + 1] == s[start..i] + [s[i]];
      i := i + 1;
    }
    assert s[start..] == s[start..i] + s[i..];
    SpanText(s[start..i], s[i..]);
  }

  /** The sign, the integer digits and the fraction digits, leaving the index after them. */
  method ReadMantissa(s: string) returns (neg: bool, intDigits: string, fracDigits: string, i: nat)
    ensures i <= |s|
    ensures var (n, rest) := ScanMantissa(s);
            rest == s[i..] && n.ints == intDigits && n.frac == fracDigits && (neg <==> n.sign.Minus?)
  {
    hide Span, SplitSign, ScanMantissa, SignText;
    ScanIs(s);
    assert s[0..] == s;
    neg, i := ScanSign(s, 0);
    var intStart := i;
    i := SkipDigits(s, intStart);
    intDigits := s[intStart..i];
    fracDigits := "";
    if i < |s| && s[i] == '.' {
      assert s[i..][1..] == s[i + 1..];
      var fracStart := i + 1;
      i := SkipDigits(s, fracStart);
      fracDigits := s[fracStart..i];
    }
  }

  lemma ScanIs(s: string)
    ensures var p := SplitSign(s);
            var q := Span(p.1);
            ScanMantissa(s) ==
            if q.1 != "" && q.1[0] == '.' then (Numeral(p.0, q.0, true, Span(q.1[1..]).0, None), Span(q.1[1..]).1)
            else (Numeral(p.0, q.0, false, "", None), q.1)
  {
    hide Span, SplitSign;
  }

  /** The scanner: a moving index, the digit loops, and the checks in the order they are made. */
  method ParseDecFloat(s: string) returns (r: DecResult)
    ensures r == Parse(s)
  {
    if s == "Infinity" { return Ok(PosInf); }
    if s == "-Infinity" { return Ok(NegInf); }
    if s == "NaN" { return Ok(NaN); }
    r := ParseNumber(s);
  }

  method ParseNumber(s: string) returns (r: DecResult)
    ensures r == ParseFinite(s)
  {
    hide ScanMantissa, AllDigits, NatOf, Span, SplitSign, InRange, SignText;
    MantissaParts(s);
    var neg, intDigits, fracDigits, i := ReadMantissa(s);
    ghost var n := ScanMantissa(s).0;
    if intDigits == "" && fracDigits == "" { return Err(NoDigits); }
    if i == |s| {
      r := Finish(neg, intDigits, fracDigits, 0, n);
      return;
    }
    if s[i] != 'e' && s[i] != 'E' { return Err(BadCharacter); }
    assert s[i..][1..] == s[i + 1..];
    var expNeg, expStart := ScanSign(s, i + 1);
    ghost var e := Exponent(s[i], SplitSign(s[i + 1..]).0, Span(s[expStart..]).0);
    i := SkipDigits(s, expStart);
    if i == expStart { return Err(NoExponentDigits); }
    if |s| - expStart > 10 { return Err(ExponentRange); }
    if i != |s| { return Err(BadCharacter); }
    var v: int := NatOf(s[expStart..i]);
    r := Finish(neg, intDigits, fracDigits, if expNeg then -v else v, n.(exp := Some(e)));
  }

  lemma MantissaParts(s: string)
    ensures var n := ScanMantissa(s).0;
            AllDigits(n.ints) && AllDigits(n.frac) && (!n.point ==> n.frac == "") && n.exp.None?
  {
  }

  /** An optional sign at the index. */
  method ScanSign(s: string, start: nat) returns (neg: bool, i: nat)
    requires start <= |s|
    ensures start <= i <= |s|
    ensures neg <==> SplitSign(s[start..]).0.Minus?
    ensures s[i..] == SplitSign(s[start..]).1
  {
    i, neg := start, false;
    if i < |s| && (s[i] == '+' || s[i] == '-') {
      neg := s[i] == '-';
      i := i + 1;
    }
  }

  /** The range check on the scale and the assembly of the value. */
  method Finish(neg: bool, intDigits: string, fracDigits: string, exp: int, ghost n: Numeral) returns (r: DecResult)
    requires WellFormed(n) && n.ints == intDigits && n.frac == fracDigits
    requires (neg <==> n.sign.Minus?) && exp == ExpOf(n.exp)
    ensures r == InRange(n)
  {
    var scale := |fracDigits| - exp;
    if scale > MAX_INT32 || scale < -MAX_INT32 - 1 { return Err(ScaleRange); }
    NatOfAppend(intDigits, fracDigits);
    var un: int := NatOf(intDigits + fracDigits);
    if neg { un := -un; }
    return Ok(Finite(un, scale));
  }

  /** How an accepted text reads back as a numeral. */
  function NumeralOf(s: string): Numeral {
    var (n, rest) := ScanMantissa(s);
    if rest == "" then n else
      var (sign, r1) := SplitSign(rest[1..]);
      n.(exp := Some(Exponent(rest[0], sign, Span(r1).0)))
  }

  lemma MantissaSplits(s: string)
    ensures var (n, rest) := ScanMantissa(s);
            s == SignText(n.sign) + (n.ints + (FracText(n.point, n.frac) + rest))
  {
    var (sign, s1) := SplitSign(s);
    var (ints, s2) := Span(s1);
    hide SplitSign, Span, SignText;
    if s2 != "" && s2[0] == '.' {
      var (frac, s3) := Span(s2[1..]);
      PointSplits(s2, frac, s3);
    } else {
      assert "" + s2 == s2;
    }
  }

  lemma PointSplits(s: string, frac: string, rest: string)
    requires s != "" && s[0] == '.' && s[1..] == frac + rest
    ensures s == FracText(true, frac) + rest
  {
  }

  lemma ExponentSplits(rest: string, sign: Sign, r1: string)
    requires rest != "" && rest[1..] == SignText(sign) + r1
    ensures rest == [rest[0]] + (SignText(sign) + r1)
  {
  }

  /** Every accepted finite text is a numeral, and the result is that numeral's unscaled value and scale. */
  lemma ParseIsNumeral(s: string)
    requires Parse(s).Ok? && Parse(s).d.Finite?
    ensures WellFormed(NumeralOf(s)) && Render(NumeralOf(s)) == s
    ensures Parse(s).d == Finite(Unscaled(NumeralOf(s)), ScaleOf(NumeralOf(s)))
    ensures -0x8000_0000 <= Parse(s).d.scale <= MAX_INT32
  {
    hide *;
    FiniteParse(s);
    FiniteParts(s);
    NumeralText(s);
    RangeKept(NumeralOf(s));
  }

  lemma FiniteParse(s: string)
    requires Parse(s).Ok? && Parse(s).d.Finite?
    ensures Parse(s) == ParseFinite(s)
  {
    hide ParseFinite;
  }

  lemma RangeKept(n: Numeral)
    requires WellFormed(n) && InRange(n).Ok?
    ensures InRange(n).d == Finite(Unscaled(n), ScaleOf(n)) && -0x8000_0000 <= ScaleOf(n) <= MAX_INT32
  {
    hide Unscaled, ScaleOf, WellFormed;
  }

  lemma FiniteParts(s: string)
    requires ParseFinite(s).Ok?
    ensures WellFormed(NumeralOf(s)) && ParseFinite(s) == InRange(NumeralOf(s))
    ensures var rest := ScanMantissa(s).1;
            rest != "" ==> Span(SplitSign(rest[1..]).1).1 == ""
  {
    MantissaParts(s);
    hide ScanMantissa, NatOf, AllDigits, SignText, FracText, SplitSign, Span, InRange;
  }

  lemma RenderWith(n: Numeral, e: Option<Exponent>)
    ensures Render(n.(exp := e)) == SignText(n.sign) + (n.ints + (FracText(n.point, n.frac) + ExpText(e)))
  {
  }

  lemma NumeralText(s: string)
    requires ParseFinite(s).Ok?
    ensures Render(NumeralOf(s)) == s
  {
    MantissaSplits(s);
    MantissaParts(s);
    ExponentText(s);
    RenderWith(ScanMantissa(s).0, NumeralOf(s).exp);
    hide ScanMantissa, Render, ExpText, ParseFinite, SignText, FracText, SplitSign, Span;
  }

  lemma ExponentText(s: string)
    requires ParseFinite(s).Ok?
    ensures ExpText(NumeralOf(s).exp) == ScanMantissa(s).1
  {
    MantissaParts(s);
    FiniteParts(s);
    var rest := ScanMantissa(s).1;
    if rest != "" {
      var (sign, r1) := SplitSign(rest[1..]);
      var digits := Span(r1).0;
      assert NumeralOf(s).exp == Some(Exponent(rest[0], sign, digits));
      hide *;
      SpanAll(r1);
      ExponentSplits(rest, sign, digits);
      ExpIs(Exponent(rest[0], sign, digits));
    }
  }

  lemma SpanAll(r: string)
    requires Span(r).1 == ""
    ensures r == Span(r).0
  {
    assert r == Span(r).0 + "";
  }

  lemma ExpIs(x: Exponent)
    ensures ExpText(Some(x)) == [x.letter] + (SignText(x.sign) + x.digits)
  {
  }

  lemma {:induction false} MantissaText(n: Numeral, rest: string)
    requires WellFormed(n) && n.exp.None?
    requires rest != "" ==> !IsDigit(rest[0]) && rest[0] != '.'
    ensures ScanMantissa(SignText(n.sign) + (n.ints + (FracText(n.point, n.frac) + rest))) == (n, rest)
  {
    hide Span, SplitSign, LeadsSign, IsDigit, IsLetter, SignText, AllDigits;
    var s2 := FracText(n.point, n.frac) + rest;
    var s1 := n.ints + s2;
    MantissaLeads(n, rest);
    SplitSignText(n.sign, s1);
    SpanText(n.ints, s2);
    if n.point {
      assert s2[1..] == n.frac + rest;
      SpanText(n.frac, rest);
    }
  }

  /** Digits and fraction start with no sign, and the fraction with a point or not at all. */
  lemma MantissaLeads(n: Numeral, rest: string)
    requires WellFormed(n) && n.exp.None?
    requires rest != "" ==> !IsDigit(rest[0]) && rest[0] != '.'
    ensures var s2 := FracText(n.point, n.frac) + rest;
            && !LeadsSign(n.ints + s2) && (s2 != "" ==> !IsDigit(s2[0]))
            && s2 == (if n.point then "." + (n.frac + rest) else rest)
  {
    var s2 := FracText(n.point, n.frac) + rest;
    if n.ints != "" { assert (n.ints + s2)[0] == n.ints[0]; } else { assert n.ints + s2 == s2; }
  }

  lemma NotSpecial(n: Numeral)
    requires WellFormed(n)
    ensures Render(n) != "Infinity" && Render(n) != "-Infinity" && Render(n) != "NaN"
  {
    var m := n.(exp := None);
    ExpLeads(n.exp);
    MantissaText(m, ExpText(n.exp));
    Unparsable("Infinity");
    Unparsable("NaN");
    Unparsable("-Infinity");
  }

  lemma Unparsable(s: string)
    requires s == "Infinity" || s == "NaN" || s == "-Infinity"
    ensures ScanMantissa(s).0.ints == "" && ScanMantissa(s).0.frac == ""
  {
    var (sign, s1) := SplitSign(s);
    assert s1[0] == 'I' || s1[0] == 'N';
    assert s1 == "" + s1;
    SpanText("", s1);
  }

  lemma ExpLeads(e: Option<Exponent>)
    requires ExpWellFormed(e)
    ensures ExpText(e) != "" <==> e.Some?
    ensures e.Some? ==> ExpText(e)[0] == e.value.letter && ExpText(e)[1..] == SignText(e.value.sign) + e.value.digits
  {
  }

  lemma ExpParts(x: Exponent)
    requires AllDigits(x.digits) && x.digits != ""
    ensures SplitSign(SignText(x.sign) + x.digits) == (x.sign, x.digits)
    ensures Span(x.digits) == (x.digits, "")
  {
    assert !LeadsSign(x.digits) by { assert IsDigit(x.digits[0]); }
    SplitSignText(x.sign, x.digits);
    assert x.digits + "" == x.digits;
    SpanText(x.digits, "");
  }

  /** What the parser does on every text of the grammar. */
  lemma ParseRendered(n: Numeral)
    requires WellFormed(n)
    ensures Parse(Render(n)) ==
            if n.exp.Some? && |n.exp.value.digits| > 10 then Err(ExponentRange) else InRange(n)
  {
    NotSpecial(n);
    var m := n.(exp := None);
    ExpLeads(n.exp);
    MantissaText(m, ExpText(n.exp));
    if n.exp.Some? {
      ExpParts(n.exp.value);
      assert m.(exp := n.exp) == n;
    } else {
      assert m == n;
    }
  }

  /** A text without a digit is no number. */
  lemma NoDigitAtAll(s: string)
    requires s != "Infinity" && s != "-Infinity" && s != "NaN" && forall i | 0 <= i < |s| :: !IsDigit(s[i])
    ensures Parse(s) == Err(NoDigits)
  {
    var (sign, s1) := SplitSign(s);
    NoSpan(s1);
    if s1 != "" { NoSpan(s1[1..]); }
    hide Span, IsDigit;
  }

  lemma NoSpan(s: string)
    requires forall i | 0 <= i < |s| :: !IsDigit(s[i])
    ensures Span(s) == ("", s)
  {
    assert "" + s == s;
    SpanText("", s);
  }

  /** Something else than an exponent after a number is refused, and so is an exponent without digits. */
  lemma RefusedTails(n: Numeral, tail: string, letter: char, sign: Sign)
    requires WellFormed(n) && n.exp.None?
    ensures tail != "" && !IsDigit(tail[0]) && tail[0] != '.' && tail[0] != 'e' && tail[0] != 'E' ==>
              Parse(Render(n) + tail) == Err(BadCharacter)
    ensures letter == 'e' || letter == 'E' ==> Parse(Render(n) + ([letter] + SignText(sign))) == Err(NoExponentDigits)
  {
    if tail != "" && !IsDigit(tail[0]) && tail[0] != '.' && tail[0] != 'e' && tail[0] != 'E' {
      Followed(n, tail);
    }
    if letter == 'e' || letter == 'E' {
      var e := [letter] + SignText(sign);
      Followed(n, e);
      assert e[1..] == SignText(sign) + "";
      SplitSignText(sign, "");
      NoSpan("");
      hide Render, ScanMantissa, SplitSign, Span;
    }
  }

  /** A number followed by something that does not continue it. */
  lemma Followed(n: Numeral, tail: string)
    requires WellFormed(n) && n.exp.None? && tail != "" && !IsDigit(tail[0]) && tail[0] != '.'
    ensures ScanMantissa(Render(n) + tail) == (n, tail) && Parse(Render(n) + tail) == ParseFinite(Render(n) + tail)
  {
    hide ScanMantissa, ParseFinite, FracText, SignText;
    var a, b, c := SignText(n.sign), n.ints, FracText(n.point, n.frac);
    assert ExpText(n.exp) == "" && c + "" == c;
    Cut(b, c, tail);
    Cut(a, b + c, tail);
    assert Render(n) + tail == a + (b + (c + tail));
    MantissaText(n, tail);
    Unparsable("Infinity");
    Unparsable("NaN");
    Unparsable("-Infinity");
  }

  /** Numerals with the same text are the same numeral. */
  lemma RenderInjective(n: Numeral, m: Numeral)
    requires WellFormed(n) && WellFormed(m) && Render(n) == Render(m)
    ensures n == m
  {
    ExpLeads(n.exp);
    ExpLeads(m.exp);
    MantissaText(n.(exp := None), ExpText(n.exp));
    MantissaText(m.(exp := None), ExpText(m.exp));
    if n.exp.Some? && m.exp.Some? {
      ExpParts(n.exp.value);
      ExpParts(m.exp.value);
    }
  }

  // ---- Meaning ----

  lemma TensStep(k: int)
    ensures Tens(k + 1) == 10.0 * Tens(k)
  {
  }

  lemma TensZero()
    ensures Tens(0) == 1.0
  {
  }

  lemma {:induction false} TensAdd(a: int, b: int)
    ensures Tens(a + b) == Tens(a) * Tens(b)
    decreases if a < 0 then -a else a
  {
    TensZero();
    hide Tens;
    if a > 0 {
      TensAdd(a - 1, b);
      TensStep(a - 1 + b);
      TensStep(a - 1);
      TenTimes(Tens(a - 1), Tens(b), Tens(a - 1 + b), Tens(a), Tens(a + b));
    } else if a < 0 {
      TensAdd(a + 1, b);
      TensStep(a + b);
      TensStep(a);
      TenTimes(Tens(a), Tens(b), Tens(a + b), Tens(a + 1), Tens(a + 1 + b));
    }
  }

  /** A product and the product ten times larger determine each other. */
  lemma TenTimes(x: real, y: real, xy: real, x10: real, xy10: real)
    requires x10 == 10.0 * x && xy10 == 10.0 * xy
    ensures xy == x * y <==> xy10 == x10 * y
  {
    Assoc(10.0, x, y);
  }

  lemma Assoc(x: real, y: real, z: real)
    ensures (x * y) * z == x * (y * z)
  {
  }

  lemma {:induction false} TensNat(k: nat)
    ensures Tens(k) == Pow10(k) as real
  {
    if k > 0 { TensNat(k - 1); }
  }

  lemma Fraction(a: real, b: real, p: real, q: real)
    requires p * q == 1.0
    ensures (a * p + b) * q == a + b * q
  {
    Assoc(a, p, q);
    assert (a * p + b) * q == a * p * q + b * q;
  }

  /** Moving the point: the digits read as one integer, scaled down, are the integer part plus the fraction. */
  lemma PointMoves(ints: string, frac: string)
    requires AllDigits(ints) && AllDigits(frac)
    ensures AllDigits(ints + frac)
    ensures NatOf(ints + frac) as real * Tens(-|frac|) == NatOf(ints) as real + NatOf(frac) as real * Tens(-|frac|)
  {
    hide *;
    var f := |frac|;
    NatOfAppend(ints, frac);
    TensZero();
    TensNat(f);
    TensAdd(f, -f);
    Embed(NatOf(ints), Pow10(f), NatOf(frac));
    Fraction(NatOf(ints) as real, NatOf(frac) as real, Tens(f), Tens(-f));
  }

  lemma Embed(a: int, p: int, b: int)
    ensures (a * p + b) as real == a as real * p as real + b as real
  {
  }

  lemma Rescale(u: real, q: real, t: real, qt: real)
    requires qt == q * t
    ensures u * qt == (u * q) * t && (-u) * qt == (-(u * q)) * t
  {
    Assoc(u, q, t);
    assert (-u) * qt == -(u * qt);
    assert (-(u * q)) * t == -((u * q) * t);
  }

  /** The unscaled value and scale read off a text denote the number the text denotes. */
  lemma NumeralMeaning(n: Numeral)
    requires WellFormed(n)
    ensures Unscaled(n) as real * Tens(-ScaleOf(n)) == Denotes(n)
  {
    hide Tens, NatOf, AllDigits;
    var f, e := |n.frac|, ExpOf(n.exp);
    PointMoves(n.ints, n.frac);
    TensAdd(-f, e);
    assert -ScaleOf(n) == -f + e;
    var u := NatOf(DigitsOf(n)) as real;
    assert Unscaled(n) as real == if n.sign.Minus? then -u else u;
    Rescale(u, Tens(-f), Tens(e), Tens(-f + e));
  }

  lemma ValueIs(d: Dec)
    requires d.Finite?
    ensures ValueOf(d) == d.unscaled as real * Tens(-d.scale)
  {
  }

  /** Decimal meaning: an accepted finite text denotes exactly unscaled * 10^-scale. */
  lemma ParseMeaning(s: string)
    requires Parse(s).Ok? && Parse(s).d.Finite?
    ensures WellFormed(NumeralOf(s)) && Render(NumeralOf(s)) == s
    ensures ValueOf(Parse(s).d) == Denotes(NumeralOf(s))
  {
    hide *;
    ParseIsNumeral(s);
    NumeralMeaning(NumeralOf(s));
    ValueIs(Parse(s).d);
  }

  // ---- Printing ----

  function Abs(x: int): nat { if x < 0 then -x else x }

  /** Plain notation is used when the scale is not negative and the adjusted exponent is at least -6. */
  predicate Plain(d: Dec)
    requires d.Finite?
  {
    d.scale >= 0 && Adjusted(d) >= -6
  }

  function Adjusted(d: Dec): int
    requires d.Finite?
  {
    |Digits(Abs(d.unscaled))| - 1 - d.scale
  }

  /** Plain notation: the point `sc` digits from the right, zeros in front where digits are missing. */
  function PlainText(digits: string, sc: nat): string {
    var p := |digits|;
    if sc == 0 then digits
    else if p > sc then digits[..p - sc] + ("." + digits[p - sc..])
    else "0" + ("." + (Zeros(sc - p) + digits))
  }

  /** Scientific notation: one digit before the point, and an exponent with a sign. */
  function ScientificText(digits: string, exponent: int): string
    requires digits != ""
  {
    [digits[0]] + ((if |digits| > 1 then "." + digits[1..] else "") +
    (['E'] + (if exponent >= 0 then "+" + Digits(exponent) else "-" + Digits(-exponent))))
  }

  function Print(d: Dec): string {
    match d
    case PosInf => "Infinity"
    case NegInf => "-Infinity"
    case NaN => "NaN"
    case Finite(u, sc) =>
      var digits := Digits(Abs(u));
      var adjusted := |digits| - 1 - sc;
      (if u < 0 then "-" else "") +
      if sc >= 0 && adjusted >= -6 then PlainText(digits, sc) else ScientificText(digits, adjusted)
  }

  /** Appends a plain number to the text so far. */
  method AppendPlain(sign: string, digits: string, sc: nat) returns (b: string)
    ensures b == sign + PlainText(digits, sc)
  {
    hide Zeros;
    var p := |digits|;
    b := sign;
    if sc == 0 {
      b := b + digits;
    } else if p > sc {
      b := b + digits[..p - sc];
      b := b + ".";
      b := b + digits[p - sc..];
      Joined(sign, digits[..p - sc], digits[p - sc..]);
    } else {
      b := b + "0.";
      b := b + Zeros(sc - p);
      b := b + digits;
      Pieces(sign, Zeros(sc - p), digits);
    }
  }

  lemma Joined(a: string, b: string, c: string)
    ensures a + b + "." + c == a + (b + ("." + c))
  {
  }

  lemma Pieces(a: string, b: string, c: string)
    ensures a + "0." + b + c == a + ("0" + ("." + (b + c)))
  {
    assert "0." == "0" + ".";
  }

  /** Appends a number in scientific notation, with an explicit exponent sign. */
  method AppendScientific(sign: string, digits: string, exponent: int) returns (b: string)
    requires digits != ""
    ensures b == sign + ScientificText(digits, exponent)
  {
    hide Digits;
    var adjusted := exponent;
    b := sign + [digits[0]];
    ghost var frac := if |digits| > 1 then "." + digits[1..] else "";
    if |digits| > 1 {
      b := b + ".";
      b := b + digits[1..];
    }
    assert b == sign + ([digits[0]] + frac);
    b := b + "E";
    if adjusted >= 0 {
      b := b + "+";
    } else {
      b := b + "-";
      adjusted := -adjusted;
    }
    b := b + Digits(adjusted);
    Exponentials(sign, [digits[0]], frac, if exponent >= 0 then "+" else "-", Digits(adjusted));
  }

  lemma Exponentials(a: string, b: string, c: string, d: string, e: string)
    ensures a + (b + c) + "E" + d + e == a + (b + (c + (['E'] + (d + e))))
  {
    assert "E" == ['E'];
  }

  /** The printer: sign, then plain or scientific notation. */
  method String(d: Dec) returns (b: string)
    ensures b == Print(d)
  {
    hide Digits, PlainText, ScientificText;
    match d
    case PosInf => return "Infinity";
    case NegInf => return "-Infinity";
    case NaN => return "NaN";
    case Finite(u, sc) =>
      var digits := Digits(Abs(u));
      var adjusted := |digits| - 1 - sc;
      var sign := "";
      if u < 0 { sign := "-"; }
      if sc >= 0 && adjusted >= -6 {
        b := AppendPlain(sign, digits, sc);
      } else {
        b := AppendScientific(sign, digits, adjusted);
      }
  }

  /** The numeral a finite value prints as. */
  function Printed(d: Dec): Numeral
    requires d.Finite?
  {
    var digits := Digits(Abs(d.unscaled));
    var p := |digits|;
    var sign := PrintedSign(d);
    if Plain(d) then
      if d.scale == 0 then Numeral(sign, digits, false, "", None)
      else if p > d.scale then Numeral(sign, digits[..p - d.scale], true, digits[p - d.scale..], None)
      else Numeral(sign, "0", true, Zeros(d.scale - p) + digits, None)
    else
      var a := Adjusted(d);
      Numeral(sign, [digits[0]], p > 1, digits[1..], Some(ExponentOf(a)))
  }

  function ExponentOf(a: int): Exponent { Exponent('E', if a >= 0 then Plus else Minus, Digits(Abs(a))) }

  /** The sign in front of a printed value. */
  function PrintedSign(d: Dec): Sign
    requires d.Finite?
  {
    if d.unscaled < 0 then Minus else Absent
  }

  /** No superfluous leading zero is printed: a zero leads only when it is the whole integer part. */
  lemma NoLeadingZero(d: Dec)
    requires d.Finite?
    ensures Printed(d).ints == "0" || (Printed(d).ints != "" && Printed(d).ints[0] != '0')
  {
    DigitsLead(Abs(d.unscaled));
    assert d.unscaled == 0 ==> Digits(0) == "0";
    hide Digits, Zeros;
  }

  lemma SliceDigits(digits: string, i: nat)
    requires AllDigits(digits) && i <= |digits|
    ensures AllDigits(digits[..i]) && AllDigits(digits[i..]) && digits[..i] + digits[i..] == digits
  {
  }

  lemma PrintedWellFormed(d: Dec)
    requires d.Finite?
    ensures WellFormed(Printed(d))
  {
    var digits := Digits(Abs(d.unscaled));
    if 0 < d.scale < |digits| { SliceDigits(digits, |digits| - d.scale); }
    SliceDigits(digits, 1);
  }

  lemma PrintedText(d: Dec)
    requires d.Finite?
    ensures Render(Printed(d)) == Print(d)
  {
    var n := Printed(d);
    if Plain(d) {
      PrintedPlain(d);
    } else {
      PrintedScientific(d);
    }
  }

  lemma PrintedPlain(d: Dec)
    requires d.Finite? && Plain(d)
    ensures Render(Printed(d)) == Print(d)
  {
    hide Digits, AllDigits, Zeros;
    var n := Printed(d);
    assert ExpText(n.exp) == "" && SignText(n.sign) == if d.unscaled < 0 then "-" else "";
    PlainPieces(d);
    assert FracText(n.point, n.frac) + "" == FracText(n.point, n.frac);
    hide PlainText, FracText, Printed;
  }

  lemma PlainPieces(d: Dec)
    requires d.Finite? && Plain(d)
    ensures var n := Printed(d);
            n.ints + FracText(n.point, n.frac) == PlainText(Digits(Abs(d.unscaled)), d.scale)
  {
    hide Digits, AllDigits, Zeros;
    assert Printed(d).ints + "" == Printed(d).ints;
  }

  lemma PrintedScientific(d: Dec)
    requires d.Finite? && !Plain(d)
    ensures Render(Printed(d)) == Print(d)
  {
    hide Digits, AllDigits, Zeros, PlainText, SignText, ExpText;
    var n := Printed(d);
    SignIs(d);
    ExpTextIs(Adjusted(d));
    assert n.exp == Some(ExponentOf(Adjusted(d)));
  }

  lemma SignIs(d: Dec)
    requires d.Finite?
    ensures SignText(PrintedSign(d)) == if d.unscaled < 0 then "-" else ""
  {
  }

  lemma ExpTextIs(a: int)
    ensures ExpText(Some(ExponentOf(a))) == ['E'] + (if a >= 0 then "+" + Digits(a) else "-" + Digits(-a))
  {
    hide Digits;
  }

  /** The printed digits hold the unscaled value and the scale, in every notation branch. */
  lemma PrintedValue(d: Dec)
    requires d.Finite?
    ensures WellFormed(Printed(d))
    ensures Unscaled(Printed(d)) == d.unscaled && ScaleOf(Printed(d)) == d.scale
  {
    PrintedWellFormed(d);
    var n := Printed(d);
    NatOfDigits(Abs(d.unscaled));
    PrintedDigits(d);
    if !Plain(d) { NatOfDigits(Abs(Adjusted(d))); }
  }

  lemma PrintedDigits(d: Dec)
    requires d.Finite?
    ensures WellFormed(Printed(d))
    ensures NatOf(DigitsOf(Printed(d))) == NatOf(Digits(Abs(d.unscaled)))
  {
    PrintedWellFormed(d);
    var digits := Digits(Abs(d.unscaled));
    var p := |digits|;
    if Plain(d) && p <= d.scale != 0 {
      PaddedValue(digits, d.scale - p);
    } else if Plain(d) && d.scale != 0 {
      SliceDigits(digits, p - d.scale);
    } else {
      SliceDigits(digits, 1);
      assert digits[..1] == [digits[0]];
      assert digits + "" == digits;
    }
  }

  lemma PaddedValue(digits: string, k: nat)
    requires AllDigits(digits)
    ensures AllDigits("0" + (Zeros(k) + digits)) && NatOf("0" + (Zeros(k) + digits)) == NatOf(digits)
  {
    NatOfZeros(k);
    NatOfAppend(Zeros(k), digits);
    assert NatOf("0") == 0;
    NatOfAppend("0", Zeros(k) + digits);
  }

  predicate Representable(d: Dec) {
    d.Finite? ==> -0x8000_0000 <= d.scale <= MAX_INT32
  }

  lemma TenDigits()
    ensures Pow10(10) == 10_000_000_000
  {
    assert Pow10(5) == 100_000;
    PowAdd(5, 5);
  }

  /** Decimal round trip: holds exactly when plain notation is used or the exponent has at most ten digits. */
  lemma RoundTrip(d: Dec)
    requires Representable(d)
    ensures Parse(Print(d)) == Ok(d) <==> (d.Finite? && !Plain(d) ==> Abs(Adjusted(d)) < 10_000_000_000)
  {
    hide *;
    if d.Finite? {
      PrintedText(d);
      PrintedValue(d);
      ParseRendered(Printed(d));
      PrintedExponent(d);
      InRangeBack(Printed(d), d);
      DigitsLength(Abs(Adjusted(d)), 10);
      TenDigits();
    } else {
      SpecialText(d);
    }
  }

  lemma PrintedExponent(d: Dec)
    requires d.Finite?
    ensures var e := Printed(d).exp;
            e.Some? == !Plain(d) && (e.Some? ==> e.value.digits == Digits(Abs(Adjusted(d))))
  {
    hide Digits, Zeros;
  }

  lemma LetterIn(n: Numeral)
    requires WellFormed(n) && (n.exp.Some? ==> n.exp.value.letter == 'E')
    ensures 'E' in Render(n) <==> n.exp.Some?
  {
    assert 'E' !in n.ints && 'E' !in FracText(n.point, n.frac) && 'E' !in SignText(n.sign);
    hide AllDigits, FracText, SignText;
    if n.exp.Some? { assert ExpText(n.exp)[0] == 'E'; }
  }

  /**
    * The notation can be told from the text: an exponent is printed exactly for a negative scale and when more than
    * five zeros would stand between the point and the digits. It then follows a single leading digit.
    */
  lemma NotationOf(d: Dec)
    requires d.Finite?
    ensures 'E' in Print(d) <==> d.scale < 0 || d.scale - |Digits(Abs(d.unscaled))| > 5
    ensures 'E' in Print(d) ==> |Printed(d).ints| == 1 && Render(Printed(d)) == Print(d)
  {
    PrintedText(d);
    PrintedWellFormed(d);
    hide Digits, Print, Render, WellFormed, Zeros;
    LetterIn(Printed(d));
  }

  lemma InRangeBack(n: Numeral, d: Dec)
    requires WellFormed(n) && Representable(d) && d.Finite? && Unscaled(n) == d.unscaled && ScaleOf(n) == d.scale
    ensures InRange(n) == Ok(d)
  {
    hide WellFormed, Unscaled, ScaleOf;
  }

  lemma SpecialText(d: Dec)
    requires !d.Finite?
    ensures Parse(Print(d)) == Ok(d)
    ensures Print(PosInf) == "Infinity" && Print(NegInf) == "-Infinity" && Print(NaN) == "NaN"
  {
    hide ParseFinite;
  }

  /** With at most 2^31 digits every int32 scale round-trips. */
  lemma RoundTripInt32(d: Dec)
    requires Representable(d)
    requires d.Finite? ==> |Digits(Abs(d.unscaled))| <= 0x8000_0000
    ensures Parse(Print(d)) == Ok(d)
  {
    hide Parse, Print, Digits;
    RoundTrip(d);
  }

  /** Printing is injective: two values print alike exactly when they are equal. */
  lemma PrintInjective(d: Dec, e: Dec)
    ensures Print(d) == Print(e) <==> d == e
  {
    if d.Finite? && e.Finite? && Print(d) == Print(e) {
      PrintedText(d);
      PrintedText(e);
      PrintedValue(d);
      PrintedValue(e);
      RenderInjective(Printed(d), Printed(e));
    }
    if d.Finite? { PrintedText(d); PrintedWellFormed(d); NotSpecial(Printed(d)); }
    if e.Finite? { PrintedText(e); PrintedWellFormed(e); NotSpecial(Printed(e)); }
  }

  /** A parsed value has no more digits than its text has characters. */
  lemma ParsedDigits(s: string)
    requires Parse(s).Ok? && Parse(s).d.Finite?
    ensures |Digits(Abs(Parse(s).d.unscaled))| <= |s|
  {
    ParseIsNumeral(s);
    var n := NumeralOf(s);
    RenderLength(n);
    hide *;
    UnscaledDigits(n);
  }

  lemma RenderLength(n: Numeral)
    requires WellFormed(n)
    ensures |DigitsOf(n)| <= |Render(n)|
  {
    hide ExpText;
  }

  lemma UnscaledDigits(n: Numeral)
    requires WellFormed(n)
    ensures |Digits(Abs(Unscaled(n)))| <= |DigitsOf(n)|
  {
    var digits := DigitsOf(n);
    assert AllDigits(digits) && digits != "" && Abs(Unscaled(n)) == NatOf(digits);
    hide Digits, NatOf, AllDigits, Unscaled, WellFormed, DigitsOf;
    NatOfBound(digits);
    DigitsLength(NatOf(digits), |digits|);
  }

  /**
    * Print-after-parse reaches its fixed point in one step, and two accepted texts print alike exactly when they parse
    * alike.
    */
  lemma PrintAfterParse(s: string, t: string)
    requires Parse(s).Ok? && Parse(t).Ok?
    ensures var d := Parse(s).d;
            Parse(Print(d)) == Parse(s) <==> (d.Finite? && !Plain(d) ==> Abs(Adjusted(d)) < 10_000_000_000)
    ensures |s| <= 0x8000_0000 ==> Parse(Print(Parse(s).d)) == Parse(s)
    ensures Print(Parse(s).d) == Print(Parse(t).d) <==> Parse(s) == Parse(t)
  {
    PrintInjective(Parse(s).d, Parse(t).d);
    if Parse(s).d.Finite? {
      ParseIsNumeral(s);
      ParsedDigits(s);
    }
    hide Parse, Print, Plain, Adjusted, Digits;
    RoundTrip(Parse(s).d);
    if |s| <= 0x8000_0000 { RoundTripInt32(Parse(s).d); }
  }
}
