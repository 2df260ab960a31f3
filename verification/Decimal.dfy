/** Decimal digit strings and the numbers they denote. */
module Decimal {

  predicate IsDigit(c: char) { '0' <= c <= '9' }

  predicate AllDigits(s: string) {
    forall i | 0 <= i < |s| :: IsDigit(s[i])
  }

  function DigitChar(d: int): (c: char)
    requires 0 <= d < 10
    ensures IsDigit(c) && DigitVal(c) == d
  {
    "0123456789"[d]
  }

  function DigitVal(c: char): (d: int)
    requires IsDigit(c)
    ensures 0 <= d < 10
  {
    c as int - '0' as int
  }

  function Pow10(k: nat): (p: int)
    ensures p >= 1
  {
    if k == 0 then 1 else 10 * Pow10(k - 1)
  }

  /** Decimal form without leading zeros. */
  function Digits(n: nat): (s: string)
    ensures |s| >= 1 && AllDigits(s)
  {
    if n < 10 then [DigitChar(n)] else Digits(n / 10) + [DigitChar(n % 10)]
  }

  function NatOf(s: string): nat
    requires AllDigits(s)
  {
    if s == "" then 0 else 10 * NatOf(s[..|s| - 1]) + DigitVal(s[|s| - 1])
  }

  function Zeros(k: nat): (s: string)
    ensures |s| == k && AllDigits(s)
    ensures forall i | 0 <= i < k :: s[i] == '0'
  {
    seq(k, i => '0')
  }

  lemma {:induction false} NatOfDigits(n: nat)
    ensures NatOf(Digits(n)) == n
  {
    if n >= 10 {
      NatOfDigits(n / 10);
      assert Digits(n)[..|Digits(n)| - 1] == Digits(n / 10);
    }
  }

  lemma {:induction false} DigitsLead(n: nat)
    ensures n > 0 ==> Digits(n)[0] != '0'
  {
    if n >= 10 {
      DigitsLead(n / 10);
      assert Digits(n)[0] == Digits(n / 10)[0];
    }
  }

  lemma NatOfSnoc(s: string, c: char)
    requires AllDigits(s) && IsDigit(c)
    ensures AllDigits(s + [c]) && NatOf(s + [c]) == 10 * NatOf(s) + DigitVal(c)
  {
    assert (s + [c])[..|s|] == s;
  }

  lemma {:induction false} NatOfAppend(a: string, b: string)
    requires AllDigits(a) && AllDigits(b)
    ensures AllDigits(a + b)
    ensures NatOf(a + b) == NatOf(a) * Pow10(|b|) + NatOf(b)
  {
    if b == "" {
      assert a + b == a;
    } else {
      var b', c := b[..|b| - 1], b[|b| - 1];
      NatOfAppend(a, b');
      NatOfSnoc(b', c);
      NatOfSnoc(a + b', c);
      assert b == b' + [c] && a + b == (a + b') + [c];
      PowStep(|b'|);
      hide NatOf, Pow10, AllDigits;
      Distribute(NatOf(a), Pow10(|b'|), NatOf(b'));
    }
  }

  lemma Distribute(x: int, p: int, y: int)
    ensures 10 * (x * p + y) == x * (10 * p) + 10 * y
  {
  }

  lemma PowStep(k: nat)
    ensures Pow10(k + 1) == 10 * Pow10(k)
  {
  }

  lemma {:induction false} NatOfZeros(k: nat)
    ensures NatOf(Zeros(k)) == 0
  {
    if k > 0 {
      NatOfZeros(k - 1);
      assert Zeros(k)[..k - 1] == Zeros(k - 1);
    }
  }

  lemma {:induction false} NatOfBound(s: string)
    requires AllDigits(s)
    ensures NatOf(s) < Pow10(|s|)
  {
    if s != "" {
      NatOfBound(s[..|s| - 1]);
    }
  }

  lemma {:induction false} DigitsLength(n: nat, k: nat)
    requires k >= 1
    ensures |Digits(n)| <= k <==> n < Pow10(k)
  {
    if n < 10 {
      PowPositive(k);
    } else if k > 1 {
      DigitsLength(n / 10, k - 1);
    } else {
      assert Pow10(1) == 10;
    }
  }

  lemma PowPositive(k: nat)
    requires k >= 1
    ensures Pow10(k) >= 10
  {
  }

  lemma {:induction false} PowAdd(a: nat, b: nat)
    ensures Pow10(a + b) == Pow10(a) * Pow10(b)
  {
    if a > 0 {
      PowAdd(a - 1, b);
      PowStep(a - 1 + b);
      PowStep(a - 1);
      hide Pow10;
      var x, y := Pow10(a - 1), Pow10(b);
      assert 10 * (x * y) == (10 * x) * y;
    }
  }

  /** The end of the digit run of `s` that starts at `i`. */
  function DigitsEnd(s: string, i: nat): (j: nat)
    requires i <= |s|
    ensures i <= j <= |s| && AllDigits(s[i..j])
    ensures j < |s| ==> !IsDigit(s[j])
    decreases |s| - i
  {
    if i < |s| && IsDigit(s[i]) then
      var j := DigitsEnd(s, i + 1);
      assert s[i..j] == [s[i]] + s[i + 1..j];
      j
    else i
  }

  /** A digit run ends at `j` when it is all digits up to there and no digit follows. */
  lemma {:induction false} DigitsEndAt(s: string, i: nat, j: nat)
    requires i <= j <= |s| && AllDigits(s[i..j])
    requires j < |s| ==> !IsDigit(s[j])
    ensures DigitsEnd(s, i) == j
    decreases j - i
  {
    if i < j {
      assert IsDigit(s[i..j][0]);
      assert s[i + 1..j] == s[i..j][1..];
      DigitsEndAt(s, i + 1, j);
    }
  }

  /** The leading digits of a string and what follows them. */
  function Span(s: string): (r: (string, string))
    ensures s == r.0 + r.1 && AllDigits(r.0)
    ensures r.1 != "" ==> !IsDigit(r.1[0])
  {
    var j := DigitsEnd(s, 0);
    assert s[..j] == s[0..j];
    (s[..j], s[j..])
  }

  lemma SpanText(digits: string, rest: string)
    requires AllDigits(digits) && (rest != "" ==> !IsDigit(rest[0]))
    ensures Span(digits + rest) == (digits, rest)
  {
    var s := digits + rest;
    assert s[0..|digits|] == digits && s[|digits|..] == rest;
    DigitsEndAt(s, 0, |digits|);
  }

  /** Signed decimal text of an integer. */
  function IntText(x: int): string {
    if x < 0 then "-" + Digits(-x) else Digits(x)
  }
}
