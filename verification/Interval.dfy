/** Interval values: their qualifiers, their canonical text, and reading the text back. */
module Interval {
  import opened Wire
  import opened Decimal

  datatype Qualifier =
    | Year | Month | Day | Hour | Minute | Second
    | YearToMonth | DayToHour | DayToMinute | DayToSecond
    | HourToMinute | HourToSecond | MinuteToSecond
    | Unknown

  const NANOS_PER_SECOND := 1_000_000_000
  const NANOS_PER_MINUTE := 60_000_000_000
  const MIN_INT64: int := -0x8000_0000_0000_0000

  function QualifierOf(ordinal: int): Qualifier {
    match ordinal
    case 0 => Year case 1 => Month case 2 => Day case 3 => Hour case 4 => Minute
    case 5 => Second case 6 => YearToMonth case 7 => DayToHour case 8 => DayToMinute
    case 9 => DayToSecond case 10 => HourToMinute case 11 => HourToSecond case 12 => MinuteToSecond
    case _ => Unknown
  }

  predicate HasRemaining(q: Qualifier) {
    !(q.Year? || q.Month? || q.Day? || q.Hour? || q.Minute? || q.Unknown?)
  }

  function Name(q: Qualifier): string {
    match q
    case Year => "YEAR" case Month => "MONTH" case Day => "DAY" case Hour => "HOUR"
    case Minute => "MINUTE" case Second => "SECOND" case YearToMonth => "YEAR TO MONTH"
    case DayToHour => "DAY TO HOUR" case DayToMinute => "DAY TO MINUTE" case DayToSecond => "DAY TO SECOND"
    case HourToMinute => "HOUR TO MINUTE" case HourToSecond => "HOUR TO SECOND"
    case MinuteToSecond => "MINUTE TO SECOND" case Unknown => "UNKNOWN"
  }

  /** Quotient and remainder that truncate toward zero. */
  function Quot(a: int, b: int): int
    requires b > 0
  {
    if a >= 0 then a / b else -((-a) / b)
  }

  function Rem(a: int, b: int): int
    requires b > 0
  {
    a - Quot(a, b) * b
  }

  /** `-x` in 64 bits: the minimum is its own negation. */
  function Negate(x: int64): int64 {
    if x == MIN_INT64 then x else -x
  }

  /** `%02d` */
  function Pad2(x: int): string {
    if 0 <= x < 10 then "0" + Digits(x) else IntText(x)
  }

  /** `%09d` of a positive number */
  function Pad9(n: nat): string {
    var d := Digits(n);
    if |d| < 9 then Zeros(9 - |d|) + d else d
  }

  function TrimZeros(s: string): (t: string)
    ensures |t| <= |s| && t == s[..|t|]
    ensures t != "" ==> t[|t| - 1] != '0'
  {
    if s != "" && s[|s| - 1] == '0' then TrimZeros(s[..|s| - 1]) else s
  }

  /** Fractional seconds: nothing for zero, otherwise a point and up to nine digits without trailing zeros. */
  function NanosText(nanos: int): string {
    if nanos <= 0 then "" else "." + TrimZeros(Pad9(nanos))
  }

  /** A separator and a two-digit field, followed by the rest of the text. */
  function Field(sep: char, x: int, rest: string): string { [sep] + (Pad2(x) + rest) }

  function SecondsField(nanos: int, close: string): string {
    Field(':', Quot(nanos, NANOS_PER_SECOND), NanosText(Rem(nanos, NANOS_PER_SECOND)) + close)
  }

  /** Everything after the leading field. */
  function Rest(q: Qualifier, remaining: int, close: string): string {
    match q
    case Second => NanosText(remaining) + close
    case YearToMonth => "-" + (IntText(remaining) + close)
    case DayToHour => Field(' ', remaining, close)
    case HourToMinute => Field(':', remaining, close)
    case DayToMinute => Field(' ', Quot(remaining, 60), Field(':', Rem(remaining, 60), close))
    case DayToSecond =>
      var minutes, nanos := Quot(remaining, NANOS_PER_MINUTE), Rem(remaining, NANOS_PER_MINUTE);
      Field(' ', Quot(minutes, 60), Field(':', Rem(minutes, 60), SecondsField(nanos, close)))
    case HourToSecond =>
      Field(':', Quot(remaining, NANOS_PER_MINUTE), SecondsField(Rem(remaining, NANOS_PER_MINUTE), close))
    case MinuteToSecond => SecondsField(remaining, close)
    case _ => close
  }

  const PREFIX: string := "INTERVAL '"

  /** The leading field: its sign, then its digits. */
  function Lead(leading: int64, rest: string): string {
    if leading < 0 then "-" + (IntText(Negate(leading)) + rest) else IntText(leading) + rest
  }

  function Format(q: Qualifier, leading: int64, remaining: int64): string {
    PREFIX + Lead(leading, Rest(q, remaining, "' " + Name(q)))
  }

  /** The remaining field of a normalized interval. */
  predicate Normal(q: Qualifier, remaining: int) {
    0 <= remaining < match q
      case Second => NANOS_PER_SECOND
      case YearToMonth => 12
      case DayToHour => 24
      case DayToMinute => 24 * 60
      case DayToSecond => 24 * 60 * NANOS_PER_MINUTE
      case HourToMinute => 60
      case HourToSecond => 60 * NANOS_PER_MINUTE
      case MinuteToSecond => NANOS_PER_MINUTE
      case _ => 1
  }

  // ---- Reading the text back ----

  /** A fraction of a second, in nanoseconds. */
  function Fraction(s: string): nat {
    if s != "" && s[0] == '.' then
      var d := Span(s[1..]).0;
      if |d| <= 9 then NatOf(d) * Pow10(9 - |d|) else 0
    else 0
  }

  /** A separator and two digits. */
  function TakeField(sep: char, s: string): (nat, string) {
    if |s| >= 3 && s[0] == sep && AllDigits(s[1..3]) then (NatOf(s[1..3]), s[3..]) else (0, "")
  }

  function TakeSeconds(s: string): nat {
    var (sec, rest) := TakeField(':', s);
    sec * NANOS_PER_SECOND + Fraction(rest)
  }

  function ReadRest(q: Qualifier, s: string): nat {
    match q
    case Second => Fraction(s)
    case YearToMonth => if s == "" || s[0] != '-' then 0 else NatOf(Span(s[1..]).0)
    case DayToHour => TakeField(' ', s).0
    case HourToMinute => TakeField(':', s).0
    case DayToMinute =>
      var (h, s1) := TakeField(' ', s);
      h * 60 + TakeField(':', s1).0
    case DayToSecond =>
      var (h, s1) := TakeField(' ', s);
      var (m, s2) := TakeField(':', s1);
      (h * 60 + m) * NANOS_PER_MINUTE + TakeSeconds(s2)
    case HourToSecond =>
      var (m, s1) := TakeField(':', s);
      m * NANOS_PER_MINUTE + TakeSeconds(s1)
    case MinuteToSecond => TakeSeconds(s)
    case _ => 0
  }

  /** A negative number has one minus sign; the smallest one, which has no negation, is printed with two. */
  function TakeLead(s: string): (int, string) {
    if s != "" && s[0] == '-' then
      var (d, rest) := Span(if |s| > 1 && s[1] == '-' then s[2..] else s[1..]);
      (-(NatOf(d) as int), rest)
    else
      var (d, rest) := Span(s);
      (NatOf(d), rest)
  }

  /** The text after the ten characters that open every interval. */
  function Opened(text: string): string { if "INTERVAL '" <= text then text[10..] else "" }

  /** The leading and the remaining field denoted by an interval text. */
  function Read(q: Qualifier, text: string): (int, int) {
    var (leading, rest) := TakeLead(Opened(text));
    (leading, ReadRest(q, rest))
  }

  /** The text from its first quote on. */
  function FromQuote(s: string): string {
    if s == "" || s[0] == '\'' then s else FromQuote(s[1..])
  }

  function Named(name: string): Qualifier {
    if name == "YEAR" then Year else if name == "MONTH" then Month else if name == "DAY" then Day
    else if name == "HOUR" then Hour else if name == "MINUTE" then Minute else if name == "SECOND" then Second
    else if name == "YEAR TO MONTH" then YearToMonth else if name == "DAY TO HOUR" then DayToHour
    else if name == "DAY TO MINUTE" then DayToMinute else if name == "DAY TO SECOND" then DayToSecond
    else if name == "HOUR TO MINUTE" then HourToMinute else if name == "HOUR TO SECOND" then HourToSecond
    else if name == "MINUTE TO SECOND" then MinuteToSecond else Unknown
  }

  /** Everything an interval text says: the qualifier after the closing quote and a blank, and both fields. */
  function ReadText(text: string): (Qualifier, int, int) {
    var end := FromQuote(Opened(text));
    var q := if "' " <= end then Named(end[2..]) else Unknown;
    (q, Read(q, text).0, Read(q, text).1)
  }

  lemma Pad2Value(x: int)
    requires 0 <= x < 100
    ensures |Pad2(x)| == 2 && AllDigits(Pad2(x)) && NatOf(Pad2(x)) == x
  {
    if x < 10 {
      assert Digits(x) == [DigitChar(x)];
      assert NatOf("0") == 0;
      NatOfSnoc("0", DigitChar(x));
    } else {
      assert Digits(x) == [DigitChar(x / 10)] + [DigitChar(x % 10)];
      NatOfDigits(x);
    }
  }

  lemma TakeFieldText(sep: char, x: int, rest: string)
    requires 0 <= x < 100
    ensures TakeField(sep, Field(sep, x, rest)) == (x, rest)
  {
    Pad2Value(x);
    hide Pad2, NatOf, AllDigits;
    Cut([sep], Pad2(x), rest);
  }

  lemma {:induction false} TrimValue(s: string)
    requires AllDigits(s)
    ensures AllDigits(TrimZeros(s)) && NatOf(s) == NatOf(TrimZeros(s)) * Pow10(|s| - |TrimZeros(s)|)
  {
    if s != "" && s[|s| - 1] == '0' {
      var t := s[..|s| - 1];
      TrimValue(t);
      PowStep(|t| - |TrimZeros(t)|);
      Distribute(NatOf(TrimZeros(t)), Pow10(|t| - |TrimZeros(t)|), 0);
    }
  }

  lemma NineDigits()
    ensures Pow10(9) == NANOS_PER_SECOND
  {
    assert Pow10(5) == 100_000 && Pow10(4) == 10_000;
    PowAdd(5, 4);
  }

  lemma Pad9Value(n: nat)
    requires n < NANOS_PER_SECOND
    ensures |Pad9(n)| == 9 && AllDigits(Pad9(n)) && NatOf(Pad9(n)) == n
  {
    hide Digits, Pow10, NatOf;
    NineDigits();
    DigitsLength(n, 9);
    NatOfDigits(n);
    var d := Digits(n);
    if |d| < 9 {
      NatOfZeros(9 - |d|);
      NatOfAppend(Zeros(9 - |d|), d);
    }
  }

  predicate Closes(rest: string) {
    rest != "" && !IsDigit(rest[0]) && rest[0] != '.'
  }

  /** Trimming trailing zeros keeps the fraction. */
  lemma FractionText(n: int, rest: string)
    requires 0 <= n < NANOS_PER_SECOND && Closes(rest)
    ensures Fraction(NanosText(n) + rest) == n
  {
    hide Pad9, TrimZeros, NatOf, Pow10, AllDigits, Span;
    if n == 0 {
      assert NanosText(n) + rest == rest;
    } else {
      Pad9Value(n);
      var d := TrimZeros(Pad9(n));
      TrimValue(Pad9(n));
      SpanText(d, rest);
      Cut(".", d, rest);
      assert (NanosText(n) + rest)[0] == '.';
    }
  }

  lemma SecondsRead(nanos: int, close: string)
    requires 0 <= nanos < NANOS_PER_MINUTE && Closes(close)
    ensures TakeSeconds(SecondsField(nanos, close)) == nanos
  {
    var sec, frac := Quot(nanos, NANOS_PER_SECOND), Rem(nanos, NANOS_PER_SECOND);
    TakeFieldText(':', sec, NanosText(frac) + close);
    FractionText(frac, close);
    hide NanosText, Field, TakeField, Fraction;
  }

  /** A number of seconds in nanoseconds: the printed seconds field, the printed fraction, and their sum. */
  predicate SecondsInRange(nanos: int) {
    var sec, frac := Quot(nanos, NANOS_PER_SECOND), Rem(nanos, NANOS_PER_SECOND);
    0 <= sec < 60 && 0 <= frac < NANOS_PER_SECOND && sec * NANOS_PER_SECOND + frac == nanos
  }

  /** Every printed field of every qualifier lies in its range, and the fields sum back to the remaining field. */
  lemma FieldRanges(q: Qualifier, remaining: int)
    requires Normal(q, remaining)
    ensures q.Second? ==> 0 <= remaining < NANOS_PER_SECOND
    ensures q.YearToMonth? ==> 0 <= remaining < 12
    ensures q.DayToHour? ==> 0 <= remaining < 24
    ensures q.HourToMinute? ==> 0 <= remaining < 60
    ensures q.DayToMinute? ==>
              var hours, minutes := Quot(remaining, 60), Rem(remaining, 60);
              0 <= hours < 24 && 0 <= minutes < 60 && hours * 60 + minutes == remaining
    ensures q.DayToSecond? ==>
              var total, nanos := Quot(remaining, NANOS_PER_MINUTE), Rem(remaining, NANOS_PER_MINUTE);
              var hours, minutes := Quot(total, 60), Rem(total, 60);
              && 0 <= hours < 24 && 0 <= minutes < 60 && SecondsInRange(nanos)
              && (hours * 60 + minutes) * NANOS_PER_MINUTE + nanos == remaining
    ensures q.HourToSecond? ==>
              var minutes, nanos := Quot(remaining, NANOS_PER_MINUTE), Rem(remaining, NANOS_PER_MINUTE);
              && 0 <= minutes < 60 && SecondsInRange(nanos)
              && minutes * NANOS_PER_MINUTE + nanos == remaining
    ensures q.MinuteToSecond? ==> SecondsInRange(remaining)
  {
    if q.DayToSecond? || q.HourToSecond? {
      Minutes(remaining);
      SecondsRange(Rem(remaining, NANOS_PER_MINUTE));
    } else if q.MinuteToSecond? {
      SecondsRange(remaining);
    }
  }

  lemma SecondsRange(nanos: int)
    requires 0 <= nanos < NANOS_PER_MINUTE
    ensures SecondsInRange(nanos)
  {
  }

  lemma Minutes(remaining: int)
    requires 0 <= remaining
    ensures var total, nanos := Quot(remaining, NANOS_PER_MINUTE), Rem(remaining, NANOS_PER_MINUTE);
            0 <= total && 0 <= nanos < NANOS_PER_MINUTE && total * NANOS_PER_MINUTE + nanos == remaining
  {
  }

  lemma RestRead(q: Qualifier, remaining: int, close: string)
    requires Normal(q, remaining) && Closes(close)
    ensures ReadRest(q, Rest(q, remaining, close)) == remaining
  {
    FieldRanges(q, remaining);
    var m, n := Quot(remaining, NANOS_PER_MINUTE), Rem(remaining, NANOS_PER_MINUTE);
    hide Field, TakeField, SecondsField, TakeSeconds, NanosText, Fraction, Span, NatOf;
    match q
    case Second => FractionText(remaining, close);
    case MinuteToSecond => SecondsRead(remaining, close);
    case DayToMinute =>
      TakeFieldText(' ', Quot(remaining, 60), Field(':', Rem(remaining, 60), close));
      TakeFieldText(':', Rem(remaining, 60), close);
    case DayToSecond =>
      TakeFieldText(' ', Quot(m, 60), Field(':', Rem(m, 60), SecondsField(n, close)));
      TakeFieldText(':', Rem(m, 60), SecondsField(n, close));
      SecondsRead(n, close);
    case HourToSecond =>
      TakeFieldText(':', m, SecondsField(n, close));
      SecondsRead(n, close);
    case YearToMonth =>
      NatOfDigits(remaining);
      SpanText(Digits(remaining), close);
    case DayToHour => TakeFieldText(' ', remaining, close);
    case HourToMinute => TakeFieldText(':', remaining, close);
    case _ =>
  }

  /** What follows the leading digits never starts with a digit. */
  lemma RestLeads(q: Qualifier, remaining: int, close: string)
    requires close != "" && !IsDigit(close[0])
    ensures Rest(q, remaining, close) != "" && !IsDigit(Rest(q, remaining, close)[0])
  {
    hide Pad2, TrimZeros, Pad9, Digits;
    if q.Second? && remaining <= 0 { assert NanosText(remaining) + close == close; }
  }

  /** Interval text keeps the value: reading a printed normalized interval gives both fields back. */
  lemma ReadFormat(q: Qualifier, leading: int64, remaining: int64)
    requires Normal(q, remaining)
    ensures Read(q, Format(q, leading, remaining)) == (leading, remaining)
  {
    var close := "' " + Name(q);
    assert Closes(close) by { assert close[0] == '\''; }
    hide *;
    RestLeads(q, remaining, close);
    RestRead(q, remaining, close);
    TakeLeadText(leading, Rest(q, remaining, close));
    ReadPrefixed(q, Lead(leading, Rest(q, remaining, close)));
    FormatIs(q, leading, remaining);
  }

  lemma FormatIs(q: Qualifier, leading: int64, remaining: int64)
    ensures Format(q, leading, remaining) == PREFIX + Lead(leading, Rest(q, remaining, "' " + Name(q)))
  {
  }

  lemma ReadPrefixed(q: Qualifier, s: string)
    ensures Opened(PREFIX + s) == s
    ensures Read(q, PREFIX + s) == (TakeLead(s).0, ReadRest(q, TakeLead(s).1))
  {
    assert (PREFIX + s)[..10] == "INTERVAL '" && (PREFIX + s)[10..] == s;
  }

  lemma TakeLeadText(leading: int64, rest: string)
    requires rest != "" && !IsDigit(rest[0])
    ensures TakeLead(Lead(leading, rest)) == (leading, rest)
  {
    hide Digits, Span, NatOf, IsDigit;
    if leading < 0 {
      var l: int := leading;
      var t := Digits(-l) + rest;
      LeadText(-l, rest);
      AfterMinus(t);
      if leading == MIN_INT64 {
        AfterMinus("-" + t);
        Cut("-", Digits(-l), rest);
        assert ("-" + ("-" + t))[2..] == ("-" + ("-" + t))[1..][1..];
      }
    } else {
      LeadText(leading, rest);
    }
  }

  lemma AfterMinus(s: string)
    ensures ("-" + s)[0] == '-' && ("-" + s)[1..] == s
  {
  }

  lemma LeadText(l: nat, rest: string)
    requires rest != "" && !IsDigit(rest[0])
    ensures Span(Digits(l) + rest) == (Digits(l), rest) && NatOf(Digits(l)) == l
    ensures (Digits(l) + rest)[0] != '-'
  {
    SpanText(Digits(l), rest);
    NatOfDigits(l);
    assert IsDigit(Digits(l)[0]);
  }

  // ---- The qualifier is in the text ----

  predicate Quoteless(s: string) { forall i | 0 <= i < |s| :: s[i] != '\'' }

  lemma {:induction false} QuoteSkipped(s: string, rest: string)
    requires Quoteless(s)
    ensures FromQuote(s + rest) == FromQuote(rest)
  {
    if s == "" {
      assert s + rest == rest;
    } else {
      assert (s + rest)[1..] == s[1..] + rest;
      QuoteSkipped(s[1..], rest);
    }
  }

  lemma NumberSkipped(x: int, rest: string)
    ensures FromQuote(IntText(x) + rest) == FromQuote(rest)
    ensures FromQuote(Pad2(x) + rest) == FromQuote(rest)
  {
    assert AllDigits(Digits(if x < 0 then -x else x));
    hide Digits;
    QuoteSkipped(IntText(x), rest);
    QuoteSkipped(Pad2(x), rest);
  }

  lemma FieldSkipped(sep: char, x: int, rest: string)
    requires sep != '\''
    ensures FromQuote(Field(sep, x, rest)) == FromQuote(rest)
  {
    hide Pad2;
    QuoteSkipped([sep], Pad2(x) + rest);
    NumberSkipped(x, rest);
  }

  lemma NanosSkipped(nanos: int, rest: string)
    ensures FromQuote(NanosText(nanos) + rest) == FromQuote(rest)
  {
    if nanos > 0 {
      assert AllDigits(Digits(nanos));
      assert AllDigits(Pad9(nanos));
      hide Pad9, Digits;
      var t := TrimZeros(Pad9(nanos));
      assert Quoteless(t) by { assert forall i | 0 <= i < |t| :: t[i] == Pad9(nanos)[i]; }
    }
    QuoteSkipped(NanosText(nanos), rest);
  }

  lemma SecondsSkipped(nanos: int, close: string)
    ensures FromQuote(SecondsField(nanos, close)) == FromQuote(close)
  {
    hide Field, NanosText;
    FieldSkipped(':', Quot(nanos, NANOS_PER_SECOND), NanosText(Rem(nanos, NANOS_PER_SECOND)) + close);
    NanosSkipped(Rem(nanos, NANOS_PER_SECOND), close);
  }

  lemma RestSkipped(q: Qualifier, remaining: int, close: string)
    ensures FromQuote(Rest(q, remaining, close)) == FromQuote(close)
  {
    var m, n := Quot(remaining, NANOS_PER_MINUTE), Rem(remaining, NANOS_PER_MINUTE);
    hide Field, SecondsField, NanosText, FromQuote, IntText, Quot, Rem;
    match q
    case Second => NanosSkipped(remaining, close);
    case YearToMonth =>
      QuoteSkipped("-", IntText(remaining) + close);
      NumberSkipped(remaining, close);
    case DayToHour => FieldSkipped(' ', remaining, close);
    case HourToMinute => FieldSkipped(':', remaining, close);
    case DayToMinute =>
      FieldSkipped(' ', Quot(remaining, 60), Field(':', Rem(remaining, 60), close));
      FieldSkipped(':', Rem(remaining, 60), close);
    case DayToSecond =>
      FieldSkipped(' ', Quot(m, 60), Field(':', Rem(m, 60), SecondsField(n, close)));
      FieldSkipped(':', Rem(m, 60), SecondsField(n, close));
      SecondsSkipped(n, close);
    case HourToSecond =>
      FieldSkipped(':', m, SecondsField(n, close));
      SecondsSkipped(n, close);
    case MinuteToSecond => SecondsSkipped(remaining, close);
    case _ =>
  }

  lemma LeadSkipped(leading: int64, rest: string)
    ensures FromQuote(Lead(leading, rest)) == FromQuote(rest)
  {
    hide FromQuote, IntText, Negate;
    if leading < 0 {
      QuoteSkipped("-", IntText(Negate(leading)) + rest);
      NumberSkipped(Negate(leading), rest);
    } else {
      NumberSkipped(leading, rest);
    }
  }

  lemma NameRead(q: Qualifier)
    ensures "' " <= "' " + Name(q) && ("' " + Name(q))[2..] == Name(q) && FromQuote("' " + Name(q)) == "' " + Name(q)
    ensures Named(Name(q)) == q
  {
    assert ("' " + Name(q))[..2] == "' ";
    hide FromQuote;
  }

  /** The text alone tells the whole interval: its qualifier and both fields. */
  lemma ReadTextFormat(q: Qualifier, leading: int64, remaining: int64)
    requires Normal(q, remaining)
    ensures ReadText(Format(q, leading, remaining)) == (q, leading, remaining)
  {
    ReadFormat(q, leading, remaining);
    var close := "' " + Name(q);
    NameRead(q);
    FormatIs(q, leading, remaining);
    hide Format, Lead, Rest, Name, Named, FromQuote, Opened, Read;
    ReadPrefixed(q, Lead(leading, Rest(q, remaining, close)));
    LeadSkipped(leading, Rest(q, remaining, close));
    RestSkipped(q, remaining, close);
  }

  /** Different intervals have different texts. */
  lemma FormatInjective(q1: Qualifier, l1: int64, r1: int64, q2: Qualifier, l2: int64, r2: int64)
    requires Normal(q1, r1) && Normal(q2, r2)
    requires Format(q1, l1, r1) == Format(q2, l2, r2)
    ensures q1 == q2 && l1 == l2 && r1 == r2
  {
    ReadTextFormat(q1, l1, r1);
    ReadTextFormat(q2, l2, r2);
    hide Format, ReadText;
  }

  // ---- The wire form ----

  /** Payload after the ordinal byte, whose complement marks a negative interval. */
  function Ordinal(x: byte): int {
    if x >= 128 then 255 - x else x
  }

  /** The text of a wire interval. */
  function WireText(x: byte, leading: int64, remaining: int64): string {
    Format(QualifierOf(Ordinal(x)), if x >= 128 then Negate(leading) else leading, remaining)
  }

  /** The name in the text of each wire ordinal. */
  lemma OrdinalNames(ordinal: int)
    ensures Name(QualifierOf(ordinal)) ==
            match ordinal
            case 0 => "YEAR" case 1 => "MONTH" case 2 => "DAY" case 3 => "HOUR" case 4 => "MINUTE" case 5 => "SECOND"
            case 6 => "YEAR TO MONTH" case 7 => "DAY TO HOUR" case 8 => "DAY TO MINUTE" case 9 => "DAY TO SECOND"
            case 10 => "HOUR TO MINUTE" case 11 => "HOUR TO SECOND" case 12 => "MINUTE TO SECOND" case _ => "UNKNOWN"
  {
  }

  /** A wire interval prints its qualifier and its remaining field, and its leading field with the sign. */
  lemma WireTextReads(x: byte, leading: int64, remaining: int64)
    requires x < 128 && Normal(QualifierOf(x), remaining) && leading != MIN_INT64
    ensures ReadText(WireText(x, leading, remaining)) == (QualifierOf(x), leading, remaining)
    ensures ReadText(WireText(255 - x, leading, remaining)) == (QualifierOf(x), -leading, remaining)
  {
    hide Format, ReadText, QualifierOf, Normal;
    ReadTextFormat(QualifierOf(x), leading, remaining);
    ReadTextFormat(QualifierOf(x), -leading, remaining);
  }

  /** The sign of a negative wire interval is lost exactly when its leading field is zero or the minimum. */
  lemma SignSurvives(x: byte, leading: int64, remaining: int64)
    requires x < 128 && Normal(QualifierOf(x), remaining)
    ensures WireText(255 - x, leading, remaining) == WireText(x, leading, remaining)
            <==> leading == 0 || leading == MIN_INT64
  {
    var q := QualifierOf(x);
    if leading != 0 && leading != MIN_INT64 {
      ReadFormat(q, leading, remaining);
      ReadFormat(q, -leading, remaining);
      hide Format, Read;
    }
  }
}
