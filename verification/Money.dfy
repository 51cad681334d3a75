/** Kobo integers and naira strings, in both directions. */
module Money {
  import opened Wrappers
  import opened Text

  // ---------------------------------------------------------------- Kobo to naira

  /** A two-digit fraction: padStart(2, '0'). */
  function TwoDigits(n: nat): (s: string)
    requires n < 100
    ensures |s| == 2 && AllDigits(s)
  {
    [DigitChar(n / 10), DigitChar(n % 10)]
  }

  function Abs(k: int): nat {
    if k < 0 then -k else k
  }

  function KoboToNaira(k: int): string {
    (if k < 0 then "-" else "") + Body(Digits(Abs(k) / 100), true, TwoDigits(Abs(k) % 100))
  }

  /** Unsigned decimal text: the whole part, and a dot with the fraction when dotted. */
  function Body(whole: string, dotted: bool, frac: string): string {
    if dotted then whole + "." + frac else whole
  }

  // ---------------------------------------------------------------- Naira to kobo

  predicate IsSpace(c: char) {
    c == ' ' || c == '\t' || c == '\n' || c == '\r'
  }

  function TrimStart(s: string): string {
    if s != "" && IsSpace(s[0]) then TrimStart(s[1..]) else s
  }

  function TrimEnd(s: string): string {
    if s != "" && IsSpace(s[|s| - 1]) then TrimEnd(s[..|s| - 1]) else s
  }

  function Trim(s: string): string {
    TrimEnd(TrimStart(s))
  }

  /** The first two parts of split('.'), the second "" when there is no dot. */
  function SplitAtDot(s: string): (string, string) {
    var i := IndexOf(s, '.');
    if i == -1 then (s, "")
    else
      var rest := s[i + 1..];
      var j := IndexOf(rest, '.');
      (s[..i], if j == -1 then rest else rest[..j])
  }

  /** BigInt of a digit string; None stands for the SyntaxError of anything else. */
  function ParseBigInt(s: string): Option<nat> {
    if AllDigits(s) then Some(Value(s)) else None
  }

  function IntString(k: int): string {
    (if k < 0 then "-" else "") + Digits(Abs(k))
  }

  /** The kobo of an unsigned naira string. */
  function Magnitude(unsigned: string): Option<nat> {
    var (whole, frac) := SplitAtDot(unsigned);
    var w, f := ParseBigInt(if whole == "" then "0" else whole), ParseBigInt((frac + "00")[..2]);
    if w.None? || f.None? then None else Some(w.value * 100 + f.value)
  }

  function NairaToKobo(naira: string): Option<string> {
    var s := Trim(naira);
    var negative := s != "" && s[0] == '-';
    var kobo := Magnitude(if negative then s[1..] else s);
    if kobo.None? then None
    else Some((if negative && kobo.value != 0 then "-" else "") + Digits(kobo.value))
  }

  // ---------------------------------------------------------------- There and back

  lemma TwoDigitsValue(n: nat)
    requires n < 100
    ensures Value(TwoDigits(n)) == n
  {
    var s := TwoDigits(n);
    assert s[..1][..0] == "";
    assert Value(s[..1]) == n / 10;
  }

  lemma NoTrim(s: string)
    requires s != "" && !IsSpace(s[0]) && !IsSpace(s[|s| - 1])
    ensures Trim(s) == s
  {
  }

  lemma SplitDecimal(whole: string, frac: string)
    requires AllDigits(whole) && AllDigits(frac)
    ensures SplitAtDot(whole + "." + frac) == (whole, frac)
    ensures SplitAtDot(whole) == (whole, "")
  {
    var s := whole + "." + frac;
    IndexOfFirst(s, '.', |whole|);
    assert s[..|whole|] == whole && s[|whole| + 1..] == frac;
  }

  lemma MagnitudeOfBody(whole: string, dotted: bool, frac: string)
    requires AllDigits(whole) && AllDigits(frac) && (!dotted ==> frac == "")
    ensures AllDigits((frac + "00")[..2])
    ensures Magnitude(Body(whole, dotted, frac)) == Some(Value(whole) * 100 + Value((frac + "00")[..2]))
  {
    SplitBody(whole, dotted, frac);
    ParseParts(whole, frac);
    MagnitudeOfParts(Body(whole, dotted, frac), whole, frac, Value(whole), Value((frac + "00")[..2]));
  }

  lemma MagnitudeOfParts(unsigned: string, whole: string, frac: string, w: nat, f: nat)
    requires SplitAtDot(unsigned) == (whole, frac)
    requires ParseBigInt(if whole == "" then "0" else whole) == Some(w) && ParseBigInt((frac + "00")[..2]) == Some(f)
    ensures Magnitude(unsigned) == Some(w * 100 + f)
  {
  }

  lemma ParseParts(whole: string, frac: string)
    requires AllDigits(whole) && AllDigits(frac)
    ensures AllDigits((frac + "00")[..2])
    ensures ParseBigInt(if whole == "" then "0" else whole) == Some(Value(whole))
    ensures ParseBigInt((frac + "00")[..2]) == Some(Value((frac + "00")[..2]))
  {
    ZeroString();
  }

  lemma SplitBody(whole: string, dotted: bool, frac: string)
    requires AllDigits(whole) && AllDigits(frac) && (!dotted ==> frac == "")
    ensures SplitAtDot(Body(whole, dotted, frac)) == (whole, frac)
  {
    SplitDecimal(whole, frac);
  }

  lemma SignedBody(negative: bool, body: string)
    requires body != "" && (IsDigit(body[0]) || body[0] == '.')
    requires IsDigit(body[|body| - 1]) || body[|body| - 1] == '.'
    ensures var kobo := Magnitude(body);
            NairaToKobo((if negative then "-" else "") + body)
            == if kobo.None? then None
               else Some((if negative && kobo.value != 0 then "-" else "") + Digits(kobo.value))
  {
    var s := (if negative then "-" else "") + body;
    assert s[|s| - 1] == body[|body| - 1];
    NoTrim(s);
    assert (if negative then s[1..] else s) == body;
    hide Trim, Magnitude, Digits;
  }

  /** What NairaToKobo makes of an optional sign, digits, and the part after the dot. */
  lemma ConvertDecimal(negative: bool, whole: string, dotted: bool, frac: string)
    requires AllDigits(whole) && AllDigits(frac) && (!dotted ==> frac == "" && whole != "")
    ensures AllDigits((frac + "00")[..2])
    ensures var kobo := Value(whole) * 100 + Value((frac + "00")[..2]);
            NairaToKobo((if negative then "-" else "") + Body(whole, dotted, frac))
            == Some((if negative && kobo != 0 then "-" else "") + Digits(kobo))
  {
    MagnitudeOfBody(whole, dotted, frac);
    SignedBody(negative, Body(whole, dotted, frac));
    hide NairaToKobo, Magnitude, Value, Digits;
  }

  lemma ZeroString()
    ensures Value("0") == 0 && Value("") == 0
  {
    assert "0"[..0] == "";
  }

  /** nairaToKobo after koboToNaira is the identity, for negatives and for amounts under a naira too. */
  lemma KoboSurvivesNaira(k: int)
    ensures NairaToKobo(KoboToNaira(k)) == Some(IntString(k))
  {
    var n := Abs(k);
    var w, f := Digits(n / 100), TwoDigits(n % 100);
    ConvertDecimal(k < 0, w, true, f);
    ValueOfDigits(n / 100);
    TwoDigitsValue(n % 100);
    assert (f + "00")[..2] == f;
    hide NairaToKobo, Value, Digits, TwoDigits, Body, AllDigits;
  }

  // ---------------------------------------------------------------- Any decimal

  /** [-]digits[.digits], with digits on one side at least. */
  datatype Decimal = Decimal(negative: bool, whole: string, dotted: bool, frac: string)

  predicate WellFormed(d: Decimal) {
    && AllDigits(d.whole) && AllDigits(d.frac)
    && (!d.dotted ==> d.frac == "")
    && (d.whole != "" || d.frac != "")
  }

  function Spell(d: Decimal): string {
    (if d.negative then "-" else "") + Body(d.whole, d.dotted, d.frac)
  }

  /** The value of a decimal in kobo, truncated toward zero, by exact division of its scaled value. */
  function TruncatedKobo(d: Decimal): int
    requires WellFormed(d)
  {
    if d.negative then 0 - TruncatedMagnitude(d) else TruncatedMagnitude(d)
  }

  function TruncatedMagnitude(d: Decimal): nat
    requires WellFormed(d)
  {
    Hundredths(Value(d.whole), Value(d.frac), Pow10(|d.frac|))
  }

  /** (w + v / scale) in hundredths, rounded down. */
  function Hundredths(w: nat, v: nat, scale: nat): nat
    requires scale > 0
  {
    (w * scale + v) * 100 / scale
  }

  lemma Quotient(q: nat, r: nat, d: nat)
    requires r < d
    ensures (q * d + r) / d == q
  {
    var x := q * d + r;
    assert x == x / d * d + x % d;
    SameQuotient(x / d, x % d, q, r, d);
  }

  lemma SameQuotient(m: nat, a: nat, q: nat, r: nat, d: nat)
    requires m * d + a == q * d + r && a < d && r < d
    ensures m == q
  {
    if m < q {
      TimesMono(m + 1, q, d);
    } else if q < m {
      TimesMono(q + 1, m, d);
    }
  }

  lemma TimesMono(a: nat, b: nat, d: nat)
    requires a <= b
    ensures a * d <= b * d
  {
  }

  /** Cutting the fraction to two digits is truncating the scaled value. */
  lemma CutIsTruncation(w: nat, frac: string)
    requires AllDigits(frac)
    ensures AllDigits((frac + "00")[..2])
    ensures Hundredths(w, Value(frac), Pow10(|frac|)) == w * 100 + Value((frac + "00")[..2])
  {
    if |frac| < 2 {
      ShortFraction(w, frac);
    } else {
      LongFraction(w, frac);
    }
    hide Hundredths, Value, Pow10, AllDigits;
  }

  lemma ShortFraction(w: nat, frac: string)
    requires AllDigits(frac) && |frac| < 2
    ensures AllDigits((frac + "00")[..2])
    ensures Hundredths(w, Value(frac), Pow10(|frac|)) == w * 100 + Value((frac + "00")[..2])
  {
    ZeroString();
    if frac == "" {
      assert ("" + "00")[..2] == "0" + "0";
      ValueConcat("0", "0");
      assert Pow10(0) == 1;
    } else {
      assert (frac + "00")[..2] == frac + "0";
      ValueConcat(frac, "0");
      assert Pow10(0) == 1 && Pow10(1) == 10;
    }
  }

  lemma LongFraction(w: nat, frac: string)
    requires AllDigits(frac) && |frac| >= 2
    ensures AllDigits((frac + "00")[..2])
    ensures Hundredths(w, Value(frac), Pow10(|frac|)) == w * 100 + Value((frac + "00")[..2])
  {
    hide Hundredths;
    var head, tail := frac[..2], frac[2..];
    assert frac == head + tail && (frac + "00")[..2] == head;
    ValueConcat(head, tail);
    ValueBelowPow10(tail);
    HundredTimes(|tail|);
    ScaleUp(w, Value(frac), Pow10(|frac|), Value(head), Value(tail), Pow10(|tail|));
  }

  lemma HundredTimes(k: nat)
    ensures Pow10(k + 2) == 100 * Pow10(k)
  {
    assert Pow10(k + 2) == 10 * Pow10(k + 1);
  }

  lemma ScaleUp(w: nat, v: nat, big: nat, h: nat, r: nat, p: nat)
    requires r < p && v == h * p + r && big == 100 * p
    ensures Hundredths(w, v, big) == w * 100 + h
  {
    assert h * big == 100 * (h * p);
    assert (w * big + v) * 100 == (w * 100 + h) * big + 100 * r;
    Quotient(w * 100 + h, 100 * r, big);
  }

  /** For every well-formed decimal the kobo string is that of its value truncated toward zero. */
  lemma NairaToKoboTruncates(d: Decimal)
    requires WellFormed(d)
    ensures NairaToKobo(Spell(d)) == Some(IntString(TruncatedKobo(d)))
  {
    hide Hundredths;
    ConvertDecimal(d.negative, d.whole, d.dotted, d.frac);
    CutIsTruncation(Value(d.whole), d.frac);
    assert TruncatedMagnitude(d) == Value(d.whole) * 100 + Value((d.frac + "00")[..2]);
    hide NairaToKobo, TruncatedMagnitude, Value, Pow10, Digits, Body;
  }

  function ParseInt(s: string): int
    requires s != "" && AllDigits(if s[0] == '-' then s[1..] else s)
  {
    if s[0] == '-' then 0 - Value(s[1..]) else Value(s)
  }

  lemma ParseIntString(k: int)
    ensures var s := IntString(k);
            s != "" && AllDigits(if s[0] == '-' then s[1..] else s) && ParseInt(s) == k
  {
    ValueOfDigits(Abs(k));
    assert k < 0 ==> IntString(k)[1..] == Digits(Abs(k));
    assert k >= 0 ==> IntString(k) == Digits(k);
  }

  /** koboToNaira after nairaToKobo is the canonical two-decimal form of the truncated value, and leaves
      every string that koboToNaira can produce as it is. */
  lemma NairaSurvivesKobo(d: Decimal)
    requires WellFormed(d)
    ensures var s := NairaToKobo(Spell(d));
            && s.Some? && s.value != "" && AllDigits(if s.value[0] == '-' then s.value[1..] else s.value)
            && KoboToNaira(ParseInt(s.value)) == KoboToNaira(TruncatedKobo(d))
            && forall k: int :: Spell(d) == KoboToNaira(k) ==> KoboToNaira(ParseInt(s.value)) == Spell(d)
  {
    NairaToKoboTruncates(d);
    ParseIntString(TruncatedKobo(d));
    forall k: int | Spell(d) == KoboToNaira(k)
      ensures TruncatedKobo(d) == k
    {
      KoboSurvivesNaira(k);
      ParseIntString(k);
    }
  }
}
