/** Decimal digit strings and the position of a character. */
module Text {
  function IndexOf(s: string, ch: char): (i: int)
    ensures i == -1 ==> ch !in s
    ensures i != -1 ==> 0 <= i < |s| && s[i] == ch && forall j | 0 <= j < i :: s[j] != ch
  {
    if s == "" then -1
    else if s[0] == ch then 0
    else
      var i := IndexOf(s[1..], ch);
      if i == -1 then -1 else i + 1
  }

  lemma IndexOfFirst(s: string, ch: char, i: nat)
    requires i < |s| && s[i] == ch && forall j | 0 <= j < i :: s[j] != ch
    ensures IndexOf(s, ch) == i
  {
    assert ch in s;
  }

  predicate IsDigit(c: char) {
    '0' <= c <= '9'
  }

  predicate AllDigits(s: string) {
    forall i | 0 <= i < |s| :: IsDigit(s[i])
  }

  function DigitChar(d: nat): (c: char)
    requires d < 10
    ensures IsDigit(c) && c as int - '0' as int == d
  {
    '0' + d as char
  }

  /** The decimal string of a natural number, without leading zeros. */
  function Digits(n: nat): (s: string)
    ensures s != "" && AllDigits(s)
  {
    if n < 10 then [DigitChar(n)] else Digits(n / 10) + [DigitChar(n % 10)]
  }

  /** The number a digit string denotes; leading zeros are allowed and "" denotes 0. */
  function Value(s: string): nat
    requires AllDigits(s)
  {
    if s == "" then 0 else 10 * Value(s[..|s| - 1]) + (s[|s| - 1] as int - '0' as int)
  }

  lemma {:induction false} ValueOfDigits(n: nat)
    ensures Value(Digits(n)) == n
  {
    if n < 10 {
      assert Digits(n)[..0] == "";
    } else {
      ValueOfDigits(n / 10);
      assert Digits(n)[..|Digits(n)| - 1] == Digits(n / 10);
    }
  }

  lemma DigitsInjective(m: nat, n: nat)
    requires Digits(m) == Digits(n)
    ensures m == n
  {
    ValueOfDigits(m);
    ValueOfDigits(n);
  }

  function Pow10(k: nat): (p: nat)
    ensures p > 0
  {
    if k == 0 then 1 else 10 * Pow10(k - 1)
  }

  lemma {:induction false} ValueBelowPow10(s: string)
    requires AllDigits(s)
    ensures Value(s) < Pow10(|s|)
  {
    if s != "" {
      ValueBelowPow10(s[..|s| - 1]);
    }
  }

  lemma {:induction false} ValueConcat(s: string, t: string)
    requires AllDigits(s) && AllDigits(t)
    ensures AllDigits(s + t) && Value(s + t) == Value(s) * Pow10(|t|) + Value(t)
  {
    if t == "" {
      assert s + t == s;
    } else {
      var u := t[..|t| - 1];
      assert (s + t)[..|s + t| - 1] == s + u;
      ValueConcat(s, u);
      TimesTen(Value(s), Pow10(|u|));
    }
  }

  lemma TimesTen(v: nat, p: nat)
    ensures v * (10 * p) == 10 * (v * p)
  {
  }
}
