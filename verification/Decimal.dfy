// Decimal printing of unsigned numbers, and why it can be undone.
module Decimal {

  predicate IsDigit(c: char) {
    '0' <= c <= '9'
  }

  predicate AllDigits(s: string) {
    forall i :: 0 <= i < |s| ==> IsDigit(s[i])
  }

  function Digits(n: nat): (s: string)
    ensures s != [] && AllDigits(s)
  {
    if n < 10 then ['0' + n as char] else Digits(n / 10) + ['0' + (n % 10) as char]
  }

  function Value(s: string): (n: nat)
    requires AllDigits(s)
  {
    if s == [] then 0 else 10 * Value(s[..|s| - 1]) + (s[|s| - 1] - '0') as nat
  }

  lemma {:induction false} ValueOfDigits(n: nat)
    ensures Value(Digits(n)) == n
  {
    if n < 10 {
      assert Value(['0' + n as char][..0]) == 0;
    } else {
      ValueOfDigits(n / 10);
      assert Digits(n)[..|Digits(n)| - 1] == Digits(n / 10);
    }
  }

  lemma DigitsInjective(m: nat, n: nat)
    requires Digits(m) == Digits(n)
    ensures m == n
  {
    ValueOfDigits(m);
    ValueOfDigits(n);
  }

  /** Ten digits, each worth its place among them; every place further left counts tenfold. */
  lemma ValueIsDecimal(s: string, d: nat)
    requires AllDigits(s) && d < 10
    ensures AllDigits(s + ["0123456789"[d]]) && Value(s + ["0123456789"[d]]) == 10 * Value(s) + d && Value("") == 0
  {
    var whole := s + ["0123456789"[d]];
    assert whole[..|s|] == s && "0123456789"[d] == '0' + d as char;
  }

  lemma DigitCharacters(c: char)
    ensures IsDigit(c) <==> c in "0123456789"
  {
    var digits := "0123456789";
    if IsDigit(c) {
      assert digits[c as int - '0' as int] == c;
    }
  }

  lemma AllDigitsAre(s: string)
    ensures AllDigits(s) <==> forall c :: c in s ==> c in "0123456789"
  {
    forall c: char ensures IsDigit(c) <==> c in "0123456789" { DigitCharacters(c); }
    assert AllDigits(s) <==> forall c :: c in s ==> IsDigit(c);
  }

  lemma DigitsAreDecimal(n: nat, d: nat)
    requires d < 10
    ensures Digits(d) == ["0123456789"[d]]
    ensures n > 0 ==> Digits(10 * n + d) == Digits(n) + ["0123456789"[d]]
  {
    assert "0123456789"[d] == '0' + d as char;
    assert (10 * n + d) / 10 == n && (10 * n + d) % 10 == d;
  }
}
