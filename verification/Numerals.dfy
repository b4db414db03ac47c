/** Decimal numerals. */
module Numerals {
  predicate IsNumeral(s: string) {
    s != [] && forall c :: c in s ==> '0' <= c <= '9'
  }

  /** `int(s)` of a string of digits. */
  function NumberOf(s: string): nat
    requires IsNumeral(s)
  {
    var front, last := s[..|s| - 1], s[|s| - 1];
    assert last in s && forall c :: c in front ==> c in s;
    (if front == "" then 0 else 10 * NumberOf(front)) + (last - '0') as nat
  }

  /** `str(n)`. */
  function Decimal(n: nat): (s: string)
    ensures IsNumeral(s)
  {
    var last := [('0' as int + n % 10) as char];
    if n < 10 then last else Decimal(n / 10) + last
  }

  function PowerOfTen(k: nat): nat {
    if k == 0 then 1 else 10 * PowerOfTen(k - 1)
  }

  lemma LastDigit(s: string, c: char)
    requires IsNumeral(s) && '0' <= c <= '9'
    ensures IsNumeral(s + [c]) && NumberOf(s + [c]) == 10 * NumberOf(s) + (c - '0') as nat
  {
    assert (s + [c])[..|s|] == s;
  }

  /** The digits stand for units, tens, hundreds and so on. */
  lemma {:induction false} DigitsArePlaces(s: string, t: string)
    requires IsNumeral(s) && IsNumeral(t)
    ensures IsNumeral(s + t) && NumberOf(s + t) == NumberOf(s) * PowerOfTen(|t|) + NumberOf(t)
    decreases |t|
  {
    hide NumberOf, PowerOfTen;
    var front, last := t[..|t| - 1], t[|t| - 1];
    assert last in t && forall c :: c in front ==> c in t;
    NextPower(|front|);
    if front == "" {
      assert s + t == s + [last] && t == [last];
      LastDigit(s, last);
      OneDigit(last);
    } else {
      assert s + t == (s + front) + [last] && t == front + [last];
      DigitsArePlaces(s, front);
      LastDigit(s + front, last);
      LastDigit(front, last);
      Shifted(NumberOf(s), PowerOfTen(|front|), NumberOf(front), (last - '0') as nat);
    }
  }

  lemma NextPower(k: nat)
    ensures PowerOfTen(k + 1) == 10 * PowerOfTen(k) && PowerOfTen(0) == 1
  {}

  lemma Shifted(a: nat, p: nat, b: nat, d: nat)
    ensures 10 * (a * p + b) + d == a * (10 * p) + (10 * b + d)
  {}

  /** One digit is worth itself. */
  lemma OneDigit(c: char)
    requires '0' <= c <= '9'
    ensures IsNumeral([c]) && NumberOf([c]) == (c - '0') as nat
  {
    assert [c][..0] == "";
  }

  /** What is shown reads back, and has no leading zero. */
  lemma {:induction false} ShownIsRead(n: nat)
    ensures NumberOf(Decimal(n)) == n && (n > 0 ==> Decimal(n)[0] != '0')
  {
    if n >= 10 {
      ShownIsRead(n / 10);
      var s := Decimal(n);
      assert s[..|s| - 1] == Decimal(n / 10);
      assert n == 10 * (n / 10) + n % 10;
    }
  }
}
