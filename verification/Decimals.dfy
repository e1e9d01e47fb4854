/** Decimal numerals: the digits of a number determine it. */
module Decimals {

  function Digits(n: nat): (digits: seq<int>)
    ensures |digits| >= 1
    ensures forall k :: 0 <= k < |digits| ==> 48 <= digits[k] <= 57
  {
    if n < 10 then [48 + n] else Digits(n / 10) + [48 + n % 10]
  }

  lemma {:induction false} DigitsInjective(a: nat, b: nat)
    requires Digits(a) == Digits(b)
    ensures a == b
  {
    var (x, y) := (Digits(a), Digits(b));
    assert x[|x| - 1] == 48 + a % 10 && y[|y| - 1] == 48 + b % 10;
    assert (a >= 10 <==> |x| >= 2) && (b >= 10 <==> |y| >= 2);
    if a >= 10 {
      assert Digits(a / 10) == x[..|x| - 1] && Digits(b / 10) == y[..|y| - 1];
      DigitsInjective(a / 10, b / 10);
    }
  }

  /** The number that decimal digits stand for. */
  function NumberOf(digits: seq<int>): int {
    if digits == [] then 0 else NumberOf(digits[..|digits| - 1]) * 10 + (digits[|digits| - 1] - '0' as int)
  }

  /** The numeral of a number reads as that number and has no leading zero. */
  lemma {:induction false} DigitsRead(n: nat)
    ensures NumberOf(Digits(n)) == n
    ensures n > 0 ==> Digits(n)[0] != '0' as int
  {
    var digits := Digits(n);
    if n < 10 {
      assert digits[..0] == [] && NumberOf([]) == 0;
    } else {
      DigitsRead(n / 10);
      assert digits[..|digits| - 1] == Digits(n / 10) && digits[0] == Digits(n / 10)[0];
    }
  }

  predicate IsDigit(c: int) {
    48 <= c <= 57
  }

  /** A numeral ends where the digits end. */
  lemma NumeralEnds(a: nat, b: nat, x: seq<int>, y: seq<int>)
    requires Digits(a) + x == Digits(b) + y
    requires x == [] || !IsDigit(x[0])
    requires y == [] || !IsDigit(y[0])
    ensures a == b && x == y
  {
    var (p, q) := (Digits(a), Digits(b));
    var whole := p + x;
    assert p == whole[..|p|] && q == whole[..|q|];
    assert x == whole[|p|..] && y == whole[|q|..];
    DigitsInjective(a, b);
  }
}
