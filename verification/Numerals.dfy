/** Decimal numbers as `operator<<`, Python's `str` and `std::stoull` print and read them. */
module Numerals {
  // `isdigit` of the C locale.
  predicate IsDigit(ch: char) {
    '0' <= ch <= '9'
  }

  predicate AllDigits(s: string) {
    forall i :: 0 <= i < |s| ==> IsDigit(s[i])
  }

  function Digit(d: nat): char
    requires d < 10
  {
    '0' + d as char
  }

  // What `operator<<` prints for a non-negative and for any integer.
  function Decimal(n: nat): string {
    if n < 10 then [Digit(n)] else Decimal(n / 10) + [Digit(n % 10)]
  }

  function Signed(i: int): string {
    if i < 0 then "-" + Decimal(-i) else Decimal(i)
  }

  // The number a run of digits denotes, as `std::stoull` reads it.
  function NumberOf(digits: string): nat
    requires AllDigits(digits)
  {
    if digits == [] then 0
    else 10 * NumberOf(digits[..|digits| - 1]) + (digits[|digits| - 1] as nat - '0' as nat)
  }

  /** A number is read back from its decimal text, which has no leading zero. */
  lemma {:induction false} DecimalDigits(n: nat)
    ensures Decimal(n) != [] && AllDigits(Decimal(n)) && NumberOf(Decimal(n)) == n
    ensures n > 0 ==> Decimal(n)[0] != '0'
  {
    if n < 10 {
      assert Decimal(n)[..0] == [];
    } else {
      DecimalDigits(n / 10);
      var front := Decimal(n / 10);
      assert Decimal(n)[..|front|] == front;
    }
  }

  /** One digit more, written and read. */
  lemma TensAndUnits(n: nat, d: nat, digits: string)
    requires d < 10 && AllDigits(digits)
    ensures Decimal(d) == ['0' + d as char]
    ensures n > 0 ==> Decimal(10 * n + d) == Decimal(n) + Decimal(d)
    ensures NumberOf(digits + Decimal(d)) == 10 * NumberOf(digits) + d
  {
    assert (10 * n + d) / 10 == n && (10 * n + d) % 10 == d;
    assert (digits + Decimal(d))[..|digits|] == digits;
  }

  /** The sign comes first, and the digits are those of the absolute value. */
  lemma SignedDigits(i: int)
    ensures i >= 0 ==> AllDigits(Signed(i)) && NumberOf(Signed(i)) == i
    ensures i < 0 ==> Signed(i)[0] == '-' && AllDigits(Signed(i)[1..]) && NumberOf(Signed(i)[1..]) == -i
  {
    if i < 0 {
      DecimalDigits(-i);
      assert Signed(i)[1..] == Decimal(-i);
    } else {
      DecimalDigits(i);
    }
  }
}
