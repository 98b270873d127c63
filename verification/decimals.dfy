// Decimal rendering of indices, as format strings produce it.

module Decimals {

  function Digit(d: nat): (c: char)
    requires d < 10
    ensures '0' <= c <= '9'
  {
    '0' + d as char
  }

  predicate IsDigit(c: char) { '0' <= c <= '9' }

  function Decimal(n: nat): (s: string)
    ensures s != [] && forall i :: 0 <= i < |s| ==> IsDigit(s[i])
  {
    if n < 10 then [Digit(n)] else Decimal(n / 10) + [Digit(n % 10)]
  }

  // The number a string of digits spells.
  function Spelled(s: string): nat {
    if s == [] then 0
    else
      var c := s[|s| - 1];
      10 * Spelled(s[..|s| - 1]) + (if IsDigit(c) then (c - '0') as nat else 0)
  }

  lemma {:induction false} SpelledDecimal(n: nat)
    ensures Spelled(Decimal(n)) == n
  {
    if n >= 10 {
      SpelledDecimal(n / 10);
      assert Decimal(n)[..|Decimal(n)| - 1] == Decimal(n / 10);
    }
  }

  // Different numbers are rendered differently.
  lemma DecimalInjective(m: nat, n: nat)
    requires Decimal(m) == Decimal(n)
    ensures m == n
  {
    SpelledDecimal(m);
    SpelledDecimal(n);
  }
}
