/** Decimal numerals, as str(n) writes them and int(s) reads them. */
module Decimals {

  function Digit(n: nat): (c: char)
    requires n < 10
    ensures '0' <= c <= '9' && c as int == '0' as int + n
  {
    ('0' as int + n) as char
  }

  function ToDecimal(n: nat): (s: string)
    ensures s != []
  {
    if n < 10 then [Digit(n)] else ToDecimal(n / 10) + [Digit(n % 10)]
  }

  predicate AllDigits(s: string) {
    forall i | 0 <= i < |s| :: '0' <= s[i] <= '9'
  }

  function FromDecimal(s: string): nat
    requires AllDigits(s)
  {
    if s == [] then 0 else 10 * FromDecimal(s[..|s| - 1]) + (s[|s| - 1] as int - '0' as int)
  }

  lemma {:induction false} RoundTrip(n: nat)
    ensures AllDigits(ToDecimal(n)) && FromDecimal(ToDecimal(n)) == n
  {
    var s := ToDecimal(n);
    if n < 10 {
      assert s[..|s| - 1] == [];
    } else {
      RoundTrip(n / 10);
      assert s[..|s| - 1] == ToDecimal(n / 10);
    }
  }

  /** Numerals get longer with their number, but by at most one digit at each step. */
  lemma {:induction false} LengthGrowsSlowly(m: nat, n: nat)
    requires m <= n
    ensures |ToDecimal(m)| <= |ToDecimal(n)| <= |ToDecimal(m)| + (n - m)
    decreases n
  {
    if n >= 10 {
      if m >= 10 {
        LengthGrowsSlowly(m / 10, n / 10);
        assert n / 10 - m / 10 <= n - m;
      } else {
        LengthGrowsSlowly(0, n / 10);
        assert n / 10 <= n - 9;
      }
    }
  }
}
