/** Decimal numerals as Rust's `Display` writes unsigned integers and `FromStr` reads them. */
module Decimal {
  import opened Wrappers

  const U64_BOUND: nat := 0x1_0000_0000_0000_0000

  type U64 = x: int | 0 <= x < U64_BOUND

  predicate IsDigit(c: char) {
    '0' <= c <= '9'
  }

  predicate AllDigits(s: string) {
    forall i | 0 <= i < |s| :: IsDigit(s[i])
  }

  function Value(s: string): nat
    requires AllDigits(s)
  {
    if s == [] then 0 else 10 * Value(s[..|s| - 1]) + (s[|s| - 1] as int - '0' as int)
  }

  /** `Display`. */
  function Digits(n: nat): (s: string)
    ensures s != [] && AllDigits(s) && Value(s) == n
  {
    var last := ('0' as int + n % 10) as char;
    if n < 10 then
      assert [last][..0] == [];
      [last]
    else
      var s := Digits(n / 10) + [last];
      assert s[..|s| - 1] == Digits(n / 10);
      s
  }

  /** `u64::from_str`: an optional `+`, then digits that fit. */
  function ParseU64(s: string): Option<U64> {
    var digits := if "+" <= s then s[1..] else s;
    if digits != [] && AllDigits(digits) && Value(digits) < U64_BOUND then Some(Value(digits)) else None
  }

  lemma ParseOfDigits(n: U64)
    ensures ParseU64(Digits(n)) == Some(n)
  {
    assert IsDigit(Digits(n)[0]);
  }
}
