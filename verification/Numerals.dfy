/** What the texts of numbers are, apart from how any of the programs writes or reads them. */
module Numerals {
  const DIGITS := "0123456789"
  const LOWER := "0123456789abcdef"
  const UPPER := "0123456789ABCDEF"

  /** A decimal text of the number, zeros in front or not. */
  predicate Decimal(s: string, n: nat) {
    if s == "" then n == 0 else s[|s| - 1] == DIGITS[n % 10] && Decimal(s[..|s| - 1], n / 10)
  }

  /** A hexadecimal text of the number, digits of either case, zeros in front or not. */
  predicate Spells(s: string, n: nat) {
    if s == "" then n == 0
    else
      var c := s[|s| - 1];
      (c == LOWER[n % 16] || c == UPPER[n % 16]) && Spells(s[..|s| - 1], n / 16)
  }
}
