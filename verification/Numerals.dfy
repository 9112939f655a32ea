/** Numbers written with digits, as division gives them. */
module Numerals {

  const LOWER: seq<char> := "0123456789abcdef"
  const UPPER: seq<char> := "0123456789ABCDEF"

  /** A character that is written for a digit. */
  predicate Writes(c: char, d: nat) {
    d < 16 && (c == LOWER[d] || c == UPPER[d])
  }

  /** `x` is `u` to a base, with any leading zeros, and letters in lower or upper case. */
  ghost predicate IsNumeral(x: seq<char>, u: nat, base: nat)
    requires base == 10 || base == 16
  {
    if x == [] then u == 0
    else Writes(x[|x| - 1], u % base) && IsNumeral(x[..|x| - 1], u / base, base)
  }

  /** The characters by their codes. */
  lemma DigitCodes(c: char, d: nat)
    requires Writes(c, d)
    ensures d < 10 ==> c as int == 48 + d
    ensures d >= 10 ==> c as int == 97 + d - 10 || c as int == 65 + d - 10
  {
    assert d == 0 || d == 1 || d == 2 || d == 3 || d == 4 || d == 5 || d == 6 || d == 7
        || d == 8 || d == 9 || d == 10 || d == 11 || d == 12 || d == 13 || d == 14 || d == 15;
  }

  lemma CodeWrites(c: char, d: nat)
    requires d < 16 && (c as int == (if d < 10 then 48 + d else 97 + d - 10) || (d >= 10 && c as int == 65 + d - 10))
    ensures Writes(c, d)
  {
    assert d == 0 || d == 1 || d == 2 || d == 3 || d == 4 || d == 5 || d == 6 || d == 7
        || d == 8 || d == 9 || d == 10 || d == 11 || d == 12 || d == 13 || d == 14 || d == 15;
  }

  lemma LastOf(x: seq<char>, u: nat, base: nat)
    requires (base == 10 || base == 16) && IsNumeral(x, u, base)
    ensures x == [] ==> u == 0
    ensures x != [] ==> Writes(x[|x| - 1], u % base) && IsNumeral(x[..|x| - 1], u / base, base)
  {
  }

  lemma NoNumeral(base: nat)
    requires base == 10 || base == 16
    ensures IsNumeral([], 0, base)
  {
  }

  lemma NextNumeral(x: seq<char>, v: nat, d: nat, base: nat, c: char)
    requires (base == 10 || base == 16) && IsNumeral(x, v, base) && d < base && Writes(c, d)
    ensures IsNumeral(x + [c], base * v + d, base)
  {
    assert (x + [c])[..|x|] == x;
    if base == 10 { TenTimes(v, d); } else { SixteenTimes(v, d); }
  }

  lemma TenTimes(v: nat, d: nat)
    requires d < 10
    ensures (10 * v + d) % 10 == d && (10 * v + d) / 10 == v
  {
  }

  lemma SixteenTimes(v: nat, d: nat)
    requires d < 16
    ensures (16 * v + d) % 16 == d && (16 * v + d) / 16 == v
  {
  }
}
