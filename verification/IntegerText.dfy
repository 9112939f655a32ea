/**
  `string_to_integer` and `integer_to_string` of xml/pugixml.cpp for an unsigned type of 16, 32 or 64 bits.
  A text is a C string: past its last character there is a NUL.  The accumulator wraps around; the code
  decides about overflow from the number of digits, the first digit and the top bit alone.
*/
module IntegerText {
  import opened Common
  import opened Bits
  import opened Numerals

  predicate IsWidth(w: nat) {
    w == 16 || w == 32 || w == 64
  }

  function Modulus(w: nat): nat
    requires IsWidth(w)
  {
    if w == 16 then 0x1_0000 else if w == 32 then 0x1_0000_0000 else 0x1_0000_0000_0000_0000
  }

  function At(s: string, i: nat): char {
    if i < |s| then s[i] else '\0'
  }

  // ----- what a text means: spaces, a sign, an optional 0x, and as many digits as there are -----

  function DigitOf(c: char, radix: nat): int {
    if '0' <= c <= '9' then c as int - '0' as int
    else if radix == 16 && 'a' <= c <= 'f' then c as int - 'a' as int + 10
    else if radix == 16 && 'A' <= c <= 'F' then c as int - 'A' as int + 10
    else -1
  }

  predicate IsDigit(c: char, radix: nat) {
    DigitOf(c, radix) >= 0
  }

  function SpacesEnd(s: string, i: nat): (j: nat)
    ensures i <= j
    decreases |s| - i
  {
    if i < |s| && IsSpace(s[i]) then SpacesEnd(s, i + 1) else i
  }

  function DigitsEnd(s: string, i: nat, radix: nat): (j: nat)
    ensures i <= j && (i <= |s| ==> j <= |s|)
    ensures forall k: nat | i <= k < j && k < |s| :: IsDigit(s[k], radix)
    decreases |s| - i
  {
    if i < |s| && IsDigit(s[i], radix) then DigitsEnd(s, i + 1, radix) else i
  }

  function Times(radix: nat, x: nat): nat {
    if radix == 16 then 16 * x else 10 * x
  }

  /** The number the digits `s[i..j]` denote. */
  function Numeral(s: string, i: nat, j: nat, radix: nat): nat
    requires i <= j <= |s|
    requires forall k: nat | i <= k < j :: IsDigit(s[k], radix)
  {
    if i == j then 0 else assert IsDigit(s[j - 1], radix); Times(radix, Numeral(s, i, j - 1, radix)) + DigitOf(s[j - 1], radix)
  }

  function Radix(s: string, i: nat): nat {
    if At(s, i) == '0' && (At(s, i + 1) == 'x' || At(s, i + 1) == 'X') then 16 else 10
  }

  function NumberStart(s: string): nat {
    var a := SpacesEnd(s, 0);
    if At(s, a) == '+' || At(s, a) == '-' then a + 1 else a
  }

  function DigitsStart(s: string): nat {
    var b := NumberStart(s);
    if Radix(s, b) == 16 then b + 2 else b
  }

  lemma {:induction false} SpacesEndInside(s: string, i: nat)
    requires i <= |s|
    ensures SpacesEnd(s, i) <= |s|
    decreases |s| - i
  {
    if i < |s| && IsSpace(s[i]) { SpacesEndInside(s, i + 1); }
  }

  lemma DigitsStartInside(s: string)
    ensures SpacesEnd(s, 0) <= NumberStart(s) <= DigitsStart(s) <= |s|
  {
    SpacesEndInside(s, 0);
  }

  function Magnitude(s: string): nat {
    DigitsStartInside(s);
    var r := Radix(s, NumberStart(s));
    Numeral(s, DigitsStart(s), DigitsEnd(s, DigitsStart(s), r), r)
  }

  /** The mathematical value of the text. */
  function Meaning(s: string): int {
    var m: int := Magnitude(s);
    if At(s, SpacesEnd(s, 0)) == '-' then -m else m
  }

  function Clamp(x: int, lo: int, hi: int): int {
    if x < lo then lo else if x > hi then hi else x
  }

  // ----- the program's arithmetic -----

  function Wrap(x: int, w: nat): (r: nat)
    requires IsWidth(w)
    ensures r < Modulus(w)
  {
    if w == 16 then x % 0x1_0000 else if w == 32 then x % 0x1_0000_0000 else x % 0x1_0000_0000_0000_0000
  }

  /** `q` times the modulus. */
  function Laps(q: int, w: nat): int
    requires IsWidth(w)
  {
    if w == 16 then 0x1_0000 * q else if w == 32 then 0x1_0000_0000 * q else 0x1_0000_0000_0000_0000 * q
  }

  lemma WrapLaps(x: int, w: nat) returns (q: int)
    requires IsWidth(w)
    ensures x == Laps(q, w) + Wrap(x, w)
  {
    q := if w == 16 then x / 0x1_0000 else if w == 32 then x / 0x1_0000_0000 else x / 0x1_0000_0000_0000_0000;
  }

  lemma WrapIs(x: int, q: int, r: int, w: nat)
    requires IsWidth(w) && x == Laps(q, w) + r && 0 <= r < Modulus(w)
    ensures Wrap(x, w) == r
  {
    var p := WrapLaps(x, w);
  }

  lemma WrapSmall(x: int, w: nat)
    requires IsWidth(w) && 0 - Modulus(w) < x < Modulus(w)
    ensures Wrap(x, w) == if x < 0 then x + Modulus(w) else x
  {
    if x < 0 { WrapIs(x, -1, x + Modulus(w), w); } else { WrapIs(x, 0, x, w); }
  }

  /** `static_cast<unsigned>` of a character difference. */
  function Unsigned(x: int): int {
    x % 0x1_0000_0000
  }

  /** `c | ' '`: sets bit 5. */
  function OrSpace(c: char): int {
    var n := c as int;
    if n / 32 % 2 == 1 then n else n + 32
  }

  lemma DigitTests(c: char)
    ensures Unsigned(c as int - '0' as int) < 10 <==> IsDigit(c, 10)
    ensures Unsigned(c as int - '0' as int) < 10 ==> DigitOf(c, 10) == DigitOf(c, 16) == c as int - '0' as int
    ensures OrSpace(c) == 'x' as int <==> c == 'x' || c == 'X'
    ensures Unsigned(c as int - '0' as int) >= 10 ==>
              (Unsigned(OrSpace(c) - 'a' as int) < 6 <==> IsDigit(c, 16))
    ensures Unsigned(c as int - '0' as int) >= 10 && Unsigned(OrSpace(c) - 'a' as int) < 6 ==>
              DigitOf(c, 16) == OrSpace(c) - 'a' as int + 10
  {
    var n := c as int;
    assert 0 <= n < 0x11_0000;
    assert n / 32 % 2 == 1 ==> n / 32 * 32 + n % 32 == n;
  }

  function MaxDigits10(w: nat): nat {
    if w == 64 then 20 else if w == 32 then 10 else 5
  }

  function MaxLead(w: nat): char {
    if w == 64 then '1' else if w == 32 then '4' else '6'
  }

  // ----- the bounds behind the overflow test -----

  function Pow(radix: nat, n: nat): (p: nat)
    ensures p > 0
  {
    if n == 0 then 1 else Times(radix, Pow(radix, n - 1))
  }

  lemma {:induction false} PowMonotone(radix: nat, m: nat, n: nat)
    requires m <= n
    ensures Pow(radix, m) <= Pow(radix, n)
  {
    if m < n { PowMonotone(radix, m, n - 1); }
  }

  lemma TimesProduct(radix: nat, d: nat, p: nat)
    ensures d * Times(radix, p) == Times(radix, d * p)
  {
  }

  lemma ProductMonotone(d: nat, e: nat, p: nat)
    requires d <= e
    ensures d * p <= e * p
  {
  }

  /** A numeral lies between its first digit and the next, followed by zeros. */
  lemma {:induction false} NumeralBounds(s: string, i: nat, j: nat, radix: nat)
    requires i < j <= |s| && (radix == 10 || radix == 16)
    requires forall k: nat | i <= k < j :: IsDigit(s[k], radix)
    ensures DigitOf(s[i], radix) * Pow(radix, j - i - 1) <= Numeral(s, i, j, radix)
    ensures Numeral(s, i, j, radix) + 1 <= (DigitOf(s[i], radix) + 1) * Pow(radix, j - i - 1)
  {
    var d := DigitOf(s[i], radix);
    if i + 1 == j {
      assert Numeral(s, i, i, radix) == 0;
    } else {
      NumeralBounds(s, i, j - 1, radix);
      var p := Pow(radix, j - i - 2);
      TimesProduct(radix, d, p);
      TimesProduct(radix, d + 1, p);
      TimesStep(radix, Numeral(s, i, j - 1, radix), DigitOf(s[j - 1], radix), d * p, (d + 1) * p);
    }
  }

  lemma TimesStep(radix: nat, v: nat, digit: nat, lo: nat, hi: nat)
    requires (radix == 10 || radix == 16) && lo <= v && v + 1 <= hi && digit < radix
    ensures Times(radix, lo) <= Times(radix, v) + digit && Times(radix, v) + digit + 1 <= Times(radix, hi)
  {
  }

  /** Leading zeros do not count. */
  lemma {:induction false} SkipZeros(s: string, i: nat, z: nat, j: nat, radix: nat)
    requires i <= z <= j <= |s|
    requires forall k: nat | i <= k < j :: IsDigit(s[k], radix)
    requires forall k: nat | i <= k < z :: s[k] == '0'
    ensures Numeral(s, i, j, radix) == Numeral(s, z, j, radix)
  {
    if z < j {
      SkipZeros(s, i, z, j - 1, radix);
    } else if i < j {
      SkipZeros(s, i, z - 1, j - 1, radix);
    }
  }

  /**
    The decimal overflow test, from the number of digits, the first one, and the top bit of the wrapped value.
   */
  predicate DecimalOverflow(w: nat, digits: nat, lead: char, result: nat)
    requires IsWidth(w)
  {
    digits >= MaxDigits10(w) &&
    !(digits == MaxDigits10(w) && (lead < MaxLead(w) || (lead == MaxLead(w) && TopBit(result, w))))
  }

  /** `result >> high_bit` of a wrapped value is not zero. */
  predicate TopBit(result: nat, w: nat)
    requires IsWidth(w)
  {
    result >= Modulus(w) / 2
  }

  lemma DecimalOverflowExact(s: string, i: nat, j: nat, w: nat)
    requires IsWidth(w) && i <= j <= |s|
    requires forall k: nat | i <= k < j :: IsDigit(s[k], 10)
    requires i < j ==> s[i] != '0'
    ensures var v := Numeral(s, i, j, 10);
            DecimalOverflow(w, j - i, At(s, i), Wrap(v, w)) <==> v >= Modulus(w)
  {
    if i < j {
      NumeralBounds(s, i, j, 10);
      assert IsDigit(s[i], 10);
      if j - i == MaxDigits10(w) {
        LeadDecides(w, s[i], Numeral(s, i, j, 10));
      } else {
        LengthDecides(w, DigitOf(s[i], 10), j - i, Numeral(s, i, j, 10));
      }
    }
  }

  lemma LengthDecides(w: nat, d: nat, digits: nat, v: nat)
    requires IsWidth(w) && 0 < d < 10 && 0 < digits && digits != MaxDigits10(w)
    requires d * Pow(10, digits - 1) <= v && v + 1 <= (d + 1) * Pow(10, digits - 1)
    ensures digits > MaxDigits10(w) <==> v >= Modulus(w)
  {
    var p := Pow(10, digits - 1);
    PowersOfTen(w);
    ProductMonotone(1, d, p);
    ProductMonotone(d + 1, 10, p);
    if digits < MaxDigits10(w) {
      assert Pow(10, digits) == 10 * p;
      PowMonotone(10, digits, MaxDigits10(w) - 1);
    } else {
      PowMonotone(10, MaxDigits10(w), digits - 1);
    }
  }

  lemma LeadDecides(w: nat, lead: char, v: nat)
    requires IsWidth(w) && '1' <= lead <= '9'
    requires DigitOf(lead, 10) * Pow(10, MaxDigits10(w) - 1) <= v
    requires v + 1 <= (DigitOf(lead, 10) + 1) * Pow(10, MaxDigits10(w) - 1)
    ensures DecimalOverflow(w, MaxDigits10(w), lead, Wrap(v, w)) <==> v >= Modulus(w)
  {
    PowersOfTen(w);
    if v < Modulus(w) {
      WrapSmall(v, w);
    } else if v < 2 * Modulus(w) {
      WrapIs(v, 1, v - Modulus(w), w);
    }
    LeadDecidesGiven(w, DigitOf(lead, 10), v, Wrap(v, w));
  }

  lemma LeadDecidesGiven(w: nat, d: nat, v: nat, r: nat)
    requires IsWidth(w) && 1 <= d <= 9
    requires var p := if w == 16 then 10000 else if w == 32 then 10_0000_0000 else 1000_0000_0000_0000_0000;
             d * p <= v && v + 1 <= (d + 1) * p
    requires v < Modulus(w) ==> r == v
    requires Modulus(w) <= v < 2 * Modulus(w) ==> r == v - Modulus(w)
    ensures var l := if w == 16 then 6 else if w == 32 then 4 else 1;
            d < l || (d == l && TopBit(r, w)) <==> v < Modulus(w)
  {
  }

  lemma PowersOfTen(w: nat)
    requires IsWidth(w)
    ensures Pow(10, MaxDigits10(w) - 1)
            == if w == 16 then 10000 else if w == 32 then 10_0000_0000 else 1000_0000_0000_0000_0000
    ensures Pow(10, MaxDigits10(w)) == 10 * Pow(10, MaxDigits10(w) - 1)
  {
    assert Pow(10, 4) == 10000;
    assert Pow(10, 9) == 10_0000 * Pow(10, 4);
    assert Pow(10, 19) == 100_0000_0000 * Pow(10, 9);
  }

  lemma HexOverflowExact(s: string, i: nat, j: nat, w: nat)
    requires IsWidth(w) && i <= j <= |s|
    requires forall k: nat | i <= k < j :: IsDigit(s[k], 16)
    requires i < j ==> s[i] != '0'
    ensures j - i > w / 8 * 2 <==> Numeral(s, i, j, 16) >= Modulus(w)
  {
    PowersOfSixteen(w);
    if i < j {
      NumeralBounds(s, i, j, 16);
      assert IsDigit(s[i], 16);
      var d: nat, p := DigitOf(s[i], 16), Pow(16, j - i - 1);
      ProductMonotone(1, d, p);
      ProductMonotone(d + 1, 16, p);
      if j - i > w / 4 {
        PowMonotone(16, w / 4, j - i - 1);
      } else {
        PowMonotone(16, j - i, w / 4);
      }
    }
  }

  lemma PowersOfSixteen(w: nat)
    requires IsWidth(w)
    ensures Pow(16, w / 4) == Modulus(w)
  {
    assert Pow(16, 4) == 0x1_0000;
    assert Pow(16, 8) == 0x1_0000 * Pow(16, 4);
    assert Pow(16, 16) == 0x1_0000_0000 * Pow(16, 8);
  }

  // ----- string_to_integer -----

  lemma WrapStep(v: nat, digit: nat, radix: nat, w: nat)
    requires IsWidth(w)
    ensures Wrap(Times(radix, Wrap(v, w)) + digit, w) == Wrap(Times(radix, v) + digit, w)
  {
    var q := WrapLaps(v, w);
    var x := Times(radix, Wrap(v, w)) + digit;
    var p := WrapLaps(x, w);
    var m := if radix == 16 then 16 * q else 10 * q;
    assert Laps(p, w) + Laps(m, w) == Laps(p + m, w);
    assert Times(radix, v) + digit == x + Laps(m, w);
    WrapIs(Times(radix, v) + digit, p + m, Wrap(x, w), w);
  }

  lemma {:induction false} SpacesEndIs(s: string, i: nat, j: nat)
    requires i <= j <= |s|
    requires forall k: nat | i <= k < j :: IsSpace(s[k])
    requires !IsSpace(At(s, j))
    ensures SpacesEnd(s, i) == j
    decreases j - i
  {
    if i < j { SpacesEndIs(s, i + 1, j); }
  }

  lemma {:induction false} DigitsEndIs(s: string, i: nat, j: nat, radix: nat)
    requires i <= j <= |s|
    requires forall k: nat | i <= k < j :: IsDigit(s[k], radix)
    requires !IsDigit(At(s, j), radix)
    ensures DigitsEnd(s, i, radix) == j
    decreases j - i
  {
    if i < j { DigitsEndIs(s, i + 1, j, radix); }
  }

  method SkipZeroDigits(s: string, i: nat) returns (z: nat)
    requires i <= |s|
    ensures i <= z <= |s| && At(s, z) != '0'
    ensures forall k: nat | i <= k < z :: s[k] == '0'
  {
    z := i;
    while At(s, z) == '0'
      invariant i <= z <= |s|
      invariant forall k: nat | i <= k < z :: s[k] == '0'
      decreases |s| - z
    {
      z := z + 1;
    }
  }

  /** The loop over the hexadecimal digits; `overflow` is decided by their number. */
  method ReadHex(s: string, i: nat, w: nat) returns (result: nat, overflow: bool)
    requires IsWidth(w) && i <= |s|
    ensures var v := Numeral(s, i, DigitsEnd(s, i, 16), 16);
            result == Wrap(v, w) && (overflow <==> v >= Modulus(w))
  {
    var start := SkipZeroDigits(s, i);
    var j := start;
    result := 0;
    while true
      invariant start <= j <= |s|
      invariant forall k: nat | i <= k < j :: IsDigit(s[k], 16)
      invariant result == Wrap(Numeral(s, start, j, 16), w)
      decreases |s| - j
    {
      var c := At(s, j);
      DigitTests(c);
      if j < |s| { WrapStep(Numeral(s, start, j, 16), if IsDigit(c, 16) then DigitOf(c, 16) else 0, 16, w); }
      if Unsigned(c as int - '0' as int) < 10 {
        result := Wrap(result * 16 + (c as int - '0' as int), w);
      } else if Unsigned(OrSpace(c) - 'a' as int) < 6 {
        result := Wrap(result * 16 + (OrSpace(c) - 'a' as int + 10), w);
      } else {
        break;
      }
      j := j + 1;
    }
    overflow := j - start > w / 8 * 2;
    DigitsEndIs(s, i, j, 16);
    SkipZeros(s, i, start, j, 16);
    HexOverflowExact(s, start, j, w);
  }

  method ReadDecimal(s: string, i: nat, w: nat) returns (result: nat, overflow: bool)
    requires IsWidth(w) && i <= |s|
    ensures var v := Numeral(s, i, DigitsEnd(s, i, 10), 10);
            result == Wrap(v, w) && (overflow <==> v >= Modulus(w))
  {
    var start := SkipZeroDigits(s, i);
    var j := start;
    result := 0;
    while true
      invariant start <= j <= |s|
      invariant forall k: nat | i <= k < j :: IsDigit(s[k], 10)
      invariant result == Wrap(Numeral(s, start, j, 10), w)
      decreases |s| - j
    {
      var c := At(s, j);
      DigitTests(c);
      if Unsigned(c as int - '0' as int) < 10 {
        WrapStep(Numeral(s, start, j, 10), DigitOf(c, 10), 10, w);
        result := Wrap(result * 10 + (c as int - '0' as int), w);
      } else {
        break;
      }
      j := j + 1;
    }
    overflow := DecimalOverflow(w, j - start, At(s, start), result);
    DigitsEndIs(s, i, j, 10);
    SkipZeros(s, i, start, j, 10);
    DecimalOverflowExact(s, start, j, w);
  }

  method SkipSign(s: string) returns (i: nat, negative: bool)
    ensures i == NumberStart(s) <= |s| && negative == (At(s, SpacesEnd(s, 0)) == '-')
  {
    i := 0;
    while IsSpace(At(s, i))
      invariant i <= |s|
      invariant forall k: nat | k < i :: IsSpace(s[k])
      decreases |s| - i
    {
      i := i + 1;
    }
    SpacesEndIs(s, 0, i);
    negative := At(s, i) == '-';
    if At(s, i) == '+' || At(s, i) == '-' {
      i := i + 1;
    }
  }

  /**
    `string_to_integer`: the text's value clamped to the range from the number that `minv` represents to
    `maxv`, as a bit pattern of `w` bits.
   */
  method StringToInteger(s: string, minv: nat, maxv: nat, w: nat) returns (r: nat)
    requires IsWidth(w) && minv < Modulus(w) && maxv < Modulus(w)
    ensures r == Wrap(Clamp(Meaning(s), 0 - Wrap(0 - minv, w), maxv), w)
  {
    var i, negative := SkipSign(s);
    DigitTests(At(s, i + 1));
    var result, overflow;
    if At(s, i) == '0' && OrSpace(At(s, i + 1)) == 'x' as int {
      result, overflow := ReadHex(s, i + 2, w);
    } else {
      result, overflow := ReadDecimal(s, i, w);
    }
    assert result == Wrap(Magnitude(s), w) && (overflow <==> Magnitude(s) >= Modulus(w));
    Clamps(Magnitude(s), negative, minv, maxv, w);
    r := Saturate(result, overflow, negative, minv, maxv, w);
  }

  function Saturate(result: nat, overflow: bool, negative: bool, minv: nat, maxv: nat, w: nat): nat
    requires IsWidth(w)
  {
    if negative then (if overflow || result > Wrap(0 - minv, w) then minv else Wrap(0 - result, w))
    else (if overflow || result > maxv then maxv else result)
  }

  /** The program's comparisons of wrapped values clamp the unwrapped one. */
  lemma Clamps(v: nat, negative: bool, minv: nat, maxv: nat, w: nat)
    requires IsWidth(w) && minv < Modulus(w) && maxv < Modulus(w)
    ensures Wrap(Clamp(if negative then 0 - v else v, 0 - Wrap(0 - minv, w), maxv), w)
            == Saturate(Wrap(v, w), v >= Modulus(w), negative, minv, maxv, w)
  {
    var n := Wrap(0 - minv, w);
    WrapSmall(0 - minv, w);
    WrapSmall(0 - n, w);
    WrapSmall(maxv, w);
    if v < Modulus(w) {
      WrapSmall(v, w);
      ClampsSmall(v, negative, minv, maxv, w, n);
    } else {
      assert Clamp(if negative then 0 - v else v, 0 - n, maxv) == if negative then 0 - n else maxv;
    }
  }

  lemma ClampsSmall(v: nat, negative: bool, minv: nat, maxv: nat, w: nat, n: nat)
    requires IsWidth(w) && minv < Modulus(w) && maxv < Modulus(w) && v < Modulus(w)
    requires Wrap(v, w) == v && Wrap(maxv, w) == maxv && Wrap(0 - n, w) == minv
    ensures Wrap(Clamp(if negative then 0 - v else v, 0 - n, maxv), w) ==
            if negative then (if v > n then minv else Wrap(0 - v, w)) else (if v > maxv then maxv else v)
  {
  }

  /** The number a bit pattern represents in two's complement. */
  function Signed(r: nat, w: nat): int
    requires IsWidth(w)
  {
    if r < Modulus(w) / 2 then r else r - Modulus(w)
  }

  /** `get_value_int` and `get_value_llong`, by width. */
  method GetSigned(s: string, w: nat) returns (x: int)
    requires IsWidth(w)
    ensures x == Clamp(Meaning(s), 0 - Modulus(w) / 2, Modulus(w) / 2 - 1)
  {
    hide Meaning;
    var r := StringToInteger(s, Modulus(w) / 2, Modulus(w) / 2 - 1, w);
    WrapSmall(0 - Modulus(w) / 2, w);
    WrapSmall(Clamp(Meaning(s), 0 - Modulus(w) / 2, Modulus(w) / 2 - 1), w);
    x := Signed(r, w);
  }

  /** `get_value_uint` and `get_value_ullong`, by width. */
  method GetUnsigned(s: string, w: nat) returns (x: int)
    requires IsWidth(w)
    ensures x == Clamp(Meaning(s), 0, Modulus(w) - 1)
  {
    hide Meaning;
    x := StringToInteger(s, 0, Modulus(w) - 1, w);
    WrapSmall(0, w);
    WrapSmall(Clamp(Meaning(s), 0, Modulus(w) - 1), w);
  }

  // ----- integer_to_string -----

  function DigitChar(d: nat): char
    requires d < 10
  {
    ('0' as int + d) as char
  }

  function DecimalText(n: nat): string {
    (if n < 10 then "" else DecimalText(n / 10)) + [DigitChar(n % 10)]
  }

  /** The text of a bit pattern: of the number it represents if `negative`, else of itself. */
  function IntegerTextOf(value: nat, negative: bool, w: nat): string
    requires IsWidth(w)
  {
    if negative then "-" + DecimalText(Wrap(0 - value, w)) else DecimalText(value)
  }

  method IntegerToString(buf: array<char>, begin: nat, end: nat, value: nat, negative: bool, w: nat)
    returns (start: nat)
    requires IsWidth(w) && value < Modulus(w)
    requires begin <= end <= buf.Length
    requires |DecimalText(if negative then Wrap(0 - value, w) else value)| < end - begin
    modifies buf
    ensures begin <= start <= end && buf[start..end] == IntegerTextOf(value, negative, w)
    ensures forall k: nat | k < begin || end <= k < buf.Length :: buf[k] == old(buf[k])
  {
    hide DecimalText, Wrap, Modulus;
    var result := end - 1;
    SomeDigit(value);
    SomeDigit(Wrap(0 - value, w));
    var rest: nat := if negative then Wrap(0 - value, w) else value;
    ghost var text := DecimalText(rest);
    while true
      invariant begin < result < end
      invariant |DecimalText(rest)| + (end - (result + 1)) == |text|
      invariant DecimalText(rest) + buf[result + 1..end] == text
      invariant forall k: nat | k < begin || end <= k < buf.Length :: buf[k] == old(buf[k])
      decreases rest
    {
      ghost var tail := buf[result + 1..end];
      LastDigit(rest, tail);
      buf[result] := DigitChar(rest % 10);
      assert buf[result..end] == [DigitChar(rest % 10)] + tail;
      result := result - 1;
      rest := rest / 10;
      if rest == 0 {
        break;
      }
    }
    assert buf[result + 1..end] == text;
    buf[result] := '-';
    start := if negative then result else result + 1;
    assert buf[result..end] == "-" + buf[result + 1..end];
  }

  lemma SomeDigit(n: nat)
    ensures |DecimalText(n)| > 0
  {
  }

  lemma LastDigit(n: nat, tail: string)
    ensures var t := [DigitChar(n % 10)] + tail;
            if n < 10 then DecimalText(n) + tail == t && |DecimalText(n)| == 1
            else DecimalText(n) + tail == DecimalText(n / 10) + t && |DecimalText(n)| == |DecimalText(n / 10)| + 1
                 && |DecimalText(n / 10)| > 0
  {
  }

  // ----- the round trip -----

  lemma {:induction false} DecimalTextDigits(n: nat)
    ensures forall k: nat | k < |DecimalText(n)| :: IsDigit(DecimalText(n)[k], 10)
    ensures n > 0 ==> DecimalText(n)[0] != '0'
    ensures |DecimalText(n)| > 0
  {
    if n >= 10 { DecimalTextDigits(n / 10); }
  }

  lemma {:induction false} NumeralOfDecimalText(s: string, p: nat, n: nat)
    requires p + |DecimalText(n)| <= |s| && s[p..p + |DecimalText(n)|] == DecimalText(n)
    ensures forall k: nat | p <= k < p + |DecimalText(n)| :: IsDigit(s[k], 10)
    ensures Numeral(s, p, p + |DecimalText(n)|, 10) == n
  {
    var t := DecimalText(n);
    var e := p + |t|;
    DecimalTextDigits(n);
    forall k: nat | p <= k < e ensures IsDigit(s[k], 10) {
      assert s[k] == s[p..e][k - p];
    }
    assert s[e - 1] == s[p..e][|t| - 1] == DigitChar(n % 10);
    if n < 10 {
      assert Numeral(s, p, p, 10) == 0;
    } else {
      var f := DecimalText(n / 10);
      assert s[p..p + |f|] == s[p..e][..|f|] == f;
      NumeralOfDecimalText(s, p, n / 10);
    }
  }

  lemma MeaningOfDecimalText(n: nat, negative: bool)
    ensures Meaning((if negative then "-" else "") + DecimalText(n)) == if negative then 0 - n else n
  {
    var t := DecimalText(n);
    var p := if negative then 1 else 0;
    var s := (if negative then "-" else "") + t;
    DecimalTextDigits(n);
    assert s[p] == t[0] && IsDigit(t[0], 10);
    SpacesEndIs(s, 0, 0);
    assert NumberStart(s) == p;
    assert Radix(s, p) == 10 by {
      if |t| > 1 {
        assert n > 0;
      }
    }
    assert s[p..p + |t|] == t;
    NumeralOfDecimalText(s, p, n);
    DigitsEndIs(s, p, p + |t|, 10);
  }

  /** Reading back the text of a signed number gives the number, over the whole range of the type. */
  lemma SignedRoundTrip(x: int, w: nat)
    requires IsWidth(w) && 0 - Modulus(w) / 2 <= x < Modulus(w) / 2
    ensures Clamp(Meaning(IntegerTextOf(Wrap(x, w), x < 0, w)), 0 - Modulus(w) / 2, Modulus(w) / 2 - 1) == x
  {
    WrapSmall(x, w);
    if x < 0 {
      MeaningOfDecimalText(0 - x, true);
      WrapSmall(0 - Wrap(x, w), w);
    } else {
      MeaningOfDecimalText(x, false);
      assert "" + DecimalText(x) == DecimalText(x);
    }
  }

  lemma UnsignedRoundTrip(x: nat, w: nat)
    requires IsWidth(w) && x < Modulus(w)
    ensures Clamp(Meaning(IntegerTextOf(x, false, w)), 0, Modulus(w) - 1) == x
  {
    MeaningOfDecimalText(x, false);
    assert "" + DecimalText(x) == DecimalText(x);
  }

  // ----- what other texts mean -----

  lemma DigitMeans(c: char, d: nat, base: nat)
    requires Writes(c, d) && d < base && (base == 10 || base == 16)
    ensures DigitOf(c, base) == d && !IsSpace(c) && c != '+' && c != '-' && c != 'x' && c != 'X' && (base == 10 ==> d < 10)
  {
    DigitCodes(c, d);
    hide Writes;
  }

  /** The digits of a numeral denote its number. */
  lemma {:induction false} NumeralMeans(s: string, i: nat, x: string, u: nat, base: nat)
    requires (base == 10 || base == 16) && IsNumeral(x, u, base) && i + |x| <= |s| && s[i..i + |x|] == x
    ensures forall k: nat | i <= k < i + |x| :: IsDigit(s[k], base)
    ensures Numeral(s, i, i + |x|, base) == u
    decreases |x|
  {
    hide IsNumeral, Writes, DigitOf;
    LastOf(x, u, base);
    if x != [] {
      var n := |x| - 1;
      assert s[i..i + n] == x[..n];
      assert s[i + n] == x[n];
      NumeralMeans(s, i, x[..n], u / base, base);
      DigitMeans(x[n], u % base, base);
    }
  }

  predicate Blank(x: string) {
    forall c | c in x :: IsSpace(c)
  }

  lemma {:induction false} BlankEnds(s: string, i: nat, x: string)
    requires i + |x| <= |s| && s[i..i + |x|] == x && Blank(x) && (i + |x| < |s| ==> !IsSpace(s[i + |x|]))
    ensures SpacesEnd(s, i) == i + |x|
    decreases |x|
  {
    if x != [] {
      assert s[i] == x[0] && x[0] in x;
      assert s[i + 1..i + 1 + |x[1..]|] == x[1..];
      assert forall c | c in x[1..] :: c in x;
      BlankEnds(s, i + 1, x[1..]);
    }
  }

  /** What stands before the digits: nothing, or the mark of hexadecimal ones. */
  predicate IsMark(mark: string, base: nat) {
    if base == 16 then mark == "0x" || mark == "0X" else base == 10 && mark == ""
  }

  /**
    White space, a sign, the mark of hexadecimal digits, and the digits of `u`, with anything behind that is no digit:
    the text means `u` or its negative.
   */
  lemma TextMeans(spaces: string, sign: string, mark: string, digits: string, u: nat, base: nat, rest: string)
    requires Blank(spaces) && (sign == "" || sign == "+" || sign == "-") && (base == 10 || base == 16) && IsMark(mark, base)
    requires IsNumeral(digits, u, base) && digits != [] && (rest != [] ==> !IsDigit(rest[0], base))
    requires base == 10 && digits == "0" && rest != [] ==> rest[0] != 'x' && rest[0] != 'X'
    ensures Meaning(spaces + sign + mark + digits + rest) == if sign == "-" then 0 - u else u
  {
    hide IsNumeral, Writes, DigitOf, Numeral, Blank, SpacesEnd, DigitsEnd, IsSpace;
    var s := spaces + sign + mark + digits + rest;
    var a, b := |spaces|, |spaces| + |sign|;
    var d := b + |mark|;
    var e := d + |digits|;
    FirstDigit(digits, u, base);
    Pieces(spaces, sign, mark, digits, rest);
    NoSpaceThere(mark, digits, base);
    BlankEnds(s, 0, spaces);
    NumeralMeans(s, d, digits, u, base);
    assert NumberStart(s) == b;
    assert Radix(s, b) == base by { RadixIs(s, b, mark, digits, u, base, rest); }
    NulIsNoDigit(base);
    if rest != [] { assert s[e] == s[e..][0]; }
    DigitsEndIs(s, d, e, base);
  }

  lemma NulIsNoDigit(radix: nat)
    ensures !IsDigit('\0', radix)
  {
  }

  lemma NoSpaceThere(mark: string, digits: string, base: nat)
    requires IsMark(mark, base) && digits != [] && !IsSpace(digits[0])
    ensures !IsSpace('+') && !IsSpace('-') && !IsSpace((mark + digits)[0])
  {
  }

  lemma FirstDigit(digits: string, u: nat, base: nat)
    requires (base == 10 || base == 16) && IsNumeral(digits, u, base) && digits != []
    ensures IsDigit(digits[0], base) && !IsSpace(digits[0]) && digits[0] != '+' && digits[0] != '-'
    ensures forall k: nat | k < |digits| :: digits[k] != 'x' && digits[k] != 'X'
    decreases |digits|
  {
    hide Writes, DigitOf;
    var n := |digits| - 1;
    DigitMeans(digits[n], u % base, base);
    if n > 0 { FirstDigit(digits[..n], u / base, base); }
  }

  lemma Pieces(spaces: string, sign: string, mark: string, digits: string, rest: string)
    ensures var s, a := spaces + sign + mark + digits + rest, |spaces|;
            var b := a + |sign|; var d := b + |mark|; var e := d + |digits|;
            && |s| == e + |rest| && s[..a] == spaces && s[a..b] == sign && s[b..d] == mark && s[d..e] == digits && s[e..] == rest
  {
  }

  lemma RadixIs(s: string, b: nat, mark: string, digits: string, u: nat, base: nat, rest: string)
    requires (base == 10 || base == 16) && IsMark(mark, base) && digits != [] && b + |mark| + |digits| + |rest| == |s|
    requires s[b..b + |mark|] == mark && s[b + |mark|..b + |mark| + |digits|] == digits && s[b + |mark| + |digits|..] == rest
    requires forall k: nat | k < |digits| :: digits[k] != 'x' && digits[k] != 'X'
    requires base == 10 && digits == "0" && rest != [] ==> rest[0] != 'x' && rest[0] != 'X'
    ensures Radix(s, b) == base
  {
    if base == 16 {
      assert s[b] == s[b..b + 2][0] && s[b + 1] == s[b..b + 2][1];
    } else {
      assert s[b] == s[b..b + |digits|][0];
      if |digits| > 1 {
        assert s[b + 1] == s[b..b + |digits|][1];
      } else {
        assert digits == [digits[0]];
        if rest != [] { assert s[b + 1] == rest[0]; }
      }
    }
  }

  /** A text without digits behind its spaces and sign means 0. */
  lemma NoDigitsMeanZero(s: string)
    requires !IsDigit(At(s, NumberStart(s)), 10)
    ensures Meaning(s) == 0
  {
    DigitsStartInside(s);
  }
}
