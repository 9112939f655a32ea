/**
  What references stand for, told by their texts: the five entities, and numbers written with decimal or hexadecimal
  digits as division gives them.
 */
module ReferenceTexts {
  import opened Common
  import opened Numerals
  import opened References
  import opened TextDecoding
  import opened Markup

  function Prefix(base: nat): seq<char> {
    if base == 16 then "&#x" else "&#"
  }

  lemma DigitOf(c: char, d: nat)
    requires Writes(c, d)
    ensures IsHex(c) && Digit(c) == d && (d < 10 ==> IsDecimal(c)) && c != ';' && c != 'x'
  {
    DigitCodes(c, d);
    hide Writes;
  }

  /** Every digit has its character. */
  lemma DigitWrites(c: char)
    requires IsHex(c)
    ensures Writes(c, Digit(c)) && (IsDecimal(c) ==> Digit(c) < 10)
  {
    CodeWrites(c, Digit(c));
    hide Writes;
  }

  lemma Carry(v: nat, d: nat, base: nat)
    requires base == 10 || base == 16
    ensures (base * (v % UINT) + d) % UINT == (base * v + d) % UINT
  {
    var q, r := v / UINT, v % UINT;
    if base == 10 { Laps(10 * q, 10 * r + d); } else { Laps(16 * q, 16 * r + d); }
  }

  lemma Laps(k: nat, z: nat)
    ensures (0x1_0000_0000 * k + z) % 0x1_0000_0000 == z % 0x1_0000_0000
  {
  }

  lemma LastValue(t: seq<char>, i: nat, n: nat, base: nat)
    requires i + n <= |t| && forall k: nat | i <= k < i + n :: IsHex(t[k])
    ensures if n == 0 then Value(t, i, n, base) == 0
            else Value(t, i, n, base) == (base * Value(t, i, n - 1, base) + Digit(t[i + n - 1])) % UINT
  {
    hide IsHex, Digit;
  }

  /** Digits accumulated in 32 bits are the number, modulo 2 to the 32. */
  lemma {:induction false} NumeralValue(t: seq<char>, i: nat, x: seq<char>, u: nat, base: nat)
    requires (base == 10 || base == 16) && Stands(t, i, x) && IsNumeral(x, u, base)
    ensures i + |x| <= |t| && forall k: nat | i <= k < i + |x| :: IsHex(t[k]) && (base == 10 ==> IsDecimal(t[k]))
    ensures Value(t, i, |x|, base) == u % UINT
    decreases |x|
  {
    hide IsHex, IsDecimal, Digit, Value, IsNumeral, Stands, Writes;
    LastOf(x, u, base);
    StandsInside(t, i, x);
    if x != [] {
      var n := |x| - 1;
      assert x == x[..n] + [x[n]];
      StandsParts(t, i, x[..n], [x[n]]);
      StandsAt(t, i, x, n);
      NumeralValue(t, i, x[..n], u / base, base);
      DigitOf(x[n], u % base);
      LastValue(t, i, n + 1, base);
      Carry(u / base, u % base, base);
      assert base * (u / base) + u % base == u;
    } else {
      LastValue(t, i, 0, base);
    }
  }

  lemma StandsInside(t: seq<char>, i: nat, x: seq<char>)
    requires Stands(t, i, x)
    ensures i + |x| <= |t|
  {
  }

  /** A character reference stands for the character with this number. */
  lemma NumberIsMatched(t: seq<char>, i: nat, x: seq<char>, u: nat, base: nat)
    requires (base == 10 || base == 16) && x != [] && IsNumeral(x, u, base) && Stands(t, i, Prefix(base) + x + ";")
    ensures MatchRef(t, i) == Match(|Prefix(base)| + |x| + 1, Utf8(u % UINT))
  {
    hide Value, Digits, Digit, IsNumeral, Utf8, Stands, MatchNumber, MatchRef, IsHex, IsDecimal;
    var p := Prefix(base);
    StandsParts(t, i, p + x, ";");
    StandsParts(t, i, p, x);
    StandsInside(t, i + |p| + |x|, ";");
    StandsAt(t, i, p, 0);
    StandsAt(t, i, p, 1);
    StandsAt(t, i + |p| + |x|, ";", 0);
    NumeralValue(t, i + |p|, x, u, base);
    NotHex();
    DigitsAre(t, i + |p|, |x|, base == 16);
    NumberMatch(t, i, |p|, base);
    if base == 16 { StandsAt(t, i, p, 2); } else { NoSign(t[i + 2]); }
    NumberRef(t, i, base);
  }

  lemma NotHex()
    ensures !IsHex(';') && !IsDecimal(';')
  {
  }

  lemma NumberMatch(t: seq<char>, i: nat, skip: nat, base: nat)
    requires i + skip <= |t| && 2 <= skip
    ensures var n := Digits(t, i + skip, base == 16);
            n > 0 && Is(t, i + skip + n, ';') ==> MatchNumber(t, i, skip, base) == Match(skip + n + 1, Utf8(Value(t, i + skip, n, base)))
  {
    hide Utf8;
  }

  lemma NumberRef(t: seq<char>, i: nat, base: nat)
    requires (base == 10 || base == 16) && i + |Prefix(base)| <= |t|
    requires Is(t, i, '&') && Is(t, i + 1, '#') && (Is(t, i + 2, 'x') <==> base == 16)
    ensures MatchRef(t, i) == MatchNumber(t, i, |Prefix(base)|, base)
  {
    hide MatchNumber;
  }

  lemma NoSign(c: char)
    requires IsDecimal(c)
    ensures c != 'x'
  {
  }

  /** The entities of section 4.6 of XML 1.0. */
  lemma EntitiesAreMatched(t: seq<char>, i: nat)
    ensures Stands(t, i, "&lt;") ==> MatchRef(t, i) == Match(4, "<")
    ensures Stands(t, i, "&gt;") ==> MatchRef(t, i) == Match(4, ">")
    ensures Stands(t, i, "&amp;") ==> MatchRef(t, i) == Match(5, "&")
    ensures Stands(t, i, "&apos;") ==> MatchRef(t, i) == Match(6, "'")
    ensures Stands(t, i, "&quot;") ==> MatchRef(t, i) == Match(6, ['"'])
  {
    Lt(t, i);
    Gt(t, i);
    Amp(t, i);
    Apos(t, i);
    Quot(t, i);
  }

  lemma Lt(t: seq<char>, i: nat)
    ensures Stands(t, i, "&lt;") ==> MatchRef(t, i) == Match(4, "<")
  {
    hide MatchNumber;
    if Stands(t, i, "&lt;") { Letters(t, i, "&lt;"); }
  }

  lemma Gt(t: seq<char>, i: nat)
    ensures Stands(t, i, "&gt;") ==> MatchRef(t, i) == Match(4, ">")
  {
    hide MatchNumber;
    if Stands(t, i, "&gt;") { Letters(t, i, "&gt;"); }
  }

  lemma Amp(t: seq<char>, i: nat)
    ensures Stands(t, i, "&amp;") ==> MatchRef(t, i) == Match(5, "&")
  {
    hide MatchNumber;
    if Stands(t, i, "&amp;") { Letters(t, i, "&amp;"); }
  }

  lemma Apos(t: seq<char>, i: nat)
    ensures Stands(t, i, "&apos;") ==> MatchRef(t, i) == Match(6, "'")
  {
    hide MatchNumber;
    if Stands(t, i, "&apos;") { Letters(t, i, "&apos;"); }
  }

  lemma Quot(t: seq<char>, i: nat)
    ensures Stands(t, i, "&quot;") ==> MatchRef(t, i) == Match(6, ['"'])
  {
    hide MatchNumber;
    if Stands(t, i, "&quot;") { Letters(t, i, "&quot;"); }
  }

  lemma Letters(t: seq<char>, i: nat, x: seq<char>)
    requires Stands(t, i, x) && 4 <= |x| <= 6
    ensures i + |x| <= |t| && t[i] == x[0] && t[i + 1] == x[1] && t[i + 2] == x[2] && t[i + 3] == x[3]
    ensures |x| > 4 ==> t[i + 4] == x[4]
    ensures |x| > 5 ==> t[i + 5] == x[5]
  {
    StandsAt(t, i, x, 0);
    StandsAt(t, i, x, 1);
    StandsAt(t, i, x, 2);
    StandsAt(t, i, x, 3);
    if |x| > 4 { StandsAt(t, i, x, 4); }
    if |x| > 5 { StandsAt(t, i, x, 5); }
  }

  // ----- and nothing else is a reference -----

  /** The digits of a text are a numeral. */
  lemma {:induction false} DigitsAreNumeral(t: seq<char>, i: nat, n: nat, base: nat) returns (u: nat)
    requires (base == 10 || base == 16) && i + n <= |t|
    requires forall k: nat | i <= k < i + n :: IsHex(t[k]) && (base == 10 ==> IsDecimal(t[k]))
    ensures IsNumeral(t[i..i + n], u, base)
    decreases n
  {
    hide IsHex, IsDecimal, Digit, Writes, IsNumeral;
    if n == 0 {
      u := 0;
      assert t[i..i] == [];
      NoNumeral(base);
    } else {
      var v := DigitsAreNumeral(t, i, n - 1, base);
      var c := t[i + n - 1];
      DigitWrites(c);
      u := base * v + Digit(c);
      NextNumeral(t[i..i + n - 1], v, Digit(c), base, c);
      assert t[i..i + n] == t[i..i + n - 1] + [c];
    }
  }

  /** A text of one of these forms. */
  ghost predicate IsEntity(x: seq<char>) {
    x == "&lt;" || x == "&gt;" || x == "&amp;" || x == "&apos;" || x == "&quot;"
  }

  ghost predicate IsNumber(x: seq<char>) {
    exists base: nat, digits: seq<char>, u: nat ::
      (base == 10 || base == 16) && digits != [] && IsNumeral(digits, u, base) && x == Prefix(base) + digits + ";"
  }

  /** What is recognised as a reference is one of the five entities or a number, as long as its text. */
  lemma OnlyReferences(t: seq<char>, i: nat)
    requires MatchRef(t, i).len > 0
    ensures var x := t[i..i + MatchRef(t, i).len]; IsEntity(x) || IsNumber(x)
  {
    hide MatchRef, MatchNumber, IsEntity, IsNumber;
    WhichReference(t, i);
    if Is(t, i + 1, '#') {
      NumberText(t, i, if Is(t, i + 2, 'x') then 16 else 10);
    } else {
      EntityText(t, i);
    }
  }

  lemma WhichReference(t: seq<char>, i: nat)
    requires MatchRef(t, i).len > 0
    ensures Is(t, i, '&') && i + MatchRef(t, i).len <= |t|
    ensures Is(t, i + 1, '#') ==>
              if Is(t, i + 2, 'x') then i + 3 <= |t| && MatchRef(t, i) == MatchNumber(t, i, 3, 16)
              else i + 2 <= |t| && MatchRef(t, i) == MatchNumber(t, i, 2, 10)
  {
    hide MatchNumber;
  }

  lemma NumberText(t: seq<char>, i: nat, base: nat)
    requires (base == 10 || base == 16) && Is(t, i, '&') && Is(t, i + 1, '#') && i + |Prefix(base)| <= |t|
    requires base == 16 ==> Is(t, i + 2, 'x')
    requires MatchNumber(t, i, |Prefix(base)|, base).len > 0
    ensures var n := MatchNumber(t, i, |Prefix(base)|, base).len; i + n <= |t| && IsNumber(t[i..i + n])
  {
    hide Value, IsNumeral, Utf8;
    var skip := |Prefix(base)|;
    var digits := Digits(t, i + skip, base == 16);
    hide Digits, IsHex, IsDecimal;
    var u := DigitsAreNumeral(t, i + skip, digits, base);
    hide IsNumeral;
    assert t[i..i + skip] == Prefix(base);
    ThreePieces(t, i, skip, digits);
  }

  lemma ThreePieces(t: seq<char>, i: nat, skip: nat, n: nat)
    requires Is(t, i + skip + n, ';')
    ensures t[i..i + skip + n + 1] == t[i..i + skip] + t[i + skip..i + skip + n] + ";"
  {
  }

  /** `x` stands here, character by character. */
  predicate Reads(t: seq<char>, i: nat, x: seq<char>) {
    forall k: nat | k < |x| :: Is(t, i + k, x[k])
  }

  lemma ReadsIs(t: seq<char>, i: nat, x: seq<char>)
    requires Reads(t, i, x) && x != []
    ensures i + |x| <= |t| && t[i..i + |x|] == x
  {
    assert Is(t, i + (|x| - 1), x[|x| - 1]);
    forall k: nat | k < |x| ensures t[i + k] == x[k] { assert Is(t, i + k, x[k]); }
  }

  lemma EntityText(t: seq<char>, i: nat)
    requires MatchRef(t, i).len > 0 && !Is(t, i + 1, '#')
    ensures i + MatchRef(t, i).len <= |t| && IsEntity(t[i..i + MatchRef(t, i).len])
  {
    var x := WhichEntity(t, i);
    hide MatchRef, Reads;
    ReadsIs(t, i, x);
  }

  lemma WhichEntity(t: seq<char>, i: nat) returns (x: seq<char>)
    requires MatchRef(t, i).len > 0 && !Is(t, i + 1, '#')
    ensures IsEntity(x) && Reads(t, i, x) && MatchRef(t, i).len == |x|
  {
    hide MatchNumber;
    x := if Is(t, i + 1, 'l') then "&lt;" else if Is(t, i + 1, 'g') then "&gt;" else if Is(t, i + 1, 'q') then "&quot;"
         else if Is(t, i + 2, 'm') then "&amp;" else "&apos;";
  }

  // ----- decoding -----

  /** A reference in a text or a value is decoded to what it stands for; the rest follows. */
  lemma ReferenceDecodes(t: seq<char>, i: nat, space: Space, stop: char)
    requires i < |t| && Delimiter(stop) && MatchRef(t, i).len > 0
    ensures var m, mode := MatchRef(t, i), Mode(true, space);
            Decode(t, i, mode, stop) == m.text + Decode(t, i + m.len, mode, stop) && EndOf(t, i, stop) == EndOf(t, i + m.len, stop)
  {
    hide MatchRef, Decode, EndOf, Item;
    StartsReference(t, i);
    RefItem(t, i, Mode(true, space));
    ItemStays(t, i, Mode(true, space), stop);
    DecodeOne(t, i, Mode(true, space), stop);
  }

  lemma StartsReference(t: seq<char>, i: nat)
    requires MatchRef(t, i).len > 0
    ensures i < |t| && t[i] == '&'
  {
  }

  /** For every code point: its reference, in decimal or hexadecimal digits of either case, decodes to it. */
  lemma CodePointDecodes(t: seq<char>, i: nat, digits: seq<char>, u: nat, base: nat, space: Space, stop: char)
    requires (base == 10 || base == 16) && digits != [] && IsNumeral(digits, u, base) && u < 0x110000 && Delimiter(stop)
    requires Stands(t, i, Prefix(base) + digits + ";")
    ensures var next, mode := i + |Prefix(base)| + |digits| + 1, Mode(true, space);
            next <= |t| && Decode(t, i, mode, stop) == Utf8(u) + Decode(t, next, mode, stop) && IsUtf8(Utf8(u), u)
  {
    hide Decode, EndOf, IsNumeral, Utf8, MatchRef, IsUtf8;
    NumberIsMatched(t, i, digits, u, base);
    ReferenceDecodes(t, i, space, stop);
    Utf8RoundTrip(u);
  }

  /** So do the five entities. */
  lemma EntityDecodes(t: seq<char>, i: nat, name: seq<char>, c: char, space: Space, stop: char)
    requires (name, c) in {("&lt;", '<'), ("&gt;", '>'), ("&amp;", '&'), ("&apos;", '\''), ("&quot;", '"')}
    requires Stands(t, i, name) && Delimiter(stop)
    ensures var mode := Mode(true, space);
            i + |name| <= |t| && Decode(t, i, mode, stop) == [c] + Decode(t, i + |name|, mode, stop)
  {
    hide Decode, EndOf, MatchRef;
    EntitiesAreMatched(t, i);
    ReferenceDecodes(t, i, space, stop);
  }
}
