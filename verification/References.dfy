/**
  Character and entity references of xml/pugixml.cpp: what `strconv_escape` recognises, the bytes it writes, and
  the decoding in place.
*/
module References {
  import opened GapBuffer

  const UINT: nat := 0x1_0000_0000

  predicate Byte(c: char) {
    c as int < 256
  }

  // ----- UTF-8 -----

  function ToChar(b: nat): char
    requires b < 256
  {
    b as char
  }

  /** `utf8_writer::any`; the leading byte of a four-byte sequence keeps only its low bits. */
  function Utf8(u: nat): (bytes: seq<char>)
    requires u < UINT
    ensures 1 <= |bytes| <= 4 && forall i | 0 <= i < |bytes| :: Byte(bytes[i])
  {
    if u < 0x80 then [ToChar(u)]
    else if u < 0x800 then [ToChar(0xC0 + u / 64), ToChar(0x80 + u % 64)]
    else if u < 0x10000 then [ToChar(0xE0 + u / 4096), ToChar(0x80 + u / 64 % 64), ToChar(0x80 + u % 64)]
    else [ToChar(0xF0 + u / 0x40000 % 16), ToChar(0x80 + u / 4096 % 64), ToChar(0x80 + u / 64 % 64), ToChar(0x80 + u % 64)]
  }

  function Tail(c: char): nat {
    c as int % 64
  }

  /** Reading a sequence back, as section 3 of RFC 3629 lays it out. */
  function FromUtf8(b: seq<char>): nat
    requires |b| > 0
  {
    if |b| == 1 then b[0] as int
    else if |b| == 2 then b[0] as int % 32 * 64 + Tail(b[1])
    else if |b| == 3 then b[0] as int % 16 * 4096 + Tail(b[1]) * 64 + Tail(b[2])
    else b[0] as int % 8 * 0x40000 + Tail(b[1]) * 4096 + Tail(b[2]) * 64 + Tail(b[3])
  }

  /** The first byte tells how many there are. */
  predicate Leads(c: char, n: nat) {
    var b := c as int;
    if n == 1 then b < 0x80 else if n == 2 then 0xC0 <= b < 0xE0 else if n == 3 then 0xE0 <= b < 0xF0 else 0xF0 <= b < 0xF8
  }

  /** The shortest sequence for a code point, in the form of that section. */
  predicate IsUtf8(b: seq<char>, u: nat) {
    && |b| == (if u < 0x80 then 1 else if u < 0x800 then 2 else if u < 0x10000 then 3 else 4)
    && Leads(b[0], |b|) && (forall i | 1 <= i < |b| :: 0x80 <= b[i] as int < 0xC0) && FromUtf8(b) == u
  }

  /** Every character that Unicode has is encoded in its form and comes back. */
  lemma Utf8RoundTrip(u: nat)
    requires u < 0x110000
    ensures IsUtf8(Utf8(u), u)
  {
    Radix(u);
    hide FromUtf8;
    if u < 0x80 {
      One(u);
    } else if u < 0x800 {
      Two(u / 64, u % 64);
    } else if u < 0x10000 {
      Three(u / 4096, u / 64 % 64, u % 64);
    } else {
      Four(u / 0x40000, u / 4096 % 64, u / 64 % 64, u % 64);
    }
  }

  lemma Radix(u: nat)
    ensures u == u / 64 * 64 + u % 64 && u / 64 == u / 4096 * 64 + u / 64 % 64 && u / 4096 == u / 0x40000 * 64 + u / 4096 % 64
  {
  }

  lemma One(a: nat)
    requires a < 0x80
    ensures FromUtf8([ToChar(a)]) == a
  {
  }

  lemma Two(a: nat, b: nat)
    requires a < 32 && b < 64
    ensures FromUtf8([ToChar(0xC0 + a), ToChar(0x80 + b)]) == a * 64 + b
  {
    TailOf(b);
  }

  lemma Three(a: nat, b: nat, c: nat)
    requires a < 16 && b < 64 && c < 64
    ensures FromUtf8([ToChar(0xE0 + a), ToChar(0x80 + b), ToChar(0x80 + c)]) == a * 4096 + b * 64 + c
  {
    TailOf(b);
    TailOf(c);
  }

  lemma Four(a: nat, b: nat, c: nat, d: nat)
    requires a < 8 && b < 64 && c < 64 && d < 64
    ensures FromUtf8([ToChar(0xF0 + a), ToChar(0x80 + b), ToChar(0x80 + c), ToChar(0x80 + d)])
         == a * 0x40000 + b * 4096 + c * 64 + d
  {
    TailOf(b);
    TailOf(c);
    TailOf(d);
  }

  lemma TailOf(d: nat)
    requires d < 64
    ensures Tail(ToChar(0x80 + d)) == d
  {
  }

  // ----- references -----

  predicate Is(t: seq<char>, i: nat, c: char) {
    i < |t| && t[i] == c
  }

  predicate IsDecimal(c: char) {
    '0' <= c <= '9'
  }

  predicate IsHex(c: char) {
    '0' <= c <= '9' || 'a' <= c <= 'f' || 'A' <= c <= 'F'
  }

  function Digit(c: char): (d: nat)
    requires IsHex(c)
    ensures d < 16
  {
    if '0' <= c <= '9' then c as int - '0' as int
    else if 'a' <= c <= 'f' then c as int - 'a' as int + 10
    else c as int - 'A' as int + 10
  }

  /** The number of digits from place `i` on. */
  function Digits(t: seq<char>, i: nat, hex: bool): (n: nat)
    ensures i + n <= |t| || n == 0
    ensures forall k: nat | i <= k < i + n :: IsHex(t[k]) && (!hex ==> IsDecimal(t[k]))
    decreases |t| - i
  {
    if i < |t| && (if hex then IsHex(t[i]) else IsDecimal(t[i])) then 1 + Digits(t, i + 1, hex) else 0
  }

  /** The value of `n` digits, accumulated in 32 bits. */
  function Value(t: seq<char>, i: nat, n: nat, base: nat): (v: nat)
    requires i + n <= |t| && forall k: nat | i <= k < i + n :: IsHex(t[k])
    ensures v < UINT
  {
    if n == 0 then 0 else (base * Value(t, i, n - 1, base) + Digit(t[i + n - 1])) % UINT
  }

  /** A reference: how long it is, 0 if there is none, and what it stands for. */
  datatype Match = Match(len: nat, text: seq<char>)

  const NONE := Match(0, [])

  /** The reference at place `i`: section 4.1 and section 4.6 of XML 1.0. */
  function MatchRef(t: seq<char>, i: nat): (m: Match)
    ensures m.len > 0 ==> |m.text| <= m.len && i + m.len <= |t| && 4 <= m.len
  {
    if !Is(t, i, '&') then NONE
    else if Is(t, i + 1, 'a') && Is(t, i + 2, 'm') && Is(t, i + 3, 'p') && Is(t, i + 4, ';') then Match(5, "&")
    else if Is(t, i + 1, 'a') && Is(t, i + 2, 'p') && Is(t, i + 3, 'o') && Is(t, i + 4, 's') && Is(t, i + 5, ';') then Match(6, "'")
    else if Is(t, i + 1, 'g') && Is(t, i + 2, 't') && Is(t, i + 3, ';') then Match(4, ">")
    else if Is(t, i + 1, 'l') && Is(t, i + 2, 't') && Is(t, i + 3, ';') then Match(4, "<")
    else if Is(t, i + 1, 'q') && Is(t, i + 2, 'u') && Is(t, i + 3, 'o') && Is(t, i + 4, 't') && Is(t, i + 5, ';') then Match(6, ['"'])
    else if Is(t, i + 1, '#') && Is(t, i + 2, 'x') then MatchNumber(t, i, 3, 16)
    else if Is(t, i + 1, '#') then MatchNumber(t, i, 2, 10)
    else NONE
  }

  /** A character reference with at least one digit. */
  function MatchNumber(t: seq<char>, i: nat, skip: nat, base: nat): (m: Match)
    requires i + skip <= |t| && 2 <= skip
    ensures m.len > 0 ==> |m.text| <= m.len && i + m.len <= |t| && 4 <= m.len
  {
    var n := Digits(t, i + skip, base == 16);
    if n > 0 && Is(t, i + skip + n, ';') then Match(skip + n + 1, Utf8(Value(t, i + skip, n, base))) else NONE
  }

  /** The characters that references are made of. */
  predicate RefChar(c: char) {
    'a' <= c <= 'z' || 'A' <= c <= 'Z' || '0' <= c <= '9' || c == '#' || c == ';' || c == '&'
  }

  /** A reference and what follows: the place behind, and what the text up to there has become. */
  ghost predicate Escaped(t: seq<char>, s: nat, next: nat, done: seq<char>, now: seq<char>) {
    && s < next < |t|
    && var m := MatchRef(t, s);
       if m.len > 0 then next == s + m.len && now == done + m.text
       else now == done + t[s..next] && forall i: nat | s < i < next :: RefChar(t[i]) && t[i] != '&'
  }

  /** The buffer ends with NUL. */
  ghost predicate Terminated(t: seq<char>) {
    |t| > 0 && t[|t| - 1] == '\0'
  }

  /** Literal text stays. */
  lemma {:induction false} KeepAll(t: seq<char>, b: seq<char>, begin: nat, s: nat, g: View, done: seq<char>, next: nat)
    requires Decoding(t, b, begin, s, g, done) && s <= next <= |t|
    ensures Decoding(t, b, begin, next, g, done + t[s..next])
    decreases next - s
  {
    hide Decoding;
    if s == next {
      assert done + t[s..next] == done;
    } else {
      Keep(t, b, begin, s, g, done);
      KeepAll(t, b, begin, s + 1, g, done + [t[s]], next);
      assert done + [t[s]] + t[s + 1..next] == done + t[s..next];
    }
  }

  /** Writes the text of a reference over its beginning and drops the rest. */
  method Replace(a: array<char>, g: Gap, from: nat, stre: nat, text: seq<char>,
                 ghost t: seq<char>, ghost begin: nat, ghost done: seq<char>) returns (next: nat)
    requires Decoding(t, a[..], begin, from, g.Now(), done) && from + |text| <= stre <= a.Length && (!g.open ==> g.size == 0)
    modifies a, g
    ensures next == stre && g.open && Decoding(t, a[..], begin, next, g.Now(), done + text)
  {
    hide Decoding;
    var s := from;
    assert done + text[..0] == done;
    GapInside(t, a[..], begin, s, g.Now(), done);
    while s < from + |text|
      invariant from <= s <= from + |text| && (!g.open ==> g.size == 0) && |t| == a.Length
      invariant Decoding(t, a[..], begin, s, g.Now(), done + text[..s - from])
    {
      Write(t, a[..], begin, s, g.Now(), done + text[..s - from], text[s - from]);
      ghost var b := a[..];
      a[s] := text[s - from];
      assert a[..] == b[s := text[s - from]];
      assert done + text[..s - from] + [text[s - from]] == done + text[..s + 1 - from];
      s := s + 1;
    }
    assert text[..|text|] == text;
    next := g.Push(a, s, stre - s, t, begin, done + text);
  }

  // ----- strconv_escape -----

  /** What is still to be read is as it was. */
  lemma Unread(t: seq<char>, b: seq<char>, begin: nat, s: nat, g: View, done: seq<char>)
    requires Decoding(t, b, begin, s, g, done)
    ensures begin <= s <= |t| == |b| && forall i: nat | s <= i < |t| :: b[i] == t[i]
  {
  }

  lemma {:induction false} DigitsAre(t: seq<char>, i: nat, n: nat, hex: bool)
    requires i + n < |t| && forall k: nat | i <= k < i + n :: if hex then IsHex(t[k]) else IsDecimal(t[k])
    requires !(if hex then IsHex(t[i + n]) else IsDecimal(t[i + n]))
    ensures Digits(t, i, hex) == n
    decreases n
  {
    if n > 0 { DigitsAre(t, i + 1, n - 1, hex); }
  }

  /** The digits of a character reference; `text` is what it stands for, or nothing if it is no reference. */
  method ReadNumber(a: array<char>, from: nat, hex: bool, ghost t: seq<char>) returns (stre: nat, valid: bool, ucsc: nat)
    requires |t| == a.Length && from < |t| && Terminated(t) && forall i: nat | from <= i < |t| :: a[i] == t[i]
    ensures from <= stre < |t| && ucsc < UINT
    ensures forall k: nat | from <= k < (if valid then stre - 1 else stre) :: IsHex(t[k])
    ensures var n := Digits(t, from, hex);
            && (valid <==> n > 0 && Is(t, from + n, ';'))
            && (valid ==> stre == from + n + 1 && ucsc == Value(t, from, n, if hex then 16 else 10))
  {
    stre, valid, ucsc := from, false, 0;
    if a[stre] == ';' {
      DigitsAre(t, from, 0, hex);
      return;
    }
    while true
      invariant from <= stre < |t| && !valid && (stre == from ==> t[stre] != ';')
      invariant forall k: nat | from <= k < stre :: IsHex(t[k]) && (if hex then IsHex(t[k]) else IsDecimal(t[k]))
      invariant ucsc == Value(t, from, stre - from, if hex then 16 else 10)
      decreases |t| - stre
    {
      var ch := a[stre];
      if IsDecimal(ch) || (hex && IsHex(ch)) {
        ucsc := ((if hex then 16 else 10) * ucsc + Digit(ch)) % UINT;
      } else {
        DigitsAre(t, from, stre - from, hex);
        if ch == ';' {
          stre := stre + 1;
          valid := true;
        }
        return;
      }
      stre := stre + 1;
    }
  }

  /** Reads on as long as the characters are those of a word. */
  method ReadWord(a: array<char>, from: nat, word: seq<char>, ghost t: seq<char>) returns (stre: nat, all: bool)
    requires |t| == a.Length && from < |t| && Terminated(t) && forall i: nat | from <= i < |t| :: a[i] == t[i]
    requires forall k | 0 <= k < |word| :: RefChar(word[k]) && word[k] != '&'
    ensures from <= stre <= from + |word| && stre < |t| && forall i: nat | from <= i < stre :: t[i] == word[i - from]
    ensures if all then stre == from + |word| else stre < from + |word| && t[stre] != word[stre - from]
  {
    stre := from;
    while stre < from + |word| && a[stre] == word[stre - from]
      invariant from <= stre <= from + |word| && stre < |t| && forall i: nat | from <= i < stre :: t[i] == word[i - from]
    {
      stre := stre + 1;
    }
    all := stre == from + |word|;
  }

  /** The named entities; `text` is empty if there is none, and then `stre` is where that shows. */
  method ReadEntity(a: array<char>, s: nat, ghost t: seq<char>) returns (stre: nat, text: seq<char>)
    requires |t| == a.Length && s < |t| && t[s] == '&' && Terminated(t) && forall i: nat | s <= i < |t| :: a[i] == t[i]
    requires !Is(t, s + 1, '#')
    ensures s < stre < |t| && (forall i: nat | s < i < stre :: RefChar(t[i]) && t[i] != '&')
    ensures if text == [] then MatchRef(t, s).len == 0 else MatchRef(t, s) == Match(stre - s, text)
  {
    stre, text := s + 1, [];
    var all := false;
    if a[stre] == 'a' {
      stre := stre + 1;
      if a[stre] == 'm' {
        stre, all := ReadWord(a, stre + 1, "p;", t);
        if all { text := "&"; }
      } else if a[stre] == 'p' {
        stre, all := ReadWord(a, stre + 1, "os;", t);
        if all { text := "'"; }
      }
    } else if a[stre] == 'g' {
      stre, all := ReadWord(a, stre + 1, "t;", t);
      if all { text := ">"; }
    } else if a[stre] == 'l' {
      stre, all := ReadWord(a, stre + 1, "t;", t);
      if all { text := "<"; }
    } else if a[stre] == 'q' {
      stre, all := ReadWord(a, stre + 1, "uot;", t);
      if all { text := ['"']; }
    }
  }

  /** `strconv_escape`: replaces the reference at `s`, or passes over what cannot be one. */
  method Escape(a: array<char>, g: Gap, s: nat, ghost t: seq<char>, ghost begin: nat, ghost done: seq<char>)
    returns (next: nat, ghost now: seq<char>)
    requires Decoding(t, a[..], begin, s, g.Now(), done) && s < |t| && t[s] == '&' && Terminated(t)
    requires !g.open ==> g.size == 0
    modifies a, g
    ensures Decoding(t, a[..], begin, next, g.Now(), now) && Escaped(t, s, next, done, now)
    ensures !g.open ==> g.size == 0
  {
    hide Decoding, Digits, Value;
    Unread(t, a[..], begin, s, g.Now(), done);
    var stre: nat, text: seq<char> := s + 1, [];
    if a[stre] == '#' {
      var hex := a[stre + 1] == 'x';
      var valid, ucsc;
      stre, valid, ucsc := ReadNumber(a, if hex then s + 3 else s + 2, hex, t);
      if valid { text := Utf8(ucsc); }
    } else {
      stre, text := ReadEntity(a, s, t);
    }
    hide MatchRef, Utf8;
    if text != [] {
      now := done + text;
      next := Replace(a, g, s, stre, text, t, begin, done);
    } else {
      KeepAll(t, a[..], begin, s, g.Now(), done, stre);
      next, now := stre, done + t[s..stre];
    }
  }
}
