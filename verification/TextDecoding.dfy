/**
  `strconv_pcdata` and `strconv_attribute` of xml/pugixml.cpp: text and attribute values are decoded in place,
  with line ends or white space normalised and references replaced as the options say.
*/
module TextDecoding {
  import opened Common
  import opened GapBuffer
  import opened References

  /** What becomes of white space: parse_eol, parse_wconv_attribute and parse_wnorm_attribute. */
  datatype Space = AsIs | Lines | Convert | Collapse

  datatype Mode = Mode(escape: bool, space: Space)

  /** The number of white space characters from place `i` on. */
  function Spaces(t: seq<char>, i: nat): (n: nat)
    ensures i <= |t| ==> i + n <= |t|
    ensures forall k: nat | i <= k < i + n :: k < |t| && IsSpace(t[k])
    ensures i + n < |t| ==> !IsSpace(t[i + n])
    decreases |t| - i
  {
    if i < |t| && IsSpace(t[i]) then 1 + Spaces(t, i + 1) else 0
  }

  /** One step of reading: the length of what is read, and what it becomes. */
  function Item(t: seq<char>, i: nat, mode: Mode): (m: Match)
    requires i < |t|
    ensures 0 < m.len && i + m.len <= |t| && |m.text| <= m.len
  {
    if mode.space == Collapse && IsSpace(t[i]) then Match(Spaces(t, i), " ")
    else if (mode.space == Lines || mode.space == Convert) && t[i] == '\r' then
      Match(if Is(t, i + 1, '\n') then 2 else 1, if mode.space == Lines then "\n" else " ")
    else if mode.space == Convert && IsSpace(t[i]) then Match(1, " ")
    else if mode.escape && MatchRef(t, i).len > 0 then MatchRef(t, i)
    else Match(1, [t[i]])
  }

  predicate Stops(c: char, stop: char) {
    c == stop || c == '\0'
  }

  /** A character that can end a text or a value. */
  predicate Delimiter(stop: char) {
    stop == '<' || stop == '"' || stop == '\''
  }

  /** Where the text or the value ends. */
  function EndOf(t: seq<char>, i: nat, stop: char): (e: nat)
    requires i <= |t|
    ensures i <= e <= |t| && (e < |t| ==> Stops(t[e], stop)) && forall k: nat | i <= k < e :: !Stops(t[k], stop)
    decreases |t| - i
  {
    if i == |t| || Stops(t[i], stop) then i else EndOf(t, i + 1, stop)
  }

  /** What is read from place `i` up to the end of the text or value. */
  function Decode(t: seq<char>, i: nat, mode: Mode, stop: char): (text: seq<char>)
    requires i <= |t|
    decreases |t| - i
  {
    if i == |t| || Stops(t[i], stop) then []
    else Item(t, i, mode).text + Decode(t, i + Item(t, i, mode).len, mode, stop)
  }

  // ----- items and the end of the text -----

  lemma {:induction false} SameEnd(t: seq<char>, i: nat, j: nat, stop: char)
    requires i <= j <= |t| && forall k: nat | i <= k < j :: !Stops(t[k], stop)
    ensures EndOf(t, i, stop) == EndOf(t, j, stop)
    decreases j - i
  {
    if i < j { SameEnd(t, i + 1, j, stop); }
  }

  lemma {:induction false} DigitChars(t: seq<char>, i: nat, hex: bool)
    ensures forall k: nat | i <= k < i + Digits(t, i, hex) :: k < |t| && RefChar(t[k])
    decreases |t| - i
  {
    if Digits(t, i, hex) > 0 { DigitChars(t, i + 1, hex); }
  }

  lemma MatchChars(t: seq<char>, i: nat)
    requires MatchRef(t, i).len > 0
    ensures forall k: nat | i <= k < i + MatchRef(t, i).len :: RefChar(t[k])
  {
    DigitChars(t, i + 2, false);
    DigitChars(t, i + 3, true);
    hide Digits, Value;
  }

  lemma ItemStays(t: seq<char>, i: nat, mode: Mode, stop: char)
    requires i < |t| && Delimiter(stop) && !Stops(t[i], stop)
    ensures var n := Item(t, i, mode).len;
            i + n <= EndOf(t, i, stop) && EndOf(t, i + n, stop) == EndOf(t, i, stop)
  {
    hide Digits, Value, MatchRef;
    var n := Item(t, i, mode).len;
    if mode.escape && MatchRef(t, i).len > 0 { MatchChars(t, i); }
    assert forall k: nat | i <= k < i + n :: !Stops(t[k], stop);
    SameEnd(t, i, i + n, stop);
  }

  /** Characters that no mode treats specially. */
  predicate Plain(c: char) {
    !IsSpace(c) && c != '&'
  }

  lemma {:induction false} DecodePlain(t: seq<char>, i: nat, j: nat, mode: Mode, stop: char)
    requires i <= j <= |t| && forall k: nat | i <= k < j :: !Stops(t[k], stop) && Plain(t[k])
    ensures Decode(t, i, mode, stop) == t[i..j] + Decode(t, j, mode, stop) && EndOf(t, i, stop) == EndOf(t, j, stop)
    decreases j - i
  {
    hide Item, Plain;
    if i < j {
      PlainItem(t, i, mode);
      DecodePlain(t, i + 1, j, mode, stop);
      assert t[i..j] == [t[i]] + t[i + 1..j];
    } else {
      assert t[i..j] == [];
    }
  }

  lemma PlainItem(t: seq<char>, i: nat, mode: Mode)
    requires i < |t| && Plain(t[i])
    ensures Item(t, i, mode) == Match(1, [t[i]])
  {
    NoReference(t, i);
  }

  lemma NoReference(t: seq<char>, i: nat)
    requires i < |t| && t[i] != '&'
    ensures MatchRef(t, i).len == 0
  {
  }

  /** What `strconv_escape` did is what reading on gives. */
  lemma EscapedIsDecoded(t: seq<char>, s: nat, next: nat, done: seq<char>, now: seq<char>, mode: Mode, stop: char)
    requires Escaped(t, s, next, done, now) && mode.escape && Delimiter(stop) && t[s] == '&'
    ensures done + Decode(t, s, mode, stop) == now + Decode(t, next, mode, stop)
    ensures EndOf(t, next, stop) == EndOf(t, s, stop)
  {
    hide Digits, Value, MatchRef, Decode, Item, EndOf, Plain, RefChar;
    ItemStays(t, s, mode, stop);
    DecodeOne(t, s, mode, stop);
    RefItem(t, s, mode);
    var rest := Decode(t, next, mode, stop);
    if MatchRef(t, s).len == 0 {
      RefCharsArePlain(t, s, next, stop);
      DecodePlain(t, s + 1, next, mode, stop);
      assert t[s..next] == [t[s]] + t[s + 1..next];
      assert done + ([t[s]] + (t[s + 1..next] + rest)) == done + t[s..next] + rest;
    } else {
      assert done + (MatchRef(t, s).text + rest) == now + rest;
    }
  }

  lemma RefCharsArePlain(t: seq<char>, s: nat, next: nat, stop: char)
    requires s < next <= |t| && Delimiter(stop) && forall i: nat | s < i < next :: RefChar(t[i]) && t[i] != '&'
    ensures forall i: nat | s + 1 <= i < next :: !Stops(t[i], stop) && Plain(t[i])
  {
  }

  lemma DecodeOne(t: seq<char>, i: nat, mode: Mode, stop: char)
    requires i < |t| && !Stops(t[i], stop)
    ensures var m := Item(t, i, mode); Decode(t, i, mode, stop) == m.text + Decode(t, i + m.len, mode, stop)
  {
  }

  lemma RefItem(t: seq<char>, i: nat, mode: Mode)
    requires i < |t| && t[i] == '&' && mode.escape
    ensures Item(t, i, mode) == if MatchRef(t, i).len > 0 then MatchRef(t, i) else Match(1, [t[i]])
  {
  }

  // ----- the loop -----

  /** The characters at which scanning pauses: the classes ct_parse_pcdata, ct_parse_attr, ct_parse_attr_ws and ct_space. */
  predicate Pauses(c: char, mode: Mode, stop: char) {
    || c == '\0' || c == '&' || c == '\r'
    || (if stop == '<' then c == '<' else c == '"' || c == '\'')
    || ((mode.space == Convert || mode.space == Collapse) && (c == '\n' || c == '\t'))
    || (mode.space == Collapse && c == ' ')
  }

  lemma EndBeforeNul(t: seq<char>, i: nat, stop: char)
    requires Terminated(t) && i < |t|
    ensures EndOf(t, i, stop) < |t|
  {
  }

  /** Where the loop stands: `all` is what the whole text becomes, and `e` is its end. */
  ghost predicate Loop(t: seq<char>, b: seq<char>, begin: nat, s: nat, g: View, done: seq<char>,
                       all: seq<char>, e: nat, mode: Mode, stop: char) {
    && Decoding(t, b, begin, s, g, done) && s <= |t| && (!g.open ==> g.size == 0)
    && done + Decode(t, s, mode, stop) == all && EndOf(t, s, stop) == e && e < |t|
  }

  /** The loop has dealt with one item. */
  lemma LoopStep(t: seq<char>, b: seq<char>, begin: nat, s: nat, g: View, done: seq<char>,
                 b': seq<char>, g': View, all: seq<char>, e: nat, mode: Mode, stop: char)
    requires Loop(t, b, begin, s, g, done, all, e, mode, stop) && s < |t| && !Stops(t[s], stop) && Delimiter(stop)
    requires var m := Item(t, s, mode); Decoding(t, b', begin, s + m.len, g', done + m.text) && (!g'.open ==> g'.size == 0)
    ensures var m := Item(t, s, mode); Loop(t, b', begin, s + m.len, g', done + m.text, all, e, mode, stop)
  {
    hide Decoding, Item, Stops, Delimiter;
    ItemStays(t, s, mode, stop);
    DecodeOne(t, s, mode, stop);
    var m := Item(t, s, mode);
    var rest := Decode(t, s + m.len, mode, stop);
    hide Decode, EndOf;
    assert done + (m.text + rest) == done + m.text + rest;
  }

  lemma LoopEscape(t: seq<char>, b: seq<char>, begin: nat, s: nat, g: View, done: seq<char>,
                   b': seq<char>, g': View, next: nat, now: seq<char>, all: seq<char>, e: nat, mode: Mode, stop: char)
    requires Loop(t, b, begin, s, g, done, all, e, mode, stop) && s < |t| && t[s] == '&' && mode.escape && Delimiter(stop)
    requires Escaped(t, s, next, done, now) && Decoding(t, b', begin, next, g', now) && (!g'.open ==> g'.size == 0)
    ensures Loop(t, b', begin, next, g', now, all, e, mode, stop)
  {
    hide Decoding, Item, Stops, Decode, EndOf;
    EscapedIsDecoded(t, s, next, done, now, mode, stop);
  }

  lemma LoopFacts(t: seq<char>, b: seq<char>, begin: nat, s: nat, g: View, done: seq<char>,
                  all: seq<char>, e: nat, mode: Mode, stop: char)
    requires Loop(t, b, begin, s, g, done, all, e, mode, stop)
    ensures begin <= s <= e < |t| == |b| && Decoding(t, b, begin, s, g, done) && (!g.open ==> g.size == 0)
    ensures (forall i: nat | s <= i < |t| :: b[i] == t[i]) && (s < e ==> !Stops(t[s], stop)) && Stops(t[e], stop)
    ensures s == e ==> done == all
  {
    hide Item;
    Unread(t, b, begin, s, g, done);
    if s == e { assert done + [] == done; }
  }

  lemma LoopBegins(t: seq<char>, b: seq<char>, begin: nat, s: nat, g: View, mode: Mode, stop: char)
    requires Decoding(t, b, begin, s, g, []) && s < |t| && (!g.open ==> g.size == 0) && Terminated(t)
    ensures Loop(t, b, begin, s, g, [], Decode(t, s, mode, stop), EndOf(t, s, stop), mode, stop)
  {
    hide Decoding, Decode;
    EndBeforeNul(t, s, stop);
    assert [] + Decode(t, s, mode, stop) == Decode(t, s, mode, stop);
  }

  /** An item that is one character as it is. */
  lemma LoopKeep(t: seq<char>, b: seq<char>, begin: nat, s: nat, g: View, done: seq<char>,
                 all: seq<char>, e: nat, mode: Mode, stop: char)
    requires Loop(t, b, begin, s, g, done, all, e, mode, stop) && s < e && Delimiter(stop)
    requires s < |t| && Item(t, s, mode) == Match(1, [t[s]])
    ensures Loop(t, b, begin, s + 1, g, done + [t[s]], all, e, mode, stop)
  {
    hide Item, Loop, Decoding;
    LoopFacts(t, b, begin, s, g, done, all, e, mode, stop);
    Keep(t, b, begin, s, g, done);
    LoopStep(t, b, begin, s, g, done, b, g, all, e, mode, stop);
  }

  lemma LiteralItem(t: seq<char>, s: nat, mode: Mode, stop: char)
    requires s < |t| && (t[s] == '&' ==> !mode.escape)
    requires !Pauses(t[s], mode, stop) || (t[s] != '\r' && !IsSpace(t[s])) || mode.space == AsIs || (mode.space == Lines && t[s] != '\r')
    ensures Item(t, s, mode) == Match(1, [t[s]])
  {
  }

  method DecodeRun(a: array<char>, g: Gap, from: nat, mode: Mode, stop: char, ghost t: seq<char>, ghost begin: nat)
    returns (s: nat, ghost done: seq<char>)
    requires Decoding(t, a[..], begin, from, g.Now(), []) && (!g.open ==> g.size == 0)
    requires from < |t| && Terminated(t) && Delimiter(stop)
    modifies a, g
    ensures s == EndOf(t, from, stop) < |t| && done == Decode(t, from, mode, stop)
    ensures Decoding(t, a[..], begin, s, g.Now(), done)
  {
    hide Decoding, Decode, Item, EndOf, Loop, Escaped;
    s, done := from, [];
    ghost var all, e := Decode(t, from, mode, stop), EndOf(t, from, stop);
    LoopBegins(t, a[..], begin, s, g.Now(), mode, stop);
    while true
      invariant Loop(t, a[..], begin, s, g.Now(), done, all, e, mode, stop)
      decreases |t| - s
    {
      LoopFacts(t, a[..], begin, s, g.Now(), done, all, e, mode, stop);
      if a[s] == stop || a[s] == '\0' {
        StopsHere(t, s, e, stop);
        return;
      }
      StopsLater(t, s, e, stop);
      if !Pauses(a[s], mode, stop) {
        LiteralItem(t, s, mode, stop);
        LoopKeep(t, a[..], begin, s, g.Now(), done, all, e, mode, stop);
        done, s := done + [t[s]], s + 1;
      } else if mode.space != AsIs && IsSpace(a[s]) && (mode.space == Lines ==> a[s] == '\r') {
        s, done := WhiteSpace(a, g, s, mode, stop, t, begin, done, all, e);
      } else if mode.escape && a[s] == '&' {
        ghost var b, v := a[..], g.Now();
        ghost var now;
        ghost var s0 := s;
        s, now := Escape(a, g, s, t, begin, done);
        LoopEscape(t, b, begin, s0, v, done, a[..], g.Now(), s, now, all, e, mode, stop);
        EscapedAhead(t, s0, s, done, now);
        done := now;
      } else {
        LiteralItem(t, s, mode, stop);
        LoopKeep(t, a[..], begin, s, g.Now(), done, all, e, mode, stop);
        done, s := done + [t[s]], s + 1;
      }
    }
  }

  lemma EscapedAhead(t: seq<char>, s: nat, next: nat, done: seq<char>, now: seq<char>)
    requires Escaped(t, s, next, done, now)
    ensures s < next < |t|
  {
  }

  lemma StopsHere(t: seq<char>, s: nat, e: nat, stop: char)
    requires s <= e < |t| && Stops(t[s], stop) && (s < e ==> !Stops(t[s], stop))
    ensures s == e
  {
  }

  lemma StopsLater(t: seq<char>, s: nat, e: nat, stop: char)
    requires s <= e < |t| && !Stops(t[s], stop) && Stops(t[e], stop)
    ensures s < e
  {
  }

  lemma SpacesFrom(t: seq<char>, i: nat)
    requires i < |t|
    ensures Spaces(t, i) == if IsSpace(t[i]) then 1 + Spaces(t, i + 1) else 0
  {
  }

  lemma {:induction false} SpacesStay(t: seq<char>, i: nat, e: nat, stop: char)
    requires i <= e < |t| && Stops(t[e], stop) && Delimiter(stop)
    ensures i + Spaces(t, i) <= e
    decreases e - i
  {
    if i < e && IsSpace(t[i]) { SpacesStay(t, i + 1, e, stop); }
  }

  /** The branches for white space. */
  method WhiteSpace(a: array<char>, g: Gap, from: nat, mode: Mode, stop: char, ghost t: seq<char>, ghost begin: nat,
                    ghost done: seq<char>, ghost all: seq<char>, ghost e: nat) returns (s: nat, ghost now: seq<char>)
    requires Loop(t, a[..], begin, from, g.Now(), done, all, e, mode, stop) && from < e && Delimiter(stop)
    requires mode.space != AsIs && from < |t| && IsSpace(t[from]) && (mode.space == Lines ==> t[from] == '\r')
    modifies a, g
    ensures from < s <= |t| && Loop(t, a[..], begin, s, g.Now(), now, all, e, mode, stop)
  {
    hide Decoding, Decode, EndOf, Loop, MatchRef, Spaces;
    ghost var b, v := a[..], g.Now();
    LoopFacts(t, b, begin, from, v, done, all, e, mode, stop);
    ghost var c := if mode.space == Lines then '\n' else ' ';
    Write(t, b, begin, from, v, done, c);
    now := done + [c];
    var cr := a[from] == '\r';
    a[from] := if mode.space == Lines then '\n' else ' ';
    assert a[..] == b[from := c];
    s := from + 1;
    Unread(t, a[..], begin, s, g.Now(), now);
    if mode.space == Collapse {
      SpacesFrom(t, from);
      SpacesFrom(t, s);
      SpacesStay(t, from, e, stop);
      if IsSpace(a[s]) {
        var str := s + 1;
        while IsSpace(a[str])
          invariant s < str < |t| && str + Spaces(t, str) == from + Spaces(t, from) <= e
          invariant a[..] == b[from := c] && g.Now() == v
          decreases |t| - str
        {
          SpacesFrom(t, str);
          str := str + 1;
        }
        SpacesFrom(t, str);
        s := g.Push(a, s, str - s, t, begin, now);
      }
    } else if cr && a[s] == '\n' {
      s := g.Push(a, s, 1, t, begin, now);
    }
    LoopStep(t, b, begin, from, v, done, a[..], g.Now(), all, e, mode, stop);
  }

  // ----- texts and attribute values -----

  /** Without the white space at the end. */
  function TrimRight(x: seq<char>): (r: seq<char>)
    ensures |r| <= |x| && r == x[..|r|] && (r != [] ==> !IsSpace(r[|r| - 1]))
    ensures forall i | |r| <= i < |x| :: IsSpace(x[i])
  {
    if x != [] && IsSpace(x[|x| - 1]) then TrimRight(x[..|x| - 1]) else x
  }

  lemma {:induction false} TrimmedAt(x: seq<char>, n: nat)
    requires n <= |x| && (forall i | n <= i < |x| :: IsSpace(x[i])) && (n > 0 ==> !IsSpace(x[n - 1]))
    ensures TrimRight(x) == x[..n]
  {
    if n < |x| { TrimmedAt(x[..|x| - 1], n); }
  }

  /** The C string at place `begin` of a buffer is `text`, possibly cut short by NULs in it. */
  ghost predicate Holds(b: seq<char>, begin: nat, text: seq<char>) {
    begin + |text| < |b| && b[begin..begin + |text|] == text && b[begin + |text|] == '\0'
  }

  /** What lies before the text and behind its end is untouched. */
  ghost predicate Only(t: seq<char>, b: seq<char>, begin: nat, e: nat) {
    |b| == |t| && (forall i: nat | i < begin && i < |t| :: b[i] == t[i]) && forall i: nat | e < i < |t| :: b[i] == t[i]
  }

  /** `strconv_pcdata_impl::parse`: a text up to `<`, or up to the end of the document. */
  method ParsePcdata(a: array<char>, from: nat, trim: bool, eol: bool, escape: bool) returns (next: nat)
    requires from < a.Length && Terminated(a[..])
    modifies a
    ensures var t, mode := old(a[..]), Mode(escape, if eol then Lines else AsIs);
            && var text, e := Decode(t, from, mode, '<'), EndOf(t, from, '<');
               && Holds(a[..], from, if trim then TrimRight(text) else text) && Only(t, a[..], from, e) && e < |t|
               && (t[e] == '\0' ==> a[e] == '\0') && next == if t[e] == '<' then e + 1 else e
  {
    hide Decoding, Decode, EndOf, TrimRight, IsSpace;
    ghost var t := a[..];
    var g := new Gap();
    assert Decoding(t, a[..], from, from, g.Now(), []) by { NothingDone(t, from); }
    var s, done := DecodeRun(a, g, from, Mode(escape, if eol then Lines else AsIs), '<', t, from);
    Unread(t, a[..], from, s, g.Now(), done);
    next := if a[s] == '<' then s + 1 else s;
    var end := g.Flush(a, s, t, from, done);
    ghost var b := a[..];
    if trim { end := TrimEnd(a, end, from, done); }
    a[end] := '\0';
    SameSlice(b, a[..], from, end, |done|);
  }

  /** The loop that moves the end of a text over white space. */
  method TrimEnd(a: array<char>, e: nat, from: nat, ghost done: seq<char>) returns (end: nat)
    requires e == from + |done| < a.Length && a[..][from..e] == done
    ensures from <= end <= e && done[..end - from] == TrimRight(done)
  {
    hide TrimRight;
    end := e;
    while end > from && IsSpace(a[end - 1])
      invariant from <= end <= e && forall i: nat | end - from <= i < |done| :: IsSpace(done[i])
    {
      assert a[end - 1] == done[end - 1 - from];
      end := end - 1;
    }
    if end > from { assert a[end - 1] == done[end - 1 - from]; }
    TrimmedAt(done, end - from);
  }

  lemma SameSlice(b: seq<char>, b': seq<char>, from: nat, end: nat, n: nat)
    requires |b'| == |b| && from <= end <= from + n <= |b| && forall i: nat | from <= i < end :: b'[i] == b[i]
    ensures b'[from..end] == b[from..from + n][..end - from]
  {
  }

  lemma NothingDone(t: seq<char>, from: nat)
    requires from <= |t|
    ensures Decoding(t, t, from, from, View(false, 0, 0), [])
  {
    assert t[from..from] == [];
  }

  /** What an attribute value becomes. */
  function AttributeValue(t: seq<char>, from: nat, mode: Mode, quote: char): seq<char>
    requires from <= |t|
  {
    if mode.space == Collapse then TrimRight(Decode(t, from + Spaces(t, from), mode, quote)) else Decode(t, from, mode, quote)
  }

  /**
    `strconv_attribute_impl`: a value up to its quote; there is none if the document ends before.  The value
    begins behind its opening quote.
   */
  method ParseAttribute(a: array<char>, from: nat, mode: Mode, quote: char) returns (closed: bool, next: nat)
    requires 0 < from < a.Length && Terminated(a[..]) && (quote == '"' || quote == '\'') && a[from - 1] == quote
    modifies a
    ensures var t := old(a[..]);
            && var e := EndOf(t, from, quote);
               && e < |t| && (closed <==> t[e] == quote)
               && (closed ==> next == e + 1 && Holds(a[..], from, AttributeValue(t, from, mode, quote)) && Only(t, a[..], from, e))
  {
    hide Decoding, Decode, EndOf, TrimRight, Spaces, Holds, IsSpace, Stops;
    ghost var t := a[..];
    var g := new Gap();
    assert Decoding(t, a[..], from, from, g.Now(), []) by { NothingDone(t, from); }
    QuoteIsNoSpace(quote);
    var s: nat := from;
    if mode.space == Collapse {
      s := SkipSpaces(a, g, from, quote, t);
    }
    ghost var done;
    s, done := DecodeRun(a, g, s, mode, quote, t, from);
    Unread(t, a[..], from, s, g.Now(), done);
    closed, next := a[s] == quote, s + 1;
    if closed {
      var str := g.Flush(a, s, t, from, done);
      CloseValue(a, str, from, mode, done);
    }
  }

  lemma QuoteIsNoSpace(quote: char)
    requires quote == '"' || quote == '\''
    ensures !IsSpace(quote) && Delimiter(quote)
  {
  }

  /** The white space at the beginning becomes the first gap. */
  method SkipSpaces(a: array<char>, g: Gap, from: nat, quote: char, ghost t: seq<char>) returns (s: nat)
    requires Decoding(t, a[..], from, from, g.Now(), []) && !g.open && g.size == 0 && from < |t| && Terminated(t)
    requires quote == '"' || quote == '\''
    modifies a, g
    ensures s == from + Spaces(t, from) < |t| && EndOf(t, s, quote) == EndOf(t, from, quote)
    ensures Decoding(t, a[..], from, s, g.Now(), []) && (!g.open ==> g.size == 0)
  {
    hide Decoding, Decode, Spaces;
    Unread(t, a[..], from, from, g.Now(), []);
    EndBeforeNul(t, from, quote);
    ghost var e := EndOf(t, from, quote);
    SpacesStay(t, from, e, quote);
    SpacesFrom(t, from);
    s := from;
    if IsSpace(a[s]) {
      var str := s + 1;
      SpacesFrom(t, str);
      while IsSpace(a[str])
        invariant s < str < |t| && str + Spaces(t, str) == from + Spaces(t, from) <= e
        invariant a[..] == old(a[..]) && g.Now() == old(g.Now())
        invariant Spaces(t, str) > 0 <==> IsSpace(t[str])
        decreases |t| - str
      {
        SpacesFrom(t, str);
        str := str + 1;
        SpacesFrom(t, str);
      }
      s := g.Push(a, s, str - s, t, from, []);
    }
    SameEnd(t, from, s, quote);
  }

  /** Ends the value with NUL, and puts NUL over the white space at its end if that is to go. */
  method CloseValue(a: array<char>, end: nat, from: nat, mode: Mode, ghost done: seq<char>)
    requires 0 < from <= end == from + |done| < a.Length && a[..][from..end] == done && !IsSpace(a[from - 1])
    modifies a
    ensures Holds(a[..], from, if mode.space == Collapse then TrimRight(done) else done)
    ensures forall i: nat | i < from || end < i < a.Length :: a[i] == old(a[i])
  {
    hide TrimRight;
    ghost var b := a[..];
    if mode.space == Collapse {
      var str := end;
      a[str] := '\0';
      str := str - 1;
      while IsSpace(a[str])
        invariant from - 1 <= str < end && a[str + 1] == '\0'
        invariant forall i: nat | i <= str || end < i < a.Length :: a[i] == b[i]
        invariant forall i: nat | str + 1 - from <= i < |done| :: IsSpace(done[i])
        decreases str
      {
        assert str >= from;
        assert a[str] == b[from..end][str - from];
        a[str] := '\0';
        str := str - 1;
      }
      assert str >= from ==> a[str] == b[from..end][str - from];
      TrimmedAt(done, str + 1 - from);
      assert a[..][from..str + 1] == b[from..end][..str + 1 - from];
    } else {
      a[end] := '\0';
      assert a[..][from..end] == b[from..end];
    }
  }
}
