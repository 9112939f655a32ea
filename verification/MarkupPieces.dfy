/**
  Where the parts of tags and texts stand in a document that is being read, and what has been read with each of them.
 */
module MarkupPieces {
  import opened Common
  import opened References
  import opened TextDecoding
  import opened Markup
  import opened MarkupSpelling
  import opened MarkupReading

  // ----- names and white space -----

  /** A name that stands here, with something else behind it, is what is scanned. */
  lemma NameHere(s: seq<char>, i: nat, j: nat, name: seq<char>)
    requires Stands(s, i, name) && ValidName(name) && i + |name| < |s| && !IsSymbol(s[i + |name|])
    requires i <= j < |s| && (forall k: nat | i <= k < j :: IsSymbol(s[k])) && !IsSymbol(s[j])
    ensures IsStart(s[i]) && j == i + |name| && s[i..j] == name
  {
    StandsAt(s, i, name, 0);
    forall k: nat | i <= k < i + |name| ensures IsSymbol(s[k]) {
      StandsAt(s, i, name, k - i);
      assert name[k - i] in name;
    }
  }

  // ----- white space -----

  lemma BlankThen(s: seq<char>, endch: char, i: nat, x: seq<char>, y: seq<char>)
    requires Left(s, endch, i, x + y) && IsBlank(x) && y != [] && !IsSpace(y[0])
    ensures i + |x| < |s| && Spaces(s, i) == |x| && Left(s, endch, i + |x|, y) && !IsSpace(s[i + |x|])
    ensures x != [] ==> i + 1 < |s| && IsSpace(s[i]) && Spaces(s, i + 1) == |x| - 1
  {
    hide Left, Stands;
    LeftParts(s, endch, i, x, y);
    LeftAt(s, endch, i + |x|, y, 0);
    forall k: nat | i <= k < i + |x| ensures IsSpace(s[k]) {
      StandsAt(s, i, x, k - i);
      assert x[k - i] in x;
    }
    SpacesAre(s, i, |x|);
    if x != [] { SpacesAre(s, i + 1, |x| - 1); }
  }

  lemma SpacesAre(s: seq<char>, i: nat, n: nat)
    requires i + n < |s| && (forall k: nat | i <= k < i + n :: IsSpace(s[k])) && !IsSpace(s[i + n])
    ensures Spaces(s, i) == n
  {
    assert Spaces(s, i) >= n;
  }

  lemma NotSymbols()
    ensures !IsSymbol('=') && !IsSymbol('>') && !IsSymbol('/') && !IsSymbol('\0') && !IsStart('>') && !IsStart('/') && !IsStart('\0')
    ensures forall c | IsSpace(c) :: !IsSymbol(c) && !IsStart(c) && c != '\0'
  {
  }

  lemma StartIsSymbol(c: char)
    ensures IsStart(c) ==> IsSymbol(c) && !IsSpace(c) && c != '\0'
  {
  }

  // ----- attributes -----

  /** What is left of a start tag behind the white space: the next attribute, or the end. */
  function AfterBlank(l: seq<SpelledAttribute>, gap: seq<char>, end: seq<char>): seq<char> {
    if l == [] then end else WriteBody(l[0]) + (WriteAttributes(l[1..]) + (gap + end))
  }

  /** The end of a start tag and what is behind it; behind a mere `>` there is at least an end tag. */
  predicate Ending(end: seq<char>) {
    |end| > 1 && (end[0] == '>' || end[0] == '/')
  }

  /** Behind the name of an element or the value of an attribute. */
  lemma AttributeGap(s: seq<char>, endch: char, i: nat, l: seq<SpelledAttribute>, gap: seq<char>, end: seq<char>)
    requires Left(s, endch, i, WriteAttributes(l) + (gap + end)) && GoodAttributes(l) && IsBlank(gap) && Ending(end)
    ensures i < |s| && !IsSymbol(s[i]) && !IsStart(s[i]) && s[i] != '\0'
    ensures Left(s, endch, i + Spaces(s, i), AfterBlank(l, gap, end))
    ensures IsSpace(s[i]) ==> i + 1 < |s| && Left(s, endch, i + 1 + Spaces(s, i + 1), AfterBlank(l, gap, end))
    ensures !IsSpace(s[i]) ==> l == [] && Left(s, endch, i, end) && s[i] == end[0]
  {
    hide Left, WriteBody, GoodAttribute, IsStart, IsSymbol, IsSpace;
    NotSymbols();
    if l == [] {
      assert WriteAttributes(l) + (gap + end) == gap + end;
      EndNoSpace(end);
      BlankThen(s, endch, i, gap, end);
      if gap == [] {
        assert gap + end == end;
        LeftAt(s, endch, i, end, 0);
      }
    } else {
      assert l[0] in l;
      AttributeStarts(l[0]);
      var x, y := l[0].space, AfterBlank(l, gap, end);
      assert WriteAttributes(l) + (gap + end) == x + y;
      BlankThen(s, endch, i, x, y);
    }
  }

  lemma EndNoSpace(end: seq<char>)
    requires Ending(end)
    ensures !IsSpace(end[0]) && !IsSymbol(end[0]) && !IsStart(end[0])
  {
  }

  lemma AttributeStarts(a: SpelledAttribute)
    requires GoodAttribute(a)
    ensures a.space != [] && IsBlank(a.space) && WriteBody(a) != [] && IsStart(WriteBody(a)[0]) && !IsSpace(WriteBody(a)[0])
  {
  }

  /** The first character behind an attribute. */
  lemma GapStarts(l: seq<SpelledAttribute>, gap: seq<char>, end: seq<char>)
    requires GoodAttributes(l) && IsBlank(gap) && Ending(end)
    ensures var y := WriteAttributes(l) + (gap + end); y != [] && !IsStart(y[0])
  {
    hide WriteBody, GoodAttribute, IsStart, IsSymbol, IsSpace;
    NotSymbols();
    EndNoSpace(end);
    if l != [] {
      assert l[0] in l;
      AttributeStarts(l[0]);
      assert l[0].space[0] in l[0].space;
    } else if gap != [] {
      assert gap[0] in gap;
    }
  }

  /** Where the equals sign should be, if the name ends at place `p`. */
  ghost function EqualsAt(s: seq<char>, p: nat): (q: nat)
    requires p < |s|
  {
    if IsSpace(s[p]) then p + 1 + Spaces(s, p + 1) else p
  }

  /** The attribute that stands here: name, equals sign, quote and quote are at `i`, `q`, `r` and `e`. */
  ghost function AttributeAt(s: seq<char>, i: nat, p: nat, q: nat, r: nat, e: nat, space: seq<char>): SpelledAttribute
    requires i <= p <= q < r < e < |s|
  {
    SpelledAttribute(space, s[i..p], s[p..q], s[q + 1..r], s[r], s[r + 1..e])
  }

  /** An attribute and where its parts stand. */
  lemma AttributeHere(s: seq<char>, endch: char, i: nat, a: SpelledAttribute, y: seq<char>)
    requires Left(s, endch, i, WriteBody(a) + y) && y != [] && GoodAttribute(a)
    ensures var p := i + |a.name|; var q := p + |a.before|; var r := q + 1 + |a.after|; var e := r + 1 + |a.raw|;
            && ValidName(a.name) && Stands(s, i, a.name) && e + 1 < |s| && !IsSymbol(s[p]) && s[p] != '\0'
            && q == EqualsAt(s, p) && s[q] == '=' && r == q + 1 + Spaces(s, q + 1)
            && (s[r] == '"' || s[r] == '\'') && EndOf(s, r + 1, s[r]) == e && s[e] == s[r]
            && AttributeAt(s, i, p, q, r, e, a.space) == a && Left(s, endch, e + 1, y)
  {
    hide Left, Stands, GoodAttribute, IsSymbol, IsSpace, WriteBody, WriteValue, Spaces, EndOf, AttributeAt, ValidName, EqualsAt;
    PartsIn(a);
    NameAndEquals(s, endch, i, a, y);
    ValueHere(s, endch, i + |a.name| + |a.before| + 1, a, y);
    SameParts(s, i, a);
  }

  lemma NameAndEquals(s: seq<char>, endch: char, i: nat, a: SpelledAttribute, y: seq<char>)
    requires Left(s, endch, i, WriteBody(a) + y) && IsBlank(a.before)
    ensures var p := i + |a.name|; var q := p + |a.before|;
            && Stands(s, i, a.name) && Stands(s, p, a.before) && q < |s| && !IsSymbol(s[p]) && s[p] != '\0' && q == EqualsAt(s, p)
            && s[q] == '=' && Left(s, endch, q + 1, a.after + (WriteValue(a) + y))
  {
    hide Left, Stands, IsSymbol, IsSpace, IsBlank, WriteBody, WriteValue, Spaces;
    var z := a.after + (WriteValue(a) + y);
    BodyText(a, y);
    assert |z| > 0;
    LeftParts(s, endch, i, a.name, a.before + (['='] + z));
    EqualsNoSpace();
    var p := i + |a.name|;
    BlankThen(s, endch, p, a.before, ['='] + z);
    LeftParts(s, endch, p, a.before, ['='] + z);
    LeftOne(s, endch, p + |a.before|, '=', z);
    NotSymbols();
  }

  lemma SameParts(s: seq<char>, i: nat, a: SpelledAttribute)
    requires var p := i + |a.name|; var q := p + |a.before|; var r := q + 1 + |a.after|; var e := r + 1 + |a.raw|;
             e < |s| && Stands(s, i, a.name) && Stands(s, p, a.before) && Stands(s, q + 1, a.after) && Stands(s, r + 1, a.raw) && s[r] == a.quote
    ensures var p := i + |a.name|; var q := p + |a.before|; var r := q + 1 + |a.after|; var e := r + 1 + |a.raw|;
            AttributeAt(s, i, p, q, r, e, a.space) == a
  {
  }

  lemma BodyText(a: SpelledAttribute, y: seq<char>)
    ensures WriteBody(a) + y == a.name + (a.before + (['='] + (a.after + (WriteValue(a) + y)))) && WriteValue(a) + y != []
  {
    var v := WriteValue(a);
    assert |v| > 0;
    hide WriteValue;
    assert (a.name + (a.before + ("=" + (a.after + v)))) + y == a.name + (a.before + (['='] + (a.after + (v + y))));
  }

  lemma PartsIn(a: SpelledAttribute)
    requires GoodAttribute(a)
    ensures IsBlank(a.before) && IsBlank(a.after) && (a.quote == '"' || a.quote == '\'') && ValidName(a.name)
    ensures forall c | c in a.raw :: !Stops(c, a.quote)
  {
  }

  lemma EqualsNoSpace()
    ensures !IsSpace('=') && !IsSpace('"') && !IsSpace('\'') && !IsSpace('<') && !IsSpace('>') && !IsSpace('/')
  {
  }

  lemma ValueHere(s: seq<char>, endch: char, i: nat, a: SpelledAttribute, y: seq<char>)
    requires Left(s, endch, i, a.after + (WriteValue(a) + y)) && y != [] && GoodAttribute(a)
    ensures var r := i + |a.after|; var e := r + 1 + |a.raw|;
            && e + 1 < |s| && Stands(s, i, a.after) && r == i + Spaces(s, i) && s[r] == s[e] == a.quote && Stands(s, r + 1, a.raw)
            && EndOf(s, r + 1, a.quote) == e && Left(s, endch, e + 1, y)
  {
    hide Left, Stands, GoodAttribute, IsSpace, IsBlank, Spaces, EndOf, ValueOf, Decode, Stops;
    EqualsNoSpace();
    PartsIn(a);
    var z := a.raw + ([a.quote] + y);
    assert WriteValue(a) + y == [a.quote] + z;
    BlankThen(s, endch, i, a.after, [a.quote] + z);
    LeftParts(s, endch, i, a.after, [a.quote] + z);
    ValueBehind(s, endch, i + |a.after|, a.quote, a.raw, y);
  }

  lemma ValueBehind(s: seq<char>, endch: char, r: nat, quote: char, raw: seq<char>, y: seq<char>)
    requires Left(s, endch, r, [quote] + (raw + ([quote] + y))) && y != [] && (quote == '"' || quote == '\'')
    requires forall c | c in raw :: !Stops(c, quote)
    ensures var e := r + 1 + |raw|;
            && e + 1 < |s| && s[r] == s[e] == quote && Stands(s, r + 1, raw) && EndOf(s, r + 1, quote) == e && Left(s, endch, e + 1, y)
  {
    hide Left, Stands, EndOf, ValueOf, Decode, Stops;
    var e := r + 1 + |raw|;
    LeftOne(s, endch, r, quote, raw + ([quote] + y));
    LeftParts(s, endch, r + 1, raw, [quote] + y);
    LeftOne(s, endch, e, quote, y);
    LeftAt(s, endch, e + 1, y, 0);
    ValueStands(s, r + 1, raw, Convert, quote);
  }

  /** The name ends at place `p`, and the quote is at place `r`. */
  ghost predicate QuoteAt(s: seq<char>, from: nat, p: nat, r: nat) {
    && from < p < r && r + 1 < |s| && (forall k: nat | from <= k < p :: IsSymbol(s[k])) && !IsSymbol(s[p]) && s[p] != '\0'
    && var q := EqualsAt(s, p); p <= q < r && s[q] == '=' && r == q + 1 + Spaces(s, q + 1) && (s[r] == '"' || s[r] == '\'')
  }

  lemma {:induction false} DecodeShort(t: seq<char>, i: nat, mode: Mode, stop: char)
    requires i <= |t| && Delimiter(stop)
    ensures |Decode(t, i, mode, stop)| <= EndOf(t, i, stop) - i
    decreases |t| - i
  {
    hide Item;
    if i < |t| && !Stops(t[i], stop) {
      ItemStays(t, i, mode, stop);
      DecodeOne(t, i, mode, stop);
      DecodeShort(t, i + Item(t, i, mode).len, mode, stop);
    }
  }

  /** The attribute stands from place `i` up to place `j`. */
  ghost predicate AttributeStands(s: seq<char>, i: nat, j: nat, a: SpelledAttribute, space: seq<char>) {
    GoodAttribute(a) && a.space == space && i < j <= |s| && s[i..j] == WriteBody(a) && forall k: nat | i <= k < j :: s[k] != '\0'
  }

  lemma QuotePlaces(s: seq<char>, from: nat, p: nat, r: nat)
    requires QuoteAt(s, from, p, r)
    ensures from < p <= EqualsAt(s, p) < r && r + 1 < |s| && Delimiter(s[r]) && (s[r] == '"' || s[r] == '\'')
  {
  }

  /** A spelled attribute has its quote where it is looked for. */
  lemma QuoteHere(s: seq<char>, endch: char, from: nat, p: nat, a: SpelledAttribute, y: seq<char>)
    requires Left(s, endch, from, WriteBody(a) + y) && y != [] && GoodAttribute(a)
    requires from <= p < |s| && (forall k: nat | from <= k < p :: IsSymbol(s[k])) && !IsSymbol(s[p])
    ensures p == from + |a.name| && QuoteAt(s, from, p, p + |a.before| + 1 + |a.after|)
  {
    hide Left, Stands, WriteBody, GoodAttribute, IsSymbol, IsStart, ValidName, Spaces, EndOf, AttributeAt;
    AttributeHere(s, endch, from, a, y);
    NameHere(s, from, p, a.name);
    NameIsWord(a.name);
  }

  /** It is the one that is read. */
  lemma KnownHere(s: seq<char>, endch: char, from: nat, p: nat, r: nat, a: SpelledAttribute, y: seq<char>, space: seq<char>)
    requires Left(s, endch, from, WriteBody(a) + y) && y != [] && GoodAttribute(a) && p == from + |a.name| && QuoteAt(s, from, p, r)
    ensures r + 1 <= |s|
    ensures var e := EndOf(s, r + 1, s[r]); from <= p <= EqualsAt(s, p) < r < e < |s| && s[e] == s[r] && Left(s, endch, e + 1, y)
    ensures AttributeOf(AttributeAt(s, from, p, EqualsAt(s, p), r, EndOf(s, r + 1, s[r]), space)) == AttributeOf(a)
  {
    hide Left, Stands, WriteBody, GoodAttribute, IsSymbol, IsStart, ValidName, Spaces, EndOf, ValueOf, EqualsAt;
    AttributeHere(s, endch, from, a, y);
    var p', q := from + |a.name|, from + |a.name| + |a.before|;
    SameQuote(s, from, p, r, q + 1 + |a.after|);
  }

  lemma SameQuote(s: seq<char>, from: nat, p: nat, r: nat, r': nat)
    requires QuoteAt(s, from, p, r) && r' == EqualsAt(s, p) + 1 + Spaces(s, EqualsAt(s, p) + 1)
    ensures r == r'
  {
  }

  /** What was read is an attribute. */
  lemma AttributeIs(s: seq<char>, from: nat, p: nat, r: nat, space: seq<char>)
    requires QuoteAt(s, from, p, r) && IsStart(s[from]) && IsBlank(space) && space != []
    requires EndOf(s, r + 1, s[r]) < |s| && s[EndOf(s, r + 1, s[r])] == s[r]
    ensures var e := EndOf(s, r + 1, s[r]);
            && from <= p <= EqualsAt(s, p) < r < e
            && var a := AttributeAt(s, from, p, EqualsAt(s, p), r, e, space);
               && AttributeStands(s, from, e + 1, a, space) && AttributeOf(a) == Attribute(s[from..p], Decode(s, r + 1, Mode(true, Convert), s[r]))
  {
    hide IsSymbol, IsStart, IsSpace, Spaces, EndOf, ValueOf, Decode, IsBlank, ValidName, WriteBody, Stops;
    var q, e := EqualsAt(s, p), EndOf(s, r + 1, s[r]);
    var a := AttributeAt(s, from, p, q, r, e, space);
    EqualsBehind(s, p);
    BlankSlice(s, p, q);
    BlankSlice(s, q + 1, r);
    NameSlice(s, from, p);
    BodySlice(s, from, p, q, r, e, space);
    NoNul(s, from, p, q, r, e);
    ValueSlice(s, r, e);
  }

  lemma EqualsBehind(s: seq<char>, p: nat)
    requires p < |s|
    ensures p <= EqualsAt(s, p) && forall k: nat | p <= k < EqualsAt(s, p) :: k < |s| && IsSpace(s[k])
  {
    hide IsSpace;
  }

  lemma BlankSlice(s: seq<char>, i: nat, j: nat)
    requires i <= j <= |s| && forall k: nat | i <= k < j :: IsSpace(s[k])
    ensures IsBlank(s[i..j])
  {
    hide IsSpace;
    forall c | c in s[i..j] ensures IsSpace(c) {
      var k: nat :| k < j - i && s[i..j][k] == c;
      assert s[i + k] == c;
    }
  }

  lemma NameSlice(s: seq<char>, i: nat, j: nat)
    requires i < j <= |s| && IsStart(s[i]) && forall k: nat | i <= k < j :: IsSymbol(s[k])
    ensures ValidName(s[i..j])
  {
    hide IsSymbol, IsStart;
    forall c | c in s[i..j] ensures IsSymbol(c) {
      var k: nat :| k < j - i && s[i..j][k] == c;
      assert s[i + k] == c;
    }
  }

  lemma BodySlice(s: seq<char>, i: nat, p: nat, q: nat, r: nat, e: nat, space: seq<char>)
    requires i <= p <= q < r < e < |s| && s[q] == '=' && s[e] == s[r]
    ensures WriteBody(AttributeAt(s, i, p, q, r, e, space)) == s[i..e + 1]
  {
    assert s[r..e + 1] == [s[r]] + (s[r + 1..e] + [s[r]]);
    assert s[q + 1..e + 1] == s[q + 1..r] + s[r..e + 1];
    assert s[q..e + 1] == "=" + s[q + 1..e + 1];
    assert s[p..e + 1] == s[p..q] + s[q..e + 1];
    assert s[i..e + 1] == s[i..p] + s[p..e + 1];
  }

  lemma NoNul(s: seq<char>, i: nat, p: nat, q: nat, r: nat, e: nat)
    requires i <= p <= q < r < e < |s| && s[q] == '=' && s[e] == s[r] && (s[r] == '"' || s[r] == '\'')
    requires forall k: nat | i <= k < p :: IsSymbol(s[k])
    requires forall k: nat | p <= k < q || q < k < r :: IsSpace(s[k])
    requires forall k: nat | r < k < e :: !Stops(s[k], s[r])
    ensures forall k: nat | i <= k < e + 1 :: s[k] != '\0'
  {
    hide IsSymbol, IsSpace;
    NotSymbols();
  }

  lemma ValueSlice(s: seq<char>, r: nat, e: nat)
    requires r + 1 <= e < |s| && EndOf(s, r + 1, s[r]) == e && s[e] == s[r] && (s[r] == '"' || s[r] == '\'')
    ensures Decode(s, r + 1, Mode(true, Convert), s[r]) == ValueOf(s[r + 1..e], Convert, s[r])
    ensures forall c | c in s[r + 1..e] :: !Stops(c, s[r])
  {
    hide ValueOf, Decode;
    forall c | c in s[r + 1..e] ensures !Stops(c, s[r]) {
      var k: nat :| k < e - r - 1 && s[r + 1..e][k] == c;
      assert s[r + 1 + k] == c;
    }
    ValueStands(s, r + 1, s[r + 1..e], Convert, s[r]);
  }

  lemma BehindValue(s: seq<char>, endch: char, i: nat, y: seq<char>)
    requires Left(s, endch, i, y) && y != [] && !IsStart(y[0])
    ensures i < |s| && !IsStart(s[i])
  {
    hide IsStart;
    NotSymbols();
    LeftAt(s, endch, i, y, 0);
  }

  lemma NotLast(s: seq<char>, e: nat, quote: char)
    requires Terminated(s) && e < |s| && s[e] == quote && quote != '\0'
    ensures e + 1 < |s|
  {
  }

  lemma NotTheLast(s: seq<char>, i: nat)
    requires Terminated(s) && i < |s|
    ensures s[i] != '\0' ==> i + 1 < |s|
  {
  }

  lemma {:induction false} AttributesAnd(l: seq<SpelledAttribute>, a: SpelledAttribute)
    ensures AttributesOf(l + [a]) == AttributesOf(l) + [AttributeOf(a)]
  {
    if l == [] {
      assert [a][1..] == [] && l + [a] == [a];
    } else {
      assert (l + [a])[1..] == l[1..] + [a];
      AttributesAnd(l[1..], a);
    }
  }

  lemma {:induction false} WriteAnd(l: seq<SpelledAttribute>, a: SpelledAttribute)
    ensures WriteAttributes(l + [a]) == WriteAttributes(l) + (a.space + WriteBody(a))
  {
    hide WriteBody;
    if l == [] {
      assert [a][1..] == [] && l + [a] == [a] && WriteBody(a) + [] == WriteBody(a);
    } else {
      assert (l + [a])[1..] == l[1..] + [a];
      WriteAnd(l[1..], a);
    }
  }

  /** The attributes read so far, and the white space behind the name of the element if there is none. */
  ghost predicate Sofar(s: seq<char>, from: nat, i: nat, l: seq<SpelledAttribute>) {
    && Terminated(s) && 0 < from <= i <= Nul(s) && IsSpace(s[from - 1]) && GoodAttributes(l)
    && if l == [] then i == from else s[from - 1..i] == WriteAttributes(l) && !IsStart(s[i])
  }

  /** They are those that were to be read. */
  ghost predicate Midway(s: seq<char>, endch: char, i: nat, l: seq<SpelledAttribute>, known: seq<SpelledAttribute>, gap: seq<char>, end: seq<char>) {
    var n := |l|;
    && n <= |known| && AttributesOf(l) == AttributesOf(known[..n])
    && Left(s, endch, i + Spaces(s, i), AfterBlank(known[n..], gap, end))
  }

  /** The white space that has been passed. */
  ghost function SpaceBehind(s: seq<char>, from: nat, i: nat, l: seq<SpelledAttribute>): seq<char>
    requires Sofar(s, from, i, l)
  {
    if l == [] then s[from - 1..i + Spaces(s, i)] else s[i..i + Spaces(s, i)]
  }

  lemma SpacesEnd(s: seq<char>, i: nat)
    requires Terminated(s) && i <= Nul(s)
    ensures i + Spaces(s, i) <= Nul(s) && forall k: nat | i <= k < i + Spaces(s, i) :: s[k] != '\0'
  {
    assert i + Spaces(s, i) <= Nul(s);
  }

  lemma SpaceIs(s: seq<char>, from: nat, i: nat, l: seq<SpelledAttribute>)
    requires Sofar(s, from, i, l)
    ensures var j, x := i + Spaces(s, i), SpaceBehind(s, from, i, l);
            && j <= Nul(s) && IsBlank(x) && s[from - 1..j] == WriteAttributes(l) + x && (IsStart(s[j]) ==> x != [])
            && forall k: nat | from - 1 <= k < from || i <= k < j :: s[k] != '\0'
  {
    hide IsStart, IsSymbol, IsBlank, GoodAttributes, WriteAttributes, IsSpace;
    SpacesEnd(s, i);
    NotSymbols();
    var j := i + Spaces(s, i);
    if l == [] {
      NoneWritten();
      BlankSlice(s, from - 1, j);
      assert [] + s[from - 1..j] == s[from - 1..j];
    } else {
      BlankSlice(s, i, j);
      assert s[from - 1..j] == s[from - 1..i] + s[i..j];
    }
  }

  lemma NoneWritten()
    ensures WriteAttributes([]) == []
  {
  }

  /** Another attribute has been read. */
  lemma AttributeRead(s: seq<char>, from: nat, i: nat, l: seq<SpelledAttribute>, j: nat, a: SpelledAttribute)
    requires Sofar(s, from, i, l) && AttributeStands(s, i + Spaces(s, i), j, a, SpaceBehind(s, from, i, l)) && j < |s| && !IsStart(s[j])
    ensures Sofar(s, from, j, l + [a])
  {
    hide IsStart, WriteAttributes, WriteBody, GoodAttribute, IsSpace, SpaceBehind, Spaces;
    var k := i + Spaces(s, i);
    SpaceIs(s, from, i, l);
    WriteAnd(l, a);
    assert s[from - 1..j] == s[from - 1..k] + s[k..j];
    assert j <= Nul(s);
    forall b | b in l + [a] ensures GoodAttribute(b) {
      assert b in l || b == a;
    }
  }

  lemma KnownRead(s: seq<char>, endch: char, i: nat, l: seq<SpelledAttribute>, known: seq<SpelledAttribute>, gap: seq<char>, end: seq<char>,
                  j: nat, a: SpelledAttribute)
    requires Midway(s, endch, i, l, known, gap, end) && |l| < |known| && AttributeOf(a) == AttributeOf(known[|l|])
    requires Left(s, endch, j, WriteAttributes(known[|l| + 1..]) + (gap + end)) && GoodAttributes(known) && IsBlank(gap) && Ending(end)
    ensures Midway(s, endch, j, l + [a], known, gap, end)
  {
    hide Left, AfterBlank, WriteAttributes, GoodAttributes, IsBlank, AttributeOf, AttributesOf, Spaces, IsStart, IsSymbol, IsSpace, Ending;
    var n := |l|;
    Others(known, n + 1);
    AttributeGap(s, endch, j, known[n + 1..], gap, end);
    AttributesAnd(l, a);
    AttributesAnd(known[..n], known[n]);
    assert known[..n] + [known[n]] == known[..n + 1];
  }

  /** The end of the tag has been read. */
  lemma EndRead(s: seq<char>, endch: char, from: nat, i: nat, l: seq<SpelledAttribute>, k: nat, closed: bool)
    requires Sofar(s, from, i, l) && var j := i + Spaces(s, i); CloseStands(s, endch, j, k, closed)
    ensures Reads(s, endch, from - 1, k, WriteAttributes(l) + (SpaceBehind(s, from, i, l) + Close(closed)))
    ensures IsBlank(SpaceBehind(s, from, i, l))
  {
    hide IsStart, WriteAttributes, IsSpace, SpaceBehind, Spaces, Reads, IsBlank, GoodAttributes;
    var j, x := i + Spaces(s, i), SpaceBehind(s, from, i, l);
    SpaceIs(s, from, i, l);
    CloseReads(s, endch, j, k, closed);
    ReadsAfter(s, endch, from - 1, j, k, Close(closed));
    assert (WriteAttributes(l) + x) + Close(closed) == WriteAttributes(l) + (x + Close(closed));
  }

  /** The end of a start tag: `>` or `/>`, the last character perhaps in place of NUL. */
  ghost predicate CloseStands(s: seq<char>, endch: char, j: nat, k: nat, closed: bool) {
    && Terminated(s) && j <= k < |s| && j <= Nul(s)
    && var m := if closed then j + 1 else j;
       && (closed ==> s[j] == '/') && m < |s| && ((s[m] == '>' && k == m + 1) || (s[m] == '\0' && endch == '>' && k == m))
  }

  lemma CloseReads(s: seq<char>, endch: char, j: nat, k: nat, closed: bool)
    requires CloseStands(s, endch, j, k, closed)
    ensures j < |s| && Reads(s, endch, j, k, Close(closed))
  {
    hide Reads;
    if closed {
      ReadsOne(s, endch, j);
      NulBehind(s, endch, j);
      BracketReads(s, endch, j + 1, k);
      ReadsAfter(s, endch, j, j + 1, k, ">");
      assert s[j..j + 1] + ">" == Close(true);
    } else {
      BracketReads(s, endch, j, k);
    }
  }

  lemma NulBehind(s: seq<char>, endch: char, j: nat)
    requires Terminated(s) && j <= Nul(s) && s[j] != '\0'
    ensures j + 1 <= Nul(s)
  {
  }

  lemma BracketReads(s: seq<char>, endch: char, m: nat, k: nat)
    requires Terminated(s) && m <= Nul(s) && m < |s| && ((s[m] == '>' && k == m + 1) || (s[m] == '\0' && endch == '>' && k == m))
    ensures Reads(s, endch, m, k, ">")
  {
    if s[m] == '>' { ReadsOne(s, endch, m); } else { ReadsLast(s, endch, m); }
  }

  lemma CloseEnds(empty: bool, tail: seq<char>)
    requires empty || tail != []
    ensures Ending(Close(empty) + tail)
  {
  }

  /** Where a name begins, there is another attribute. */
  lemma AttributeNext(s: seq<char>, endch: char, hi: nat, l: seq<SpelledAttribute>, known: seq<SpelledAttribute>,
                      gap: seq<char>, empty: bool, tail: seq<char>)
    returns (first: SpelledAttribute, y: seq<char>)
    requires Midway(s, endch, hi, l, known, gap, Close(empty) + tail)
    requires GoodAttributes(known) && IsBlank(gap) && (empty || tail != []) && hi + Spaces(s, hi) < |s| && IsStart(s[hi + Spaces(s, hi)])
    ensures var n := |l|; n < |known| && first == known[n] && y == WriteAttributes(known[n + 1..]) + (gap + (Close(empty) + tail))
    ensures GoodAttribute(first) && y != [] && !IsStart(y[0]) && Left(s, endch, hi + Spaces(s, hi), WriteBody(first) + y)
    ensures Ending(Close(empty) + tail)
  {
    hide Left, WriteAttributes, WriteBody, GoodAttribute, IsStart, IsBlank, Spaces, Ending, Close, AttributesOf;
    var i, end, n := hi + Spaces(s, hi), Close(empty) + tail, |l|;
    CloseEnds(empty, tail);
    EndNoSpace(end);
    if n == |known| {
      LeftAt(s, endch, i, end, 0);
      NotSymbols();
    }
    first, y := known[n], WriteAttributes(known[n + 1..]) + (gap + end);
    assert known[n..][1..] == known[n + 1..];
    Others(known, n + 1);
    GapStarts(known[n + 1..], gap, end);
  }

  lemma Others(known: seq<SpelledAttribute>, n: nat)
    requires GoodAttributes(known) && n <= |known|
    ensures GoodAttributes(known[n..])
  {
    hide GoodAttribute;
    forall a | a in known[n..] ensures a in known {
    }
  }

  /** Where none begins, there is the end of the tag. */
  lemma TagEnds(s: seq<char>, endch: char, hi: nat, l: seq<SpelledAttribute>, known: seq<SpelledAttribute>,
                gap: seq<char>, empty: bool, tail: seq<char>)
    requires Midway(s, endch, hi, l, known, gap, Close(empty) + tail)
    requires GoodAttributes(known) && (empty || tail != []) && hi + Spaces(s, hi) < |s| && !IsStart(s[hi + Spaces(s, hi)])
    ensures AttributesOf(l) == AttributesOf(known)
    ensures var i := hi + Spaces(s, hi);
            s[i] == (if empty then '/' else '>') && if empty then BracketAt(s, endch, i + 1, tail) else Left(s, endch, i + 1, tail)
  {
    hide Left, WriteAttributes, WriteBody, GoodAttribute, IsStart, AttributesOf, Spaces, BracketAt;
    var i, n := hi + Spaces(s, hi), |l|;
    if n < |known| {
      assert known[n] in known;
      AttributeStarts(known[n]);
      StartLeft(s, endch, i, WriteBody(known[n]), WriteAttributes(known[n..][1..]) + (gap + (Close(empty) + tail)));
    } else {
      assert known[..n] == known;
      CloseHere(s, endch, i, empty, tail);
    }
  }

  lemma StartLeft(s: seq<char>, endch: char, i: nat, x: seq<char>, y: seq<char>)
    requires Left(s, endch, i, x + y) && x != [] && IsStart(x[0]) && |y| > 0 && i < |s|
    ensures IsStart(s[i])
  {
    hide IsStart;
    LeftAt(s, endch, i, x + y, 0);
  }

  /** The `>` that ends a tag. */
  ghost predicate BracketAt(s: seq<char>, endch: char, i: nat, tail: seq<char>) {
    i < |s| && ((s[i] == '>' && Left(s, endch, i + 1, tail)) || (s[i] == '\0' && endch == '>' && Left(s, endch, i, tail)))
  }

  lemma CloseHere(s: seq<char>, endch: char, i: nat, empty: bool, tail: seq<char>)
    requires Left(s, endch, i, Close(empty) + tail) && (empty || tail != [])
    ensures i < |s| && s[i] == if empty then '/' else '>'
    ensures !empty ==> Left(s, endch, i + 1, tail)
    ensures empty ==> BracketAt(s, endch, i + 1, tail)
  {
    hide Left;
    if empty {
      assert Close(true) + tail == ['/'] + (['>'] + tail);
      LeftOne(s, endch, i, '/', ['>'] + tail);
      LeftOne(s, endch, i + 1, '>', tail);
    } else {
      assert Close(false) + tail == ['>'] + tail;
      LeftOne(s, endch, i, '>', tail);
    }
  }

  // ----- tags -----

  /** The element that begins here. */
  ghost predicate ElementNext(todos: seq<Todo>) {
    Comes(todos) && Head(todos).SpelledElement?
  }

  /** The next thing is a start tag or an end tag. */
  ghost predicate TagNext(todos: seq<Todo>) {
    ElementNext(todos) || EndNext(todos)
  }

  lemma RestHasEnd(todos: seq<Todo>)
    requires |todos| > 1
    ensures RestOf(todos) != []
  {
  }

  lemma StartRest(todos: seq<Todo>)
    requires ElementNext(todos) && Good(Head(todos))
    ensures var t := Head(todos);
            && Still(todos) != [] && RestOf(todos) == WriteStart(t.name, t.attributes, t.gap, t.closed) + RestOf(Still(todos))
            && ValidName(t.name) && GoodAttributes(t.attributes) && IsBlank(t.gap) && (t.closed || RestOf(Still(todos)) != [])
  {
    hide WriteStart, WriteEnd, GoodAttributes, ValidName, IsBlank, IsWord;
    var t := Head(todos);
    var start := WriteStart(t.name, t.attributes, t.gap, t.closed);
    NextRest(todos);
    if t.closed {
      assert start + [] == start;
    } else {
      var todos' := Still(todos);
      assert todos'[..|todos|] == Next(todos);
      var inner, end, rest := WriteAll(t.kids), WriteEnd(t.endName, t.endGap), RestOf(Next(todos));
      assert (start + (inner + end)) + rest == start + (inner + (end + rest));
      RestHasEnd(todos');
    }
  }

  /** The start tag has been read. */
  lemma StartRead(s: seq<char>, endch: char, i: nat, frames: seq<Frame>, todos: seq<Todo>, g: seq<Spelled>, e: nat)
    requires Reading(s, endch, i, frames, todos, g) && ElementNext(todos)
    requires |Still(todos)| > 0 && Left(s, endch, e, RestOf(Still(todos)))
    ensures frames != []
    ensures var t := Head(todos); Reading(s, endch, e, Started(frames, t.name, AttributesOf(t.attributes), t.closed), Still(todos), g)
  {
    hide Reading, Left, RestOf, AttributesOf, MatchedAll, AddKids;
    ReadingParts(s, endch, i, frames, todos, g);
    if Head(todos).closed {
      ReadItem(s, endch, i, frames, todos, g, e);
      ClosedGives(Head(todos), |todos| > 1);
    } else {
      OpenItem(s, endch, i, frames, todos, g, e);
    }
  }

  lemma ClosedGives(t: Spelled, inside: bool)
    requires Good(t) && t.SpelledElement? && t.closed
    ensures Gives(t, inside) == [Element(t.name, AttributesOf(t.attributes), [])]
  {
    hide AttributesOf, GoodAttributes;
    assert t.kids == [] && MeaningAll(t.kids) == [];
  }

  /** A start tag up to the end of the name. */
  lemma StartNameHere(s: seq<char>, endch: char, i: nat, t: Spelled, tail: seq<char>)
    requires t.SpelledElement? && Left(s, endch, i, WriteStart(t.name, t.attributes, t.gap, t.closed) + tail)
    requires ValidName(t.name) && GoodAttributes(t.attributes) && IsBlank(t.gap) && (t.closed || tail != [])
    ensures var j := i + 1 + |t.name|;
            && j < |s| && s[i] == '<' && IsStart(s[i + 1]) && Stands(s, i + 1, t.name) && !IsSymbol(s[j]) && s[j] != '\0'
            && (IsSpace(s[j]) ==> j + 1 < |s|
                                  && Left(s, endch, j + 1 + Spaces(s, j + 1), AfterBlank(t.attributes, t.gap, Close(t.closed) + tail)))
            && (!IsSpace(s[j]) ==> t.attributes == [] && s[j] == (if t.closed then '/' else '>')
                                   && if t.closed then BracketAt(s, endch, j + 1, tail) else Left(s, endch, j + 1, tail))
  {
    hide Left, Stands, ValidName, GoodAttributes, IsBlank, IsStart, IsSymbol, IsSpace, AfterBlank, WriteAttributes, Spaces, BracketAt, Ending, WriteStart, Close;
    var end, j := Close(t.closed) + tail, i + 1 + |t.name|;
    StartNameStands(s, endch, i, t, tail);
    CloseEnds(t.closed, tail);
    AttributeGap(s, endch, j, t.attributes, t.gap, end);
    if !IsSpace(s[j]) { CloseHere(s, endch, j, t.closed, tail); }
  }

  lemma StartNameStands(s: seq<char>, endch: char, i: nat, t: Spelled, tail: seq<char>)
    requires t.SpelledElement? && Left(s, endch, i, WriteStart(t.name, t.attributes, t.gap, t.closed) + tail)
    requires ValidName(t.name) && (t.closed || tail != [])
    ensures var j := i + 1 + |t.name|;
            && j <= |s| && i + 1 < |s| && s[i] == '<' && IsStart(s[i + 1]) && Stands(s, i + 1, t.name)
            && Left(s, endch, j, WriteAttributes(t.attributes) + (t.gap + (Close(t.closed) + tail)))
  {
    hide Left, Stands, ValidName, IsStart, WriteAttributes, WriteStart, Close, IsWord;
    var x := WriteAttributes(t.attributes) + (t.gap + (Close(t.closed) + tail));
    StartText(t, tail);
    NameIsWord(t.name);
    LeftOne(s, endch, i, '<', t.name + x);
    LeftParts(s, endch, i + 1, t.name, x);
    StandsAt(s, i + 1, t.name, 0);
    StandsInside(s, i + 1, t.name);
  }

  lemma StandsInside(t: seq<char>, i: nat, x: seq<char>)
    requires Stands(t, i, x)
    ensures i + |x| <= |t|
  {
  }

  lemma StartText(t: Spelled, tail: seq<char>)
    requires t.SpelledElement? && (t.closed || tail != [])
    ensures var x := WriteAttributes(t.attributes) + (t.gap + (Close(t.closed) + tail));
            WriteStart(t.name, t.attributes, t.gap, t.closed) + tail == ['<'] + (t.name + x) && x != []
  {
    hide WriteAttributes;
    var a := WriteAttributes(t.attributes);
    assert ("<" + (t.name + (a + (t.gap + Close(t.closed))))) + tail == ['<'] + (t.name + (a + (t.gap + (Close(t.closed) + tail))));
    assert |a + (t.gap + (Close(t.closed) + tail))| > 0;
  }

  /** What has been built, with the start tag that was read. */
  function StartBuilt(bs: seq<Built>, name: seq<char>, l: seq<SpelledAttribute>, gap: seq<char>, closed: bool): seq<Built>
    requires bs != []
  {
    if closed then AddItem(bs, SpelledElement(name, l, gap, true, [], name, [])) else bs + [Built(name, l, gap, [])]
  }

  lemma StartFrames(bs: seq<Built>, name: seq<char>, l: seq<SpelledAttribute>, gap: seq<char>, closed: bool)
    requires bs != []
    ensures FramesOf(StartBuilt(bs, name, l, gap, closed)) == Started(FramesOf(bs), name, AttributesOf(l), closed)
  {
    hide AddItem, AddKids, FramesOf, AttributesOf;
    if closed {
      AddFrames(bs, SpelledElement(name, l, gap, true, [], name, []));
      assert MeaningAll([]) == [];
    } else {
      OpenFrames(bs, Built(name, l, gap, []));
    }
  }

  /** A start tag that was read up to its name, and from there to its end. */
  lemma StartTrace(s: seq<char>, endch: char, from: nat, j: nat, i: nat, bs: seq<Built>, l: seq<SpelledAttribute>, gap: seq<char>, closed: bool)
    requires 0 < from < j < |s| && s[from - 1] == '<' && Trace(s, endch, from - 1, bs) && ValidName(s[from..j])
    requires GoodAttributes(l) && IsBlank(gap) && Reads(s, endch, j, i, WriteAttributes(l) + (gap + Close(closed)))
    ensures var bs' := StartBuilt(bs, s[from..j], l, gap, closed); bs != [] && Trace(s, endch, i, bs') && Fresh(bs')
  {
    hide Reads, Trace, ValidName, GoodAttributes, IsBlank, WriteAttributes, Close, AddItem, Written, AllOk, IsWord;
    var name := s[from..j];
    var end := WriteAttributes(l) + (gap + Close(closed));
    TraceParts(s, endch, from - 1, bs);
    ReadsAfter(s, endch, from - 1, j, i, end);
    assert s[from - 1..j] == "<" + name;
    assert ("<" + name) + end == "<" + (name + end);
    NameIsWord(name);
    if closed {
      ClosedElement(name, l, gap);
      AddRead(s, endch, from - 1, i, bs, SpelledElement(name, l, gap, true, [], name, []));
    } else {
      OpenRead(s, endch, from - 1, i, bs, Built(name, l, gap, []));
    }
  }

  lemma ClosedElement(name: seq<char>, l: seq<SpelledAttribute>, gap: seq<char>)
    requires ValidName(name) && GoodAttributes(l) && IsBlank(gap) && IsWord(name)
    ensures var t := SpelledElement(name, l, gap, true, [], name, []);
            Good(t) && Matched(t) && Write(t) == WriteStart(name, l, gap, true)
  {
    hide ValidName, GoodAttributes, WriteStart, IsWord;
  }

  /** A start tag without attributes. */
  lemma NoneRead(s: seq<char>, endch: char, j: nat, i: nat, closed: bool)
    requires CloseStands(s, endch, j, i, closed)
    ensures Reads(s, endch, j, i, WriteAttributes([]) + ([] + Close(closed)))
    ensures GoodAttributes([]) && IsBlank([])
  {
    hide Reads;
    CloseReads(s, endch, j, i, closed);
    assert WriteAttributes([]) + ([] + Close(closed)) == Close(closed);
  }

  lemma NameInside(s: seq<char>, from: nat, j: nat)
    requires Terminated(s) && from < j < |s| && from <= Nul(s) && IsStart(s[from]) && (forall k: nat | from <= k < j :: IsSymbol(s[k]))
    ensures j <= Nul(s) && ValidName(s[from..j])
  {
    hide IsSymbol, IsStart, ValidName;
    NotSymbols();
    NameSlice(s, from, j);
  }

  lemma SizeOf(bs: seq<Built>)
    ensures |FramesOf(bs)| == |bs|
  {
  }

  lemma SpaceInside(s: seq<char>, j: nat)
    requires Terminated(s) && j < |s| && j <= Nul(s) && IsSpace(s[j])
    ensures j + 1 <= Nul(s)
  {
  }

  /** The element whose start tag is next, and what is behind the tag. */
  lemma StartHere(s: seq<char>, endch: char, i: nat, frames: seq<Frame>, todos: seq<Todo>, g: seq<Spelled>)
    returns (t: Spelled, tail: seq<char>)
    requires Reading(s, endch, i, frames, todos, g) && ElementNext(todos)
    ensures Comes(todos) && t == Head(todos) && t.SpelledElement? && Still(todos) != [] && tail == RestOf(Still(todos))
    ensures Left(s, endch, i, WriteStart(t.name, t.attributes, t.gap, t.closed) + tail)
    ensures ValidName(t.name) && GoodAttributes(t.attributes) && IsBlank(t.gap) && (t.closed || tail != [])
  {
    hide Left, RestOf, Plug, Proper, Matching, Good, MatchedAll, Outline, WriteStart, Still;
    ReadingParts(s, endch, i, frames, todos, g);
    NextProper(frames, todos, []);
    StartRest(todos);
    t, tail := Head(todos), RestOf(Still(todos));
  }

  /** An end tag: where its name stands, and its end. */
  lemma EndIs(s: seq<char>, endch: char, i: nat, frames: seq<Frame>, todos: seq<Todo>, g: seq<Spelled>)
    requires Reading(s, endch, i, frames, todos, g) && EndNext(todos)
    ensures |todos| == |frames|
    ensures var n := |todos| - 1; var word := todos[n].endName; var e := i + 2 + |word|;
            && Stands(s, i, "</") && Stands(s, i + 2, word) && IsWord(word) && ValidName(frames[n].name)
            && e < |s| && !IsSymbol(s[e]) && (s[e] == '\0' ==> endch == '>')
            && BracketAt(s, endch, e + Spaces(s, e), RestOf(todos[..n]))
  {
    hide Left, Plug, Proper, Matching, MatchedAll, Outline, RestOf, ValidName, Stands, IsSymbol, IsSpace, IsWord, IsBlank, GoodAll, WriteEnd, BracketAt;
    ReadingParts(s, endch, i, frames, todos, g);
    var n := |todos| - 1;
    SoundAt(frames, todos, n);
    EndRest(todos);
    EndHere(s, endch, i, todos[n].endName, todos[n].endGap, RestOf(todos[..n]));
  }

  lemma EndHere(s: seq<char>, endch: char, i: nat, word: seq<char>, gap: seq<char>, r: seq<char>)
    requires Left(s, endch, i, WriteEnd(word, gap) + r) && IsBlank(gap)
    ensures var e := i + 2 + |word|;
            && Stands(s, i, "</") && Stands(s, i + 2, word) && e < |s| && !IsSymbol(s[e]) && (s[e] == '\0' ==> endch == '>')
            && BracketAt(s, endch, e + Spaces(s, e), r)
  {
    hide Left, Stands, IsSymbol, IsSpace, IsBlank, WriteEnd, Spaces;
    NotSymbols();
    EqualsNoSpace();
    EndText(word, gap, r);
    LeftParts(s, endch, i, "</", word + (gap + (['>'] + r)));
    LeftParts(s, endch, i + 2, word, gap + (['>'] + r));
    var e := i + 2 + |word|;
    BlankThen(s, endch, e, gap, ['>'] + r);
    LeftOne(s, endch, e + |gap|, '>', r);
  }

  lemma EndText(word: seq<char>, gap: seq<char>, r: seq<char>)
    ensures WriteEnd(word, gap) + r == "</" + (word + (gap + (['>'] + r)))
  {
    assert ("</" + (word + (gap + ">"))) + r == "</" + (word + (gap + (['>'] + r)));
  }

  /** A word ends at place `e`. */
  ghost predicate WordEnds(s: seq<char>, from: nat, e: nat) {
    from <= e < |s| && (forall k: nat | from <= k < e :: IsSymbol(s[k])) && !IsSymbol(s[e])
  }

  /** Behind white space there is the `>`, perhaps the last character of the document. */
  ghost predicate Bracketed(s: seq<char>, endch: char, e: nat) {
    var m := e + Spaces(s, e);
    m < |s| && (s[m] == '>' || (s[m] == '\0' && endch == '>'))
  }

  /** The end tag that was read. */
  lemma EndReads(s: seq<char>, endch: char, from: nat, e: nat, m: nat, k: nat)
    requires Terminated(s) && 2 <= from <= e <= m < |s| && from - 2 <= Nul(s) && s[from - 2] == '<' && s[from - 1] == '/'
    requires (forall i: nat | from <= i < e :: IsSymbol(s[i])) && (forall i: nat | e <= i < m :: IsSpace(s[i]))
    requires (s[m] == '>' && k == m + 1) || (s[m] == '\0' && endch == '>' && k == m)
    ensures Reads(s, endch, from - 2, k, WriteEnd(s[from..e], s[e..m])) && IsBlank(s[e..m])
  {
    hide IsSymbol, IsSpace, Reads, IsBlank;
    NotSymbols();
    assert m <= Nul(s);
    BlankSlice(s, e, m);
    BracketReads(s, endch, m, k);
    ReadsAfter(s, endch, from - 2, m, k, ">");
    assert s[from - 2..m] == "</" + (s[from..e] + s[e..m]);
    assert ("</" + (s[from..e] + s[e..m])) + ">" == WriteEnd(s[from..e], s[e..m]);
  }

  /** An end tag with the name of the innermost element has been read. */
  lemma EndTrace(s: seq<char>, endch: char, from: nat, e: nat, m: nat, k: nat, bs: seq<Built>)
    requires 2 <= from <= e <= m < |s| && s[from - 2] == '<' && s[from - 1] == '/' && Trace(s, endch, from - 2, bs)
    requires (forall i: nat | from <= i < e :: IsSymbol(s[i])) && (forall i: nat | e <= i < m :: IsSpace(s[i]))
    requires (s[m] == '>' && k == m + 1) || (s[m] == '\0' && endch == '>' && k == m)
    requires |bs| > 1 && s[from..e] == bs[|bs| - 1].name
    ensures var bs' := PopBuilt(bs, s[e..m]); Trace(s, endch, k, bs') && Fresh(bs') && FramesOf(bs') == Pop(FramesOf(bs))
  {
    hide Trace, Fresh, FramesOf, PopBuilt, Pop, WriteEnd, Reads, IsSymbol, IsSpace, IsBlank, AllOk, Written;
    TraceParts(s, endch, from - 2, bs);
    EndReads(s, endch, from, e, m, k);
    CloseRead(s, endch, from - 2, k, bs, s[e..m]);
    PopFrames(bs, s[e..m]);
  }

  lemma NamesGrow(s: seq<char>, from: nat, name: seq<char>, k: nat)
    requires from + k < |s| && k < |name| && s[from..from + k] == name[..k] && s[from + k] == name[k]
    ensures s[from..from + k + 1] == name[..k + 1]
  {
    assert s[from..from + k + 1] == s[from..from + k] + [s[from + k]];
    assert name[..k + 1] == name[..k] + [name[k]];
  }

  lemma BracketFollows(s: seq<char>, endch: char, i: nat, tail: seq<char>)
    requires BracketAt(s, endch, i, tail)
    ensures i < |s| && if s[i] == '\0' then endch == '>' && Left(s, endch, i, tail) else s[i] == '>' && Left(s, endch, i + 1, tail)
  {
    hide Left;
  }

  /** An end tag with another name is the mismatch. */
  lemma CloseFitsNot(s: seq<char>, endch: char, i: nat, frames: seq<Frame>, todos: seq<Todo>, g: seq<Spelled>)
    requires Reading(s, endch, i, frames, todos, g) && EndNext(todos)
    ensures |frames| == |todos| && (todos[|todos| - 1].endName != frames[|todos| - 1].name ==> !MatchedAll(g))
  {
    hide Left, RestOf, Plug, Proper, Matching, Outline, MatchedAll, Pop;
    ReadingParts(s, endch, i, frames, todos, g);
    CloseFits(frames, todos);
  }

  lemma NameCharIsSymbol(name: seq<char>, k: nat)
    requires IsWord(name) && k <= |name|
    ensures k < |name| ==> IsSymbol(name[k])
  {
  }

  lemma WhichTag(s: seq<char>, endch: char, i: nat, frames: seq<Frame>, todos: seq<Todo>, g: seq<Spelled>)
    requires Reading(s, endch, i, frames, todos, g) && TagNext(todos)
    ensures i + 1 < |s| && s[i] == '<' && if ElementNext(todos) then IsStart(s[i + 1]) else EndNext(todos) && s[i + 1] == '/' && !IsStart('/')
  {
    hide Reading, Left, RestOf, Stands, IsStart, IsSymbol, IsSpace, Spaces, WriteStart, AfterBlank, GoodAttributes, ValidName, IsBlank, Still, Head;
    NotSymbols();
    if ElementNext(todos) {
      var t, tail := StartHere(s, endch, i, frames, todos, g);
      StartNameHere(s, endch, i, t, tail);
      NameIsWord(t.name);
    } else {
      EndIs(s, endch, i, frames, todos, g);
      StandsAt(s, i, "</", 0);
      StandsAt(s, i, "</", 1);
    }
  }

  // ----- texts and white space -----

  /** A text or white space comes before the next tag. */
  ghost predicate SkipNext(todos: seq<Todo>) {
    Comes(todos) && !Head(todos).SpelledElement?
  }

  lemma RestTag(todos: seq<Todo>)
    requires TagNext(todos)
    ensures |RestOf(todos)| > 1 && RestOf(todos)[0] == '<'
  {
    hide WriteAttributes, WriteAll;
    if ElementNext(todos) { NextRest(todos); } else { EndRest(todos); }
  }

  /** Behind a text there is a tag or, outside of all elements, nothing. */
  lemma BehindSkip(frames: seq<Frame>, todos: seq<Todo>)
    requires Proper(frames, todos) && SkipNext(todos)
    ensures |Next(todos)| == |todos| && (TagNext(Next(todos)) || (|todos| == 1 && Next(todos)[0].items == []))
  {
    hide Good, ValidName, IsWord, IsBlank;
    SoundAt(frames, todos, |todos| - 1);
    var l := todos[|todos| - 1].items;
    assert GoodAll(l) && !l[0].SpelledElement?;
    if |l| > 1 { assert l[1..][0] == l[1]; }
  }

  /** Where a text or white space ends: in front of a tag or with the document. */
  lemma SkipIs(s: seq<char>, endch: char, i: nat, frames: seq<Frame>, todos: seq<Todo>, g: seq<Spelled>) returns (e: nat)
    requires Reading(s, endch, i, frames, todos, g) && SkipNext(todos)
    ensures i <= e < |s| && Left(s, endch, e, RestOf(Next(todos))) && Good(Head(todos)) && |frames| == |todos| == |Next(todos)|
    ensures e - i <= |Write(Head(todos))| <= |s| - i && Stands(s, i, Write(Head(todos))[..e - i])
    ensures if s[e] == '<' then TagNext(Next(todos)) && e - i == |Write(Head(todos))|
            else s[e] == '\0' && |todos| == 1 && Next(todos)[0].items == [] && |Write(Head(todos))| - 1 <= e - i
  {
    hide Left, RestOf, Plug, Proper, Matching, MatchedAll, Good, Outline, Stands, Write, TagNext, Next, Head;
    ReadingParts(s, endch, i, frames, todos, g);
    NextProper(frames, todos, []);
    BehindSkip(frames, todos);
    NextRest(todos);
    SomethingWritten(Head(todos));
    var raw, r := Write(Head(todos)), RestOf(Next(todos));
    if TagNext(Next(todos)) {
      RestTag(Next(todos));
      LeftParts(s, endch, i, raw, r);
      e := i + |raw|;
      LeftAt(s, endch, e, r, 0);
      assert raw[..|raw|] == raw;
    } else {
      NoRest(Next(todos));
      assert raw + [] == raw;
      e := LeftAllOf(s, endch, i, raw);
    }
  }

  lemma NoRest(todos: seq<Todo>)
    requires |todos| == 1 && todos[0].items == []
    ensures RestOf(todos) == []
  {
  }

  lemma LeftAllOf(s: seq<char>, endch: char, i: nat, x: seq<char>) returns (e: nat)
    requires Left(s, endch, i, x) && x != []
    ensures i <= e < |s| && |x| - 1 <= e - i <= |x| <= |s| - i && s[e] == '\0' && Left(s, endch, e, []) && Stands(s, i, x[..e - i])
  {
    e := Nul(s);
    assert x[..e - i] == s[i..e];
  }

  lemma SomethingWritten(t: Spelled)
    requires Good(t)
    ensures Write(t) != []
  {
    hide WriteAll, WriteAttributes, GoodAll;
  }

  /** White space comes to the next tag, or to the end of the document; another text does not. */
  lemma Skipped(s: seq<char>, endch: char, i: nat, frames: seq<Frame>, todos: seq<Todo>, g: seq<Spelled>)
    requires Reading(s, endch, i, frames, todos, g) && SkipNext(todos)
    ensures Comes(todos)
    ensures var j := i + Spaces(s, i);
            j < |s| && if s[j] == '<' || s[j] == '\0' then Reading(s, endch, j, frames, Next(todos), g) else Head(todos).SpelledText?
  {
    hide Reading, Left, RestOf, Plug, Proper, Matching, MatchedAll, Outline, Stands, TagNext, Next, Head, Spaces, Good, Write, AddKids, Gives;
    var e := SkipIs(s, endch, i, frames, todos, g);
    var t := Head(todos);
    if t.Blank? {
      BlankSkipped(s, i, e, t);
    } else {
      WrittenText(t);
      TextSkipped(s, i, e, t);
    }
    if i + Spaces(s, i) == e {
      SkipMatched(t, |todos| > 1);
      ReadItem(s, endch, i, frames, todos, g, e);
      NoKids(frames);
    }
  }

  lemma NoKids(frames: seq<Frame>)
    ensures frames != [] ==> AddKids(frames, []) == frames
  {
    if frames != [] { assert frames[|frames| - 1].kids + [] == frames[|frames| - 1].kids; }
  }

  lemma SkipMatched(t: Spelled, inside: bool)
    ensures t.Blank? || (t.SpelledText? && !inside) ==> Matched(t) && Gives(t, inside) == []
    ensures t.SpelledText? ==> Matched(t) && Gives(t, true) == [TextOf(t.raw)]
  {
  }

  lemma BlankSkipped(s: seq<char>, i: nat, e: nat, t: Spelled)
    requires t.Blank? && Good(t) && i <= e < |s| && e - i <= |Write(t)| && Stands(s, i, Write(t)[..e - i]) && (s[e] == '<' || s[e] == '\0')
    ensures i + Spaces(s, i) == e
  {
    hide Spaces, Stands;
    EqualsNoSpace();
    var x := t.space[..e - i];
    forall k: nat | i <= k < e ensures IsSpace(s[k]) {
      StandsAt(s, i, x, k - i);
      assert t.space[k - i] in t.space;
    }
    SpacesAre(s, i, e - i);
  }

  /** A text that is not blank is not skipped, unless all of it that is not blank is the last character of the document. */
  lemma TextSkipped(s: seq<char>, i: nat, e: nat, t: Spelled)
    requires t.SpelledText? && Good(t) && i <= e < |s| && e - i <= |t.raw| && Stands(s, i, t.raw[..e - i])
    requires if s[e] == '<' then e - i == |t.raw| else s[e] == '\0' && |t.raw| - 1 <= e - i
    ensures var j := i + Spaces(s, i); j <= e && (j < e ==> s[j] != '<' && s[j] != '\0') && (j == e ==> s[e] == '\0')
  {
    hide Stands;
    EqualsNoSpace();
    var x, n := t.raw[..e - i], Spaces(s, i);
    assert i + n <= e;
    if s[e] == '<' {
      assert x == t.raw;
      var c :| c in t.raw && !IsSpace(c);
      var k: nat :| k < |t.raw| && t.raw[k] == c;
      StandsAt(s, i, x, k);
      assert !IsSpace(s[i + k]) && n <= k;
    }
    if i + n < e {
      StandsAt(s, i, x, n);
      assert t.raw[n] in t.raw;
    }
  }

  /** A text inside of an element. */
  lemma TextIs(s: seq<char>, endch: char, i: nat, frames: seq<Frame>, todos: seq<Todo>, g: seq<Spelled>) returns (e: nat, v: seq<char>)
    requires Reading(s, endch, i, frames, todos, g) && SkipNext(todos) && Head(todos).SpelledText? && |todos| > 1
    ensures i < e < |s| && s[e] == '<' && frames != [] && Comes(todos)
    ensures Decode(s, i, Mode(true, Lines), '<') == v && EndOf(s, i, '<') == e
    ensures Reading(s, endch, e, AddKids(frames, [Text(v)]), Next(todos), g) && TagNext(Next(todos))
  {
    hide Reading, Left, RestOf, Plug, Proper, Matching, MatchedAll, Outline, Stands, TagNext, Next, Gives, Decode, EndOf, AddKids, ValueOf, Write, Matched, Good;
    e := SkipIs(s, endch, i, frames, todos, g);
    var t := Head(todos);
    WrittenText(t);
    assert t.raw[..|t.raw|] == t.raw;
    v := ValueOf(t.raw, Lines, '<');
    ValueStands(s, i, t.raw, Lines, '<');
    SkipMatched(t, true);
    ReadItem(s, endch, i, frames, todos, g, e);
  }

  lemma WrittenText(t: Spelled)
    requires t.SpelledText? && Good(t)
    ensures Write(t) == t.raw != [] && forall c | c in t.raw :: !Stops(c, '<') && c != '<' && c != '\0'
  {
  }

  /** A text outside of all elements is passed over up to the next tag, or to the end of the document. */
  lemma TextAround(s: seq<char>, endch: char, i: nat, frames: seq<Frame>, todos: seq<Todo>, g: seq<Spelled>, e: nat)
    requires Reading(s, endch, i, frames, todos, g) && SkipNext(todos) && Head(todos).SpelledText? && |todos| == 1
    requires i <= e < |s| && (s[e] == '<' || s[e] == '\0') && forall k: nat | i <= k < e :: s[k] != '<' && s[k] != '\0'
    ensures Comes(todos) && Reading(s, endch, e, frames, Next(todos), g) && (s[e] == '<' ==> TagNext(Next(todos)))
  {
    hide Reading, Left, RestOf, Plug, Proper, Matching, MatchedAll, Outline, Stands, TagNext, Next, Gives, AddKids, Write, Matched, Good;
    var e' := SkipIs(s, endch, i, frames, todos, g);
    var t := Head(todos);
    WrittenText(t);
    forall k: nat | i <= k < e' ensures s[k] != '<' && s[k] != '\0' {
      StandsAt(s, i, t.raw[..e' - i], k - i);
      assert t.raw[k - i] in t.raw;
    }
    assert e == e';
    SkipMatched(t, false);
    ReadItem(s, endch, i, frames, todos, g, e);
    NoKids(frames);
  }

  /** As long as something is left, a tag or a text or white space is next; at NUL no tag is left. */
  lemma WhatIsNext(s: seq<char>, endch: char, i: nat, frames: seq<Frame>, todos: seq<Todo>, g: seq<Spelled>)
    requires Reading(s, endch, i, frames, todos, g)
    ensures i < |s| && |frames| == |todos| > 0
    ensures s[i] == '\0' ==> |frames| == 1 && frames[0].kids == Outline(g) && MatchedAll(g)
    ensures s[i] == '<' ==> TagNext(todos)
    ensures s[i] != '<' && s[i] != '\0' ==> SkipNext(todos)
  {
    hide Reading, Left, Plug, Proper, Matching, MatchedAll, RestOf, Stands, Outline, Good, Write, Head, Next, EndNext, ElementNext;
    ReadingParts(s, endch, i, frames, todos, g);
    if TagNext(todos) {
      WhichTag(s, endch, i, frames, todos, g);
    } else if SkipNext(todos) {
      var e := SkipIs(s, endch, i, frames, todos, g);
      FirstOfSkip(s, i, e, Head(todos));
      if s[i] == '\0' {
        NoSpaceAtNul(s, i);
        Skipped(s, endch, i, frames, todos, g);
        NothingLeft(s, endch, i, frames, Next(todos), g);
      }
    } else {
      NoneComes(todos);
      NothingLeft(s, endch, i, frames, todos, g);
    }
  }

  lemma NothingLeft(s: seq<char>, endch: char, i: nat, frames: seq<Frame>, todos: seq<Todo>, g: seq<Spelled>)
    requires Reading(s, endch, i, frames, todos, g) && |todos| == 1 && todos[0].items == []
    ensures i < |s| && s[i] == '\0' && |frames| == 1 && frames[0].kids == Outline(g) && MatchedAll(g)
  {
    assert frames[0].kids + [] == frames[0].kids;
    assert Fits(frames, todos, 0);
  }

  lemma NoSpaceAtNul(s: seq<char>, i: nat)
    requires i < |s| && s[i] == '\0'
    ensures Spaces(s, i) == 0
  {
  }

  lemma NoneComes(todos: seq<Todo>)
    requires todos != [] && !TagNext(todos) && !SkipNext(todos)
    ensures |todos| == 1 && todos[0].items == []
  {
  }

  /** A text or white space does not begin with a tag, and with NUL only if it is the last character. */
  lemma FirstOfSkip(s: seq<char>, i: nat, e: nat, t: Spelled)
    requires Good(t) && !t.SpelledElement? && i <= e < |s| && e - i <= |Write(t)| && Stands(s, i, Write(t)[..e - i])
    requires s[e] == '<' ==> e - i == |Write(t)|
    ensures s[i] != '<' && (s[i] == '\0' ==> e == i)
  {
    hide Stands;
    SomethingWritten(t);
    if i < e {
      StandsAt(s, i, Write(t)[..e - i], 0);
      assert Write(t)[0] in Write(t);
      EqualsNoSpace();
    }
  }

  /** A text that was read up to the next tag. */
  lemma TextTrace(s: seq<char>, endch: char, i: nat, e: nat, bs: seq<Built>)
    requires Trace(s, endch, i, bs) && Fresh(bs) && i < e < |s| && s[e] == '<' && forall k: nat | i <= k < e :: s[k] != '<' && s[k] != '\0'
    requires i + Spaces(s, i) < e
    ensures bs != [] && GoodText(s[i..e])
    ensures var bs' := AddItem(bs, SpelledText(s[i..e]));
            Trace(s, endch, e, bs') && FramesOf(bs') == AddKids(FramesOf(bs), if |bs| > 1 then [TextOf(s[i..e])] else [])
  {
    hide Fresh, FramesOf, AddItem, AddKids, Reads, Written, AllOk, IsSpace, ValueOf, Spaces;
    TraceParts(s, endch, i, bs);
    var raw, t := s[i..e], SpelledText(s[i..e]);
    assert raw[Spaces(s, i)] == s[i + Spaces(s, i)];
    forall c | c in raw ensures c != '<' && c != '\0' {
      var k: nat :| k < |raw| && raw[k] == c;
      assert s[i + k] == c;
    }
    assert raw[Spaces(s, i)] in raw;
    ReadsSlice(s, endch, i, e);
    AddRead(s, endch, i, e, bs, t);
    AddFrames(bs, t);
  }

  /** White space that was read up to the next tag. */
  lemma BlankTrace(s: seq<char>, endch: char, i: nat, e: nat, bs: seq<Built>)
    requires Trace(s, endch, i, bs) && Fresh(bs) && i < e < |s| && s[e] == '<' && forall k: nat | i <= k < e :: IsSpace(s[k])
    ensures bs != []
    ensures var bs' := AddItem(bs, Blank(s[i..e])); Trace(s, endch, e, bs') && FramesOf(bs') == FramesOf(bs)
  {
    hide Fresh, FramesOf, AddItem, AddKids, Reads, Written, AllOk, IsSpace, IsBlank;
    TraceParts(s, endch, i, bs);
    NotSymbols();
    BlankSlice(s, i, e);
    ReadsSlice(s, endch, i, e);
    AddRead(s, endch, i, e, bs, Blank(s[i..e]));
    AddFrames(bs, Blank(s[i..e]));
    SizeOf(bs);
    NoKids(FramesOf(bs));
  }

  /** From place `m` on there is no tag up to the end. */
  ghost predicate Pending(s: seq<char>, m: nat, i: nat) {
    m <= i < |s| && s[i] == '\0' && forall k: nat | m <= k < i :: s[k] != '<' && s[k] != '\0'
  }

  lemma SpacesBefore(s: seq<char>, i: nat, e: nat)
    requires i <= e < |s| && s[e] == '<' && i + Spaces(s, i) < |s| && s[i + Spaces(s, i)] != '<'
    ensures i + Spaces(s, i) < e
  {
    EqualsNoSpace();
  }

  lemma TextEnds(s: seq<char>, from: nat, e: nat)
    requires from < e < |s| && e == EndOf(s, from, '<') && s[e] == '<' && from + Spaces(s, from) < |s| && s[from + Spaces(s, from)] != '<'
    ensures (forall k: nat | from <= k < e :: s[k] != '<' && s[k] != '\0') && from + Spaces(s, from) < e
  {
    SpacesBefore(s, from, e);
  }

  lemma TextValue(s: seq<char>, from: nat, e: nat)
    requires from <= e < |s| && s[e] == '<' && forall k: nat | from <= k < e :: s[k] != '<' && s[k] != '\0'
    ensures TextOf(s[from..e]) == Text(Decode(s, from, Mode(true, Lines), '<'))
  {
    hide ValueOf, Decode;
    forall c | c in s[from..e] ensures !Stops(c, '<') {
      var k: nat :| k < e - from && s[from..e][k] == c;
      assert s[from + k] == c;
    }
    ValueStands(s, from, s[from..e], Lines, '<');
  }

  lemma ReadingSizes(s: seq<char>, endch: char, i: nat, frames: seq<Frame>, todos: seq<Todo>, g: seq<Spelled>)
    requires Reading(s, endch, i, frames, todos, g)
    ensures |frames| == |todos| > 0
  {
  }

  // ----- the whole document -----

  /** All of the document: what is built, and a text or white space that may be behind it. */
  lemma Whole(s: seq<char>, endch: char, m: nat, i: nat, bs: seq<Built>) returns (read: seq<Spelled>)
    requires Trace(s, endch, m, bs) && |bs| == 1 && Fresh(bs) && Pending(s, m, i)
    ensures GoodAll(read) && MatchedAll(read) && Outline(read) == Outline(bs[0].items)
    ensures endch != '<' ==> WriteAll(read) == s[..Nul(s)] + Last(endch)
  {
    hide Write, Good, Matched, Gives, IsSpace;
    assert BuiltOk(bs[0], true);
    var items, z := bs[0].items, Nul(s);
    assert i == z;
    read := items;
    var r := s[m..z] + Last(endch);
    if WriteAll(items) == s[0..m] && r != [] {
      assert s[0..m] + r == s[..z] + Last(endch);
      if endch != '<' {
        var t := if IsBlank(r) then Blank(r) else SpelledText(r);
        RestIs(s, m, z, endch, t, r);
        OneMoreGood(items, t);
        OneMoreMatched(items, t);
        OneMoreWritten(items, t);
        OneMoreShown(items, t);
        read := items + [t];
      }
    } else {
      assert s[0..m] + Last(endch) == s[..z] + Last(endch) || r == [];
    }
  }

  lemma RestIs(s: seq<char>, m: nat, z: nat, endch: char, t: Spelled, r: seq<char>)
    requires m <= z < |s| && (forall k: nat | m <= k < z :: s[k] != '<' && s[k] != '\0') && endch != '<'
    requires r == s[m..z] + Last(endch) && r != [] && t == if IsBlank(r) then Blank(r) else SpelledText(r)
    ensures Good(t) && Matched(t) && Write(t) == r && Gives(t, false) == []
  {
    hide IsSpace;
    forall c | c in r ensures c != '<' && c != '\0' {
      var k: nat :| k < |r| && r[k] == c;
      if k < z - m { assert s[m + k] == c; }
    }
  }

  lemma NotPending(s: seq<char>, m: nat, i: nat)
    requires i < |s| && s[i] != '\0' && (m == i || Pending(s, m, i))
    ensures m == i
  {
  }

  lemma NowPending(s: seq<char>, m: nat, i: nat)
    requires i < |s| && ((s[i] == '\0' && m == i) || Pending(s, m, i))
    ensures Pending(s, m, i) && s[i] == '\0'
  {
  }

  lemma BlankPending(s: seq<char>, m: nat, i: nat)
    requires m <= i < |s| && s[i] == '\0' && forall k: nat | m <= k < i :: IsSpace(s[k])
    ensures Pending(s, m, i)
  {
    hide IsSpace;
    NotSymbols();
    EqualsNoSpace();
  }

  /** What the parser takes for the document: the text up to the first NUL, with its last character kept aside. */
  ghost function Document(text: seq<char>): seq<char> {
    if text == [] then []
    else
      var s := text[|text| - 1 := '\0'];
      s[..Nul(s)] + Last(text[|text| - 1])
  }

  /** A text without NUL is all of it. */
  lemma DocumentIsText(text: seq<char>)
    requires '\0' !in text
    ensures Document(text) == text
  {
    if text != [] {
      var n := |text| - 1;
      var s := text[n := '\0'];
      forall k: nat | k < n ensures s[k] != '\0' { assert text[k] in text; }
      assert Nul(s) == n;
      assert text[n] in text;
      assert s[..n] + [text[n]] == text;
    }
  }

  lemma {:induction false} OutlineHasElements(g: seq<Spelled>)
    ensures Outline(g) != [] ==> Outline(g)[0].Element?
  {
    if g != [] && !g[0].SpelledElement? { OutlineHasElements(g[1..]); }
  }

  /** A document, with NUL over its last character, is ready to be read; that character is no `<`. */
  lemma DocumentBegins(text: seq<char>, g: seq<Spelled>)
    requires text != [] && Document(text) == WriteAll(g) && GoodAll(g)
    ensures text[|text| - 1] != '<'
    ensures Reading(text[|text| - 1 := '\0'], text[|text| - 1], 0, [Frame([], [], [])], [Todo(g, [], [])], g)
  {
    hide Write, WriteAll, GoodAll, MatchedAll, Outline, Good;
    var s, endch := text[|text| - 1 := '\0'], text[|text| - 1];
    if WriteAll(g) != [] { LastWritten(g); }
    assert s[0..Nul(s)] == s[..Nul(s)];
    assert [] + Outline(g) == Outline(g);
    assert Fits([Frame([], [], [])], [Todo(g, [], [])], 0) <==> MatchedAll(g);
  }

  /** Behind an embedded NUL nothing but the last character counts. */
  lemma NulHides(text: seq<char>, hidden: seq<char>)
    requires text != [] && '\0' !in text
    ensures var n := |text| - 1; Document(text[..n] + ['\0'] + hidden + [text[n]]) == text
  {
    var n := |text| - 1;
    var t := text[..n] + ['\0'] + hidden + [text[n]];
    var s := t[|t| - 1 := '\0'];
    forall k: nat | k < n ensures s[k] != '\0' { assert text[k] in text; }
    assert s[n] == '\0' && Nul(s) == n;
    assert text[n] in text;
    assert s[..n] + [text[n]] == text;
  }

  /** What is written as MarkupSpelling says holds no NUL, so it is a document. */
  lemma SpelledIsDocument(g: seq<Spelled>)
    requires GoodAll(g)
    ensures Document(WriteAll(g)) == WriteAll(g)
  {
    hide Document, WriteAll, GoodAll;
    WrittenAreClean(g);
    DocumentIsText(WriteAll(g));
  }

  lemma {:induction false} WrittenAreClean(g: seq<Spelled>)
    requires GoodAll(g)
    ensures '\0' !in WriteAll(g)
    decreases g, 1
  {
    hide Write, Good;
    if g != [] {
      WrittenIsClean(g[0]);
      WrittenAreClean(g[1..]);
    }
  }

  lemma {:induction false} WrittenIsClean(t: Spelled)
    requires Good(t)
    ensures '\0' !in Write(t)
    decreases t, 0
  {
    hide WriteAttributes, GoodAttributes, IsStart, IsSymbol, IsSpace, WriteAll, GoodAll;
    NotSymbols();
    match t
    case Blank(_) =>
    case SpelledText(_) =>
    case SpelledElement(_, attributes, _, closed, kids, _, _) =>
      AttributesAreClean(attributes);
      if !closed { WrittenAreClean(kids); }
  }

  lemma {:induction false} AttributesAreClean(l: seq<SpelledAttribute>)
    requires GoodAttributes(l)
    ensures '\0' !in WriteAttributes(l)
  {
    hide GoodAttribute, WriteBody;
    if l != [] {
      assert l[0] in l;
      Others(l, 1);
      AttributeIsClean(l[0]);
      AttributesAreClean(l[1..]);
    }
  }

  lemma AttributeIsClean(a: SpelledAttribute)
    requires GoodAttribute(a)
    ensures '\0' !in a.space && '\0' !in WriteBody(a)
  {
    hide IsStart, IsSymbol, IsSpace;
    NotSymbols();
    var v := WriteValue(a);
    assert '\0' !in v;
    hide WriteValue;
    assert '\0' !in a.after + v;
  }

  lemma NothingWritten(g: seq<Spelled>)
    requires (GoodAll(g) && WriteAll(g) == []) || g == []
    ensures g == [] && GoodAll(g) && MatchedAll(g) && Outline(g) == [] && WriteAll(g) == []
  {
    hide Write, Good;
    if g != [] { SomethingWritten(g[0]); }
  }

  lemma {:induction false} LastWritten(g: seq<Spelled>)
    requires GoodAll(g) && WriteAll(g) != []
    ensures WriteAll(g)[|WriteAll(g)| - 1] != '<'
  {
    hide Write, Good;
    var w, x := Write(g[0]), WriteAll(g[1..]);
    assert WriteAll(g) == w + x;
    if x != [] { LastWritten(g[1..]); } else { LastOf(g[0]); }
  }

  lemma LastOf(t: Spelled)
    requires Good(t)
    ensures Write(t) != [] && Write(t)[|Write(t)| - 1] != '<'
  {
    hide WriteAttributes, WriteAll, GoodAll, GoodAttributes, ValidName, IsWord;
    EqualsNoSpace();
    SomethingWritten(t);
    if !t.SpelledElement? { assert Write(t)[|Write(t)| - 1] in Write(t); }
  }
}
