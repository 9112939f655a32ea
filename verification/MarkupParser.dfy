/**
  `parse_tree` of xml/pugixml.cpp with parse_default, for elements, attributes and texts.  The document ends
  with NUL, which the caller has put in place of its last character, `endch`.  Strings are decoded in place and ended
  by NUL; nodes hold the places where they begin.  `s` is the document as it was, of which only what lies ahead is
  still in the buffer, and `bs` is what has been read of it.  If the document is `spelled`, that is `g` written as
  MarkupSpelling says, then `todos` is what is left of `g`.
 */
module MarkupParser {
  import opened Common
  import opened References
  import opened TextDecoding
  import opened Markup
  import opened MarkupSpelling
  import opened MarkupReading
  import opened MarkupPieces
  import opened MarkupStrings

  datatype Status =
    | Ok | BadAttribute | BadStartElement | BadEndElement | EndElementMismatch | UnrecognizedTag | NotModelled

  /** The open element in the program. */
  datatype Open = Open(nameAt: nat, attributes: seq<Attr>, kids: seq<Node>)

  // ----- the open elements of the program -----

  function AddNode(opens: seq<Open>, n: Node): seq<Open>
    requires opens != []
  {
    var k := |opens| - 1;
    opens[k := opens[k].(kids := opens[k].kids + [n])]
  }

  function PopNode(opens: seq<Open>): seq<Open>
    requires |opens| > 1
  {
    var k := |opens| - 1;
    AddNode(opens[..k], ElementNode(opens[k].nameAt, opens[k].attributes, opens[k].kids))
  }

  function StartNode(opens: seq<Open>, name: nat, attributes: seq<Attr>, closed: bool): seq<Open>
    requires opens != []
  {
    if closed then AddNode(opens, ElementNode(name, attributes, [])) else opens + [Open(name, attributes, [])]
  }

  /** Names lie in the buffer; the document has none. */
  predicate Inside(opens: seq<Open>, length: nat) {
    opens != [] && forall k | 1 <= k < |opens| :: opens[k].nameAt < length
  }

  ghost predicate OpenIs(b: seq<char>, hi: nat, o: Open, f: Frame, first: bool) {
    (first || At(b, hi, o.nameAt, f.name)) && AttrsAre(b, hi, o.attributes, f.attributes) && NodesAre(b, hi, o.kids, f.kids)
  }

  /** What was read so far is in the buffer, below place `hi`. */
  ghost predicate StackIs(b: seq<char>, hi: nat, opens: seq<Open>, frames: seq<Frame>) {
    |opens| == |frames| && forall k: nat | k < |opens| :: OpenIs(b, hi, opens[k], frames[k], k == 0)
  }

  lemma StackKept(b: seq<char>, hi: nat, b': seq<char>, hi': nat, opens: seq<Open>, frames: seq<Frame>)
    requires StackIs(b, hi, opens, frames) && Kept(b, b', hi) && hi <= hi' <= |b|
    ensures StackIs(b', hi', opens, frames)
  {
    hide At, AttrsAre, NodesAre, Kept;
    forall k: nat | k < |opens| ensures OpenIs(b', hi', opens[k], frames[k], k == 0) {
      assert OpenIs(b, hi, opens[k], frames[k], k == 0);
      if k > 0 { AtKept(b, hi, b', hi', opens[k].nameAt, frames[k].name); }
      AttrsKept(b, hi, b', hi', opens[k].attributes, frames[k].attributes);
      NodesKept(b, hi, b', hi', opens[k].kids, frames[k].kids);
    }
  }

  lemma AddNodeIs(b: seq<char>, hi: nat, opens: seq<Open>, frames: seq<Frame>, n: Node, t: Tree)
    requires StackIs(b, hi, opens, frames) && opens != [] && NodeIs(b, hi, n, t)
    ensures StackIs(b, hi, AddNode(opens, n), AddKids(frames, [t]))
  {
    hide At, AttrsAre, NodeIs, NodesAre;
    var k := |opens| - 1;
    assert OpenIs(b, hi, opens[k], frames[k], k == 0);
    NodesAnd(b, hi, opens[k].kids, frames[k].kids, n, t);
    forall j: nat | j < |opens| ensures OpenIs(b, hi, AddNode(opens, n)[j], AddKids(frames, [t])[j], j == 0) {
      assert OpenIs(b, hi, opens[j], frames[j], j == 0);
    }
  }

  lemma NodesAnd(b: seq<char>, hi: nat, l: seq<Node>, f: seq<Tree>, n: Node, t: Tree)
    requires NodesAre(b, hi, l, f) && NodeIs(b, hi, n, t)
    ensures NodesAre(b, hi, l + [n], f + [t])
  {
    hide NodeIs;
  }

  lemma PopNodeIs(b: seq<char>, hi: nat, opens: seq<Open>, frames: seq<Frame>)
    requires StackIs(b, hi, opens, frames) && |opens| > 1
    ensures StackIs(b, hi, PopNode(opens), Pop(frames))
  {
    hide At, AttrsAre, NodesAre, AddNode, AddKids;
    var k := |opens| - 1;
    assert OpenIs(b, hi, opens[k], frames[k], false);
    forall j: nat | j < k ensures OpenIs(b, hi, opens[..k][j], frames[..k][j], j == 0) {
      assert OpenIs(b, hi, opens[j], frames[j], j == 0);
    }
    AddNodeIs(b, hi, opens[..k], frames[..k], ElementNode(opens[k].nameAt, opens[k].attributes, opens[k].kids),
              Element(frames[k].name, frames[k].attributes, frames[k].kids));
  }

  lemma StartNodeIs(b: seq<char>, hi: nat, opens: seq<Open>, frames: seq<Frame>,
                    at: nat, name: seq<char>, l: seq<Attr>, m: seq<Attribute>, closed: bool)
    requires StackIs(b, hi, opens, frames) && opens != [] && At(b, hi, at, name) && AttrsAre(b, hi, l, m)
    ensures StackIs(b, hi, StartNode(opens, at, l, closed), Started(frames, name, m, closed))
  {
    hide At, AttrsAre, AddNode, AddKids;
    if closed {
      AddNodeIs(b, hi, opens, frames, ElementNode(at, l, []), Element(name, m, []));
    } else {
      hide NodesAre;
      NothingThere(b, hi);
      var opens', frames' := StartNode(opens, at, l, false), Started(frames, name, m, false);
      forall j: nat | j < |opens'| ensures OpenIs(b, hi, opens'[j], frames'[j], j == 0) {
        if j < |opens| { assert OpenIs(b, hi, opens[j], frames[j], j == 0); }
      }
    }
  }

  lemma NothingThere(b: seq<char>, hi: nat)
    ensures NodesAre(b, hi, [], [])
  {
  }

  // ----- names and white space -----

  method ScanName(buf: array<char>, i: nat, ghost s: seq<char>) returns (j: nat)
    requires Terminated(s) && i < |s| && Ahead(buf[..], s, i)
    ensures i <= j < |s| && (forall k: nat | i <= k < j :: IsSymbol(s[k])) && !IsSymbol(s[j])
    ensures buf[..] == old(buf[..])
  {
    hide IsSymbol;
    NotSymbols();
    j := i;
    while IsSymbol(buf[j])
      invariant i <= j < |s| && forall k: nat | i <= k < j :: IsSymbol(s[k])
      decreases |s| - j
    {
      j := j + 1;
    }
  }

  method SkipWs(buf: array<char>, i: nat, ghost s: seq<char>) returns (j: nat)
    requires Terminated(s) && i < |s| && Ahead(buf[..], s, i)
    ensures i <= j < |s| && j == i + Spaces(s, i) && !IsSpace(s[j]) && buf[j] == s[j] && Ahead(buf[..], s, j)
  {
    j := i;
    SpacesFrom(s, j);
    while IsSpace(buf[j])
      invariant i <= j < |s| && j + Spaces(s, j) == i + Spaces(s, i)
      decreases |s| - j
    {
      SpacesFrom(s, j);
      j := j + 1;
    }
    SpacesFrom(s, j);
  }

  /** PUGI__ENDSEG: NUL goes over the character behind a name. */
  method EndSegment(buf: array<char>, j: nat, ghost s: seq<char>, ghost from: nat) returns (ch: char)
    requires from <= j < |s| && Ahead(buf[..], s, from)
    modifies buf
    ensures ch == s[j] && Kept(old(buf[..]), buf[..], from) && Ahead(buf[..], s, j + 1) && buf[j] == '\0'
    ensures At(buf[..], j + 1, from, s[from..j])
  {
    ghost var b := buf[..];
    ch := buf[j];
    buf[j] := '\0';
    assert buf[..][from..j] == b[from..j] == s[from..j];
  }

  // ----- attributes -----

  /** From behind the name of an attribute, which `first` has ended, to the quote. */
  method FindValue(buf: array<char>, from: nat, first: char, ghost s: seq<char>) returns (ok: bool, i: nat)
    requires Terminated(s) && 0 < from < |s| && Ahead(buf[..], s, from) && s[from - 1] == first != '\0'
    ensures from <= i < |s| && (ok ==> i < |s| - 1 && Ahead(buf[..], s, i) && (s[i] == '"' || s[i] == '\''))
    ensures var q := EqualsAt(s, from - 1);
            && (ok ==> q + 1 < |s| && s[q] == '=' && i == q + 1 + Spaces(s, q + 1))
            && (q + 1 < |s| && s[q] == '=' ==> i == q + 1 + Spaces(s, q + 1) && (ok <==> s[i] == '"' || s[i] == '\''))
  {
    hide Ahead, Spaces, IsSpace;
    var ch := first;
    i := from;
    if IsSpace(ch) {
      i := SkipWs(buf, i, s);
      ch := buf[i];
      if ch == '\0' { return false, i; }
      NotTheLast(s, i);
      AheadAt(buf[..], s, i, i + 1);
      i := i + 1;
    }
    if ch != '=' { return false, i; }
    i := SkipWs(buf, i, s);
    NotTheLast(s, i);
    ok := buf[i] == '"' || buf[i] == '\'';
  }

  /** The name of an attribute, and the way to its value. */
  method ParseAttributeName(buf: array<char>, from: nat, ghost s: seq<char>) returns (ok: bool, i: nat, ghost p: nat)
    requires Terminated(s) && from < |s| && Ahead(buf[..], s, from) && IsStart(s[from])
    modifies buf
    ensures from <= p < |s| && (forall k: nat | from <= k < p :: IsSymbol(s[k])) && !IsSymbol(s[p])
    ensures ok ==> QuoteAt(s, from, p, i) && Kept(old(buf[..]), buf[..], from) && Ahead(buf[..], s, i) && At(buf[..], i, from, s[from..p])
    ensures (exists r: nat :: QuoteAt(s, from, p, r)) ==> ok
  {
    hide IsSymbol, IsSpace, IsStart, At, Kept, Ahead, Spaces;
    AheadAt(buf[..], s, from, from);
    StartIsSymbol(s[from]);
    i := ScanName(buf, from, s);
    p := i;
    var ch := EndSegment(buf, i, s, from);
    if ch == '\0' { return false, i, p; }
    NotTheLast(s, i);
    ok, i := FindValue(buf, i + 1, ch, s);
    if ok { AtLater(buf[..], p + 1, i, from, s[from..p]); }
  }

  lemma AtLater(b: seq<char>, hi: nat, hi': nat, at: nat, x: seq<char>)
    requires At(b, hi, at, x) && hi <= hi' <= |b|
    ensures At(b, hi', at, x)
  {
  }

  /** What decoding in place has left. */
  lemma Decoded(b: seq<char>, b': seq<char>, s: seq<char>, from: nat, e: nat, x: seq<char>)
    requires Ahead(b, s, from) && Only(b, b', from, e) && from <= e < |s| && Holds(b', from, x) && |x| <= e - from
    ensures Kept(b, b', from) && Ahead(b', s, e + 1) && (e + 1 <= |b'| ==> At(b', e + 1, from, x))
  {
  }

  /** The value between quotes, decoded in place. */
  method ParseValue(buf: array<char>, r: nat, ghost s: seq<char>) returns (closed: bool, i: nat)
    requires Terminated(s) && r + 1 < |s| && Ahead(buf[..], s, r) && (s[r] == '"' || s[r] == '\'')
    modifies buf
    ensures var e := EndOf(s, r + 1, s[r]);
            && e < |s| && (closed <==> s[e] == s[r])
            && (closed ==> i == e + 1 < |s| && Kept(old(buf[..]), buf[..], r) && Ahead(buf[..], s, i)
                           && At(buf[..], i, r + 1, Decode(s, r + 1, Mode(true, Convert), s[r])))
  {
    hide Decode, EndOf, At, Kept, Ahead, Holds, Only, Stops;
    ghost var b := buf[..];
    AheadAt(b, s, r, r);
    AheadAt(b, s, r, r + 1);
    AheadAt(b, s, r, |s| - 1);
    var quote := buf[r];
    DecodeAhead(b, s, r + 1, Mode(true, Convert), quote);
    EndAhead(b, s, r + 1, quote);
    DecodeShort(s, r + 1, Mode(true, Convert), quote);
    EndBeforeNul(s, r + 1, quote);
    closed, i := ParseAttribute(buf, r + 1, Mode(true, Convert), quote);
    ghost var e := EndOf(s, r + 1, quote);
    AheadAt(b, s, r, e);
    if closed {
      Decoded(b, buf[..], s, r + 1, e, Decode(s, r + 1, Mode(true, Convert), quote));
      NotLast(s, e, quote);
      KeptBelow(b, buf[..], r, r + 1);
    }
  }

  /** One attribute of a start tag, behind `space`. */
  method ParseOne(buf: array<char>, from: nat, ghost s: seq<char>, ghost endch: char, ghost space: seq<char>, ghost spelled: bool,
                  ghost known: SpelledAttribute, ghost y: seq<char>)
    returns (status: Status, i: nat, attribute: Attr, ghost a: SpelledAttribute)
    requires Terminated(s) && from < |s| && Ahead(buf[..], s, from) && IsStart(s[from]) && IsBlank(space) && space != []
    requires spelled ==> GoodAttribute(known) && y != [] && !IsStart(y[0]) && Left(s, endch, from, WriteBody(known) + y)
    modifies buf
    ensures status == Ok ==> from < i < |s| && Kept(old(buf[..]), buf[..], from) && Ahead(buf[..], s, i) && !IsStart(s[i])
    ensures status == Ok ==> AttributeStands(s, from, i, a, space) && AttrIs(buf[..], i, attribute, AttributeOf(a))
    ensures status == Ok || status == BadAttribute
    ensures spelled ==> status == Ok && AttributeOf(a) == AttributeOf(known) && Left(s, endch, i, y)
  {
    hide Decode, EndOf, Left, WriteBody, GoodAttribute, IsStart, IsSymbol, IsBlank, At, Kept, Ahead, EqualsAt, QuoteAt,
         AttributeAt, AttributeOf, AttributeStands;
    var named, r, p := ParseAttributeName(buf, from, s);
    attribute, a := Attr(from, r + 1), SpelledAttribute([], [], [], [], '"', []);
    if spelled { QuoteHere(s, endch, from, p, known, y); }
    if !named { return BadAttribute, r, attribute, a; }
    QuotePlaces(s, from, p, r);
    if spelled { KnownHere(s, endch, from, p, r, known, y, space); }
    ghost var b := buf[..];
    var closed;
    AheadAt(b, s, r, r);
    closed, i := ParseValue(buf, r, s);
    if !closed { return BadAttribute, i, attribute, a; }
    KeptTwice(old(buf[..]), b, buf[..], from, r);
    AtKept(b, r, buf[..], i, from, s[from..p]);
    a := AttributeAt(s, from, p, EqualsAt(s, p), r, i - 1, space);
    AttributeIs(s, from, p, r, space);
    if spelled { BehindValue(s, endch, i, y); }
    AheadAt(buf[..], s, i, i);
    status := if IsStart(buf[i]) then BadAttribute else Ok;
  }

  lemma KeptBelow(b: seq<char>, b': seq<char>, lo: nat, lo': nat)
    requires Kept(b, b', lo') && lo <= lo'
    ensures Kept(b, b', lo)
  {
  }

  lemma KeptTwice(b: seq<char>, b1: seq<char>, b2: seq<char>, lo: nat, lo': nat)
    requires Kept(b, b1, lo) && Kept(b1, b2, lo') && lo <= lo'
    ensures Kept(b, b2, lo)
  {
  }

  lemma KeptSame(b: seq<char>, lo: nat)
    ensures Kept(b, b, lo)
  {
  }

  lemma NoAttributes(b: seq<char>, hi: nat)
    ensures AttrsAre(b, hi, [], AttributesOf([]))
  {
  }

  lemma AttrsAnd(b: seq<char>, hi: nat, l: seq<Attr>, m: seq<Attribute>, n: Attr, a: Attribute)
    requires AttrsAre(b, hi, l, m) && AttrIs(b, hi, n, a)
    ensures AttrsAre(b, hi, l + [n], m + [a])
  {
    hide AttrIs;
  }

  /** From behind the name of an element to behind its start tag; `closed` if that ends with a slash. */
  method ParseAttributes(buf: array<char>, from: nat, endch: char, ghost s: seq<char>, ghost spelled: bool,
                         ghost known: seq<SpelledAttribute>, ghost gap: seq<char>, ghost empty: bool, ghost tail: seq<char>)
    returns (status: Status, i: nat, attributes: seq<Attr>, closed: bool, ghost l: seq<SpelledAttribute>, ghost space: seq<char>)
    requires Terminated(s) && 0 < from <= Nul(s) && Ahead(buf[..], s, from) && IsSpace(s[from - 1])
    requires spelled ==> GoodAttributes(known) && IsBlank(gap) && (empty || tail != [])
    requires spelled ==> Left(s, endch, from + Spaces(s, from), AfterBlank(known, gap, Close(empty) + tail))
    modifies buf
    ensures from <= i < |s| && (status == Ok ==> Kept(old(buf[..]), buf[..], from) && Ahead(buf[..], s, i))
    ensures status == Ok ==> AttrsAre(buf[..], i, attributes, AttributesOf(l)) && GoodAttributes(l) && IsBlank(space)
    ensures status == Ok ==> Reads(s, endch, from - 1, i, WriteAttributes(l) + (space + Close(closed)))
    ensures status != Ok ==> status == if IsStart(s[i]) then BadAttribute else BadStartElement
    ensures spelled ==> status == Ok && AttributesOf(l) == AttributesOf(known) && closed == empty && Left(s, endch, i, tail)
  {
    hide Left, AfterBlank, WriteAttributes, WriteBody, IsStart, IsSpace, At, AttrsAre, AttrIs, Kept, Ahead, GoodAttributes, GoodAttribute, Spaces, IsBlank,
         Midway, Sofar, AttributeOf, AttributesOf, Close, Reads, SpaceBehind, AttributeStands;
    i, attributes, closed, status := from, [], false, Ok;
    l, space := [], [];
    KeptSame(buf[..], from);
    AtFirst(buf[..], s, endch, from, spelled, known, gap, empty, tail);
    while true
      invariant from <= i < |s| && Kept(old(buf[..]), buf[..], from) && Ahead(buf[..], s, i)
      invariant Sofar(s, from, i, l) && AttrsAre(buf[..], i, attributes, AttributesOf(l))
      invariant spelled ==> Midway(s, endch, i, l, known, gap, Close(empty) + tail)
      decreases |s| - i
    {
      ghost var b, hi := buf[..], i;
      i := SkipWs(buf, i, s);
      AheadAt(buf[..], s, i, i);
      SpaceIs(s, from, hi, l);
      space := SpaceBehind(s, from, hi, l);
      if IsStart(buf[i]) {
        ghost var first, y := SpelledAttribute([], [], [], [], '"', []), [];
        if spelled { first, y := AttributeNext(s, endch, hi, l, known, gap, empty, tail); }
        var attribute;
        var j;
        ghost var a;
        status, j, attribute, a := ParseOne(buf, i, s, endch, space, spelled, first, y);
        if status != Ok { return status, i, attributes, false, l, space; }
        KeptTwice(old(buf[..]), b, buf[..], from, i);
        AttributeRead(s, from, hi, l, j, a);
        AttrsMore(b, buf[..], hi, i, j, attributes, l, attribute, a);
        if spelled { KnownRead(s, endch, hi, l, known, gap, Close(empty) + tail, j, a); }
        i := j;
        attributes, l := attributes + [attribute], l + [a];
      } else {
        if spelled { TagEnds(s, endch, hi, l, known, gap, empty, tail); }
        if buf[i] == '/' {
          AheadAt(buf[..], s, i, i + 1);
          closed := true;
          if buf[i + 1] == '>' {
            AheadAt(buf[..], s, i + 1, i + 2);
            TagRead(b, s, endch, from, hi, attributes, l, i + 2, true);
            return Ok, i + 2, attributes, true, l, space;
          }
          if buf[i + 1] == '\0' && endch == '>' {
            TagRead(b, s, endch, from, hi, attributes, l, i + 1, true);
            return Ok, i + 1, attributes, true, l, space;
          }
          return BadStartElement, i, attributes, false, l, space;
        } else if buf[i] == '>' {
          AheadAt(buf[..], s, i, i + 1);
          TagRead(b, s, endch, from, hi, attributes, l, i + 1, false);
          return Ok, i + 1, attributes, false, l, space;
        } else if buf[i] == '\0' && endch == '>' {
          TagRead(b, s, endch, from, hi, attributes, l, i, false);
          return Ok, i, attributes, false, l, space;
        }
        return BadStartElement, i, attributes, false, l, space;
      }
    }
  }

  lemma AtFirst(b: seq<char>, s: seq<char>, endch: char, i: nat, spelled: bool, known: seq<SpelledAttribute>, gap: seq<char>, empty: bool, tail: seq<char>)
    requires Terminated(s) && 0 < i <= Nul(s) && IsSpace(s[i - 1])
    requires spelled ==> Left(s, endch, i + Spaces(s, i), AfterBlank(known, gap, Close(empty) + tail))
    ensures AttrsAre(b, i, [], AttributesOf([])) && Sofar(s, i, i, [])
    ensures spelled ==> Midway(s, endch, i, [], known, gap, Close(empty) + tail)
  {
    hide Left, AfterBlank, Close, Spaces, IsSpace;
    assert known[..0] == [] && known[0..] == known;
  }

  /** The place behind the tag, with nothing new in the buffer. */
  lemma TagRead(b: seq<char>, s: seq<char>, endch: char, from: nat, hi: nat, attributes: seq<Attr>, l: seq<SpelledAttribute>, k: nat, closed: bool)
    requires Sofar(s, from, hi, l) && |b| == |s| && AttrsAre(b, hi, attributes, AttributesOf(l))
    requires CloseStands(s, endch, hi + Spaces(s, hi), k, closed)
    ensures Reads(s, endch, from - 1, k, WriteAttributes(l) + (SpaceBehind(s, from, hi, l) + Close(closed)))
    ensures IsBlank(SpaceBehind(s, from, hi, l)) && AttrsAre(b, k, attributes, AttributesOf(l)) && GoodAttributes(l)
  {
    hide AttrsAre, AttributesOf, WriteAttributes, SpaceBehind, Reads, IsBlank, GoodAttributes, Spaces, Close;
    EndRead(s, endch, from, hi, l, k, closed);
    KeptSame(b, hi);
    AttrsKept(b, hi, b, k, attributes, AttributesOf(l));
  }

  lemma AttrsMore(b: seq<char>, b': seq<char>, hi: nat, i: nat, j: nat, attributes: seq<Attr>, l: seq<SpelledAttribute>, n: Attr, a: SpelledAttribute)
    requires AttrsAre(b, hi, attributes, AttributesOf(l)) && Kept(b, b', i) && hi <= i <= j <= |b| && AttrIs(b', j, n, AttributeOf(a))
    ensures AttrsAre(b', j, attributes + [n], AttributesOf(l + [a]))
  {
    hide AttrsAre, AttrIs, Kept, AttributesOf, AttributeOf;
    KeptBelow(b, b', hi, i);
    AttrsKept(b, hi, b', j, attributes, AttributesOf(l));
    AttrsAnd(b', j, attributes, AttributesOf(l), n, AttributeOf(a));
    AttributesAnd(l, a);
  }

  // ----- tags -----

  /** Reading goes on, or has met an end tag that bears another name. */
  ghost predicate Went(status: Status, s: seq<char>, endch: char, i: nat, frames: seq<Frame>, todos: seq<Todo>, g: seq<Spelled>) {
    if status == Ok then Reading(s, endch, i, frames, todos, g) else status == EndElementMismatch && !MatchedAll(g)
  }

  /** What the program holds of the document, unless it has ended with an element open. */
  ghost predicate Stacked(b: seq<char>, i: nat, opens: seq<Open>, bs: seq<Built>) {
    |opens| == |bs| && (StackIs(b, i, opens, FramesOf(bs)) || (|opens| > 1 && i < |b| && b[i] == '\0'))
  }

  /** From place `j` behind the name of an element, over which NUL has gone, to behind its start tag. */
  method FinishStart(buf: array<char>, j: nat, ch: char, endch: char, ghost s: seq<char>, ghost spelled: bool, ghost t: Spelled, ghost tail: seq<char>)
    returns (status: Status, i: nat, a: seq<Attr>, closed: bool, ghost l: seq<SpelledAttribute>, ghost gap: seq<char>)
    requires Terminated(s) && j < |s| && j <= Nul(s) && Ahead(buf[..], s, j + 1) && ch == s[j] && buf.Length == |s| && buf[j] == '\0'
    requires spelled ==> t.SpelledElement? && GoodAttributes(t.attributes) && IsBlank(t.gap) && (t.closed || tail != []) && ch != '\0'
    requires spelled && IsSpace(ch) ==>
               j + 1 < |s| && Left(s, endch, j + 1 + Spaces(s, j + 1), AfterBlank(t.attributes, t.gap, Close(t.closed) + tail))
    requires spelled && !IsSpace(ch) ==> t.attributes == [] && ch == (if t.closed then '/' else '>')
                                         && if t.closed then BracketAt(s, endch, j + 1, tail) else Left(s, endch, j + 1, tail)
    modifies buf
    ensures j <= i < |s| && (status == Ok ==> Kept(old(buf[..]), buf[..], j + 1) && Ahead(buf[..], s, i))
    ensures status == Ok ==> GoodAttributes(l) && IsBlank(gap) && Reads(s, endch, j, i, WriteAttributes(l) + (gap + Close(closed)))
    ensures status == Ok ==> if i == j then buf[i] == '\0' && !closed else AttrsAre(buf[..], i, a, AttributesOf(l))
    ensures status != Ok ==> status == if IsSpace(ch) && IsStart(s[i]) then BadAttribute else BadStartElement
    ensures spelled ==> status == Ok && AttributesOf(l) == AttributesOf(t.attributes) && closed == t.closed && Left(s, endch, i, tail)
  {
    hide IsStart, Left, GoodAttributes, IsBlank, AfterBlank, IsSpace, Spaces, AttrsAre, AttributesOf, Kept, Ahead, Close, Reads, WriteAttributes;
    KeptSame(buf[..], j + 1);
    NotTheLast(s, j);
    a, closed, l, gap, status := [], false, [], [], Ok;
    i := j + 1;
    if ch == '>' {
      NoneRead(s, endch, j, i, false);
      NoAttributes(buf[..], i);
    } else if IsSpace(ch) {
      SpaceInside(s, j);
      status, i, a, closed, l, gap := ParseAttributes(buf, i, endch, s, spelled, if spelled then t.attributes else [], if spelled then t.gap else [],
                                                      spelled && t.closed, tail);
    } else if ch == '/' {
      closed := true;
      AheadAt(buf[..], s, i, i);
      if buf[i] == '>' {
        NotTheLast(s, i);
        AheadAt(buf[..], s, i, i + 1);
        i := i + 1;
      } else if buf[i] != '\0' || endch != '>' {
        status := BadStartElement;
        return;
      }
      NoneRead(s, endch, j, i, true);
      NoAttributes(buf[..], i);
    } else {
      // the end of the document: one step back
      i := j;
      if ch != '\0' || endch != '>' {
        status := BadStartElement;
        return;
      }
      BackAtTheEnd(buf[..], s, i);
      NoneRead(s, endch, j, i, false);
    }
  }

  /** From behind the `<` of a start tag to behind the tag. */
  method ParseStart(buf: array<char>, from: nat, endch: char, opens: seq<Open>, ghost s: seq<char>, ghost bs: seq<Built>,
                    ghost spelled: bool, ghost todos: seq<Todo>, ghost g: seq<Spelled>)
    returns (status: Status, i: nat, now: seq<Open>, ghost nowBs: seq<Built>, ghost still: seq<Todo>)
    requires Terminated(s) && 0 < from < |s| && Ahead(buf[..], s, from) && IsStart(s[from]) && Inside(opens, |s|)
    requires s[from - 1] == '<' && Trace(s, endch, from - 1, bs) && StackIs(buf[..], from, opens, FramesOf(bs))
    requires spelled ==> Reading(s, endch, from - 1, FramesOf(bs), todos, g) && ElementNext(todos)
    modifies buf
    ensures from <= i < |s| && (status == Ok ==> from < i && Ahead(buf[..], s, i) && Inside(now, |s|))
    ensures status == Ok ==> Trace(s, endch, i, nowBs) && Fresh(nowBs) && Stacked(buf[..], i, now, nowBs)
    ensures status == Ok || status == BadAttribute || status == BadStartElement
    ensures spelled ==> status == Ok && Reading(s, endch, i, FramesOf(nowBs), still, g)
  {
    hide Reading, Left, RestOf, Stands, ValidName, GoodAttributes, IsBlank, AfterBlank, IsStart, IsSymbol, IsSpace, Still, Started, Good, WriteStart,
         Spaces, At, AttrsAre, AttributesOf, Kept, Ahead, StackIs, Stacked, StartNode, ElementNext, Close, Trace, Fresh, FramesOf, StartBuilt, Reads,
         WriteAttributes, BracketAt, AllOk, Written, Inside;
    ghost var t, tail := Blank([]), [];
    nowBs, still, now := bs, todos, opens;
    if spelled {
      t, tail := StartHere(s, endch, from - 1, FramesOf(bs), todos, g);
      StartNameHere(s, endch, from - 1, t, tail);
    }
    TraceParts(s, endch, from - 1, bs);
    ghost var b0 := buf[..];
    var j := ScanName(buf, from, s);
    if spelled { NameHere(s, from, j, t.name); }
    StartIsSymbol(s[from]);
    NameInside(s, from, j);
    var ch := EndSegment(buf, j, s, from);
    ghost var b1 := buf[..];
    var a, closed;
    ghost var l, gap;
    status, i, a, closed, l, gap := FinishStart(buf, j, ch, endch, s, spelled, t, tail);
    if status != Ok { return; }
    OpensSome(opens, |s|);
    now := StartNode(opens, from, a, closed);
    StartNodeInside(opens, from, a, closed, |s|);
    nowBs := StartBuilt(bs, s[from..j], l, gap, closed);
    StartTrace(s, endch, from, j, i, bs, l, gap, closed);
    StartStacked(b0, b1, buf[..], from, j, i, opens, bs, s[from..j], a, l, gap, closed);
    if spelled {
      StartFrames(bs, s[from..j], l, gap, closed);
      StartRead(s, endch, from - 1, FramesOf(bs), todos, g, i);
      still := Still(todos);
    }
  }

  /** The program holds the element; if the document ends behind its name, nothing below matters. */
  lemma StartStacked(b0: seq<char>, b1: seq<char>, b2: seq<char>, from: nat, j: nat, i: nat, opens: seq<Open>, bs: seq<Built>,
                     name: seq<char>, a: seq<Attr>, l: seq<SpelledAttribute>, gap: seq<char>, closed: bool)
    requires StackIs(b0, from, opens, FramesOf(bs)) && bs != [] && Kept(b0, b1, from) && Kept(b1, b2, j + 1) && from <= j <= i < |b2| && |b0| == |b2|
    requires At(b1, j + 1, from, name)
    requires if i == j then b2[i] == '\0' && !closed else AttrsAre(b2, i, a, AttributesOf(l))
    ensures opens != [] && Stacked(b2, i, StartNode(opens, from, a, closed), StartBuilt(bs, name, l, gap, closed))
  {
    hide StackIs, At, AttrsAre, AttributesOf, Kept, FramesOf, Started;
    StackSizes(b0, from, opens, FramesOf(bs));
    SizeOf(bs);
    StartSizes(opens, bs, from, name, a, l, gap, closed);
    if i > j {
      StackStarted(b0, b1, b2, from, j + 1, i, opens, FramesOf(bs), name, a, AttributesOf(l), closed);
      StartFrames(bs, name, l, gap, closed);
    }
  }

  lemma StartSizes(opens: seq<Open>, bs: seq<Built>, at: nat, name: seq<char>, a: seq<Attr>, l: seq<SpelledAttribute>, gap: seq<char>, closed: bool)
    requires |opens| == |bs| > 0
    ensures |StartNode(opens, at, a, closed)| == |StartBuilt(bs, name, l, gap, closed)| == |opens| + if closed then 0 else 1
  {
  }

  /** With the name in the buffer `b1` and the attributes in `b2`, the element is there. */
  lemma StackStarted(b0: seq<char>, b1: seq<char>, b2: seq<char>, from: nat, mid: nat, i: nat, opens: seq<Open>, frames: seq<Frame>,
                     name: seq<char>, a: seq<Attr>, m: seq<Attribute>, closed: bool)
    requires StackIs(b0, from, opens, frames) && opens != [] && Kept(b0, b1, from) && Kept(b1, b2, mid) && from <= mid <= i <= |b0|
    requires At(b1, mid, from, name) && AttrsAre(b2, i, a, m)
    ensures frames != [] && StackIs(b2, i, StartNode(opens, from, a, closed), Started(frames, name, m, closed))
  {
    hide StackIs, At, AttrsAre, StartNode, Started, Kept;
    StackSizes(b0, from, opens, frames);
    KeptTwice(b0, b1, b2, from, mid);
    KeptSize(b0, b1, from);
    StackKept(b0, from, b2, i, opens, frames);
    AtKept(b1, mid, b2, i, from, name);
    StartNodeIs(b2, i, opens, frames, from, name, a, m, closed);
  }

  lemma KeptSize(b: seq<char>, b': seq<char>, lo: nat)
    requires Kept(b, b', lo)
    ensures |b'| == |b|
  {
  }

  lemma BackAtTheEnd(b: seq<char>, s: seq<char>, i: nat)
    requires Ahead(b, s, i + 1) && i < |s| && i < |b| && b[i] == s[i]
    ensures Ahead(b, s, i)
  {
  }

  lemma StartNodeInside(opens: seq<Open>, at: nat, attributes: seq<Attr>, closed: bool, length: nat)
    requires Inside(opens, length) && at < length
    ensures Inside(StartNode(opens, at, attributes, closed), length)
  {
  }

  /** How an end tag is answered if the word in it ends at place `e`; a name may lack just the last character of the document. */
  ghost function EndAnswer(s: seq<char>, endch: char, from: nat, e: nat, bs: seq<Built>): Status
    requires from <= e < |s| && bs != []
  {
    var word, name := s[from..e], bs[|bs| - 1].name;
    if |bs| > 1 && word == name then if Bracketed(s, endch, e) then Ok else BadEndElement
    else if |bs| > 1 && s[e] == '\0' && word + [endch] == name then BadEndElement
    else EndElementMismatch
  }

  ghost predicate EndAnswered(status: Status, s: seq<char>, endch: char, from: nat, bs: seq<Built>)
    requires bs != []
  {
    forall e: nat | WordEnds(s, from, e) :: status == EndAnswer(s, endch, from, e, bs)
  }

  lemma NoneOpen(s: seq<char>, endch: char, from: nat, bs: seq<Built>)
    requires |bs| == 1
    ensures EndAnswered(EndElementMismatch, s, endch, from, bs)
  {
    hide WordEnds;
  }

  /** Where the name was not met, there is a mismatch. */
  lemma NotMet(s: seq<char>, endch: char, from: nat, k: nat, bs: seq<Built>)
    requires |bs| > 1 && from + k < |s| && forall j: nat | from <= j <= from + k :: IsSymbol(s[j])
    requires var name := bs[|bs| - 1].name; k <= |name| && s[from..from + k] == name[..k] && (k == |name| || s[from + k] != name[k])
    ensures EndAnswered(EndElementMismatch, s, endch, from, bs)
  {
    hide IsSymbol, Bracketed;
    forall e: nat | WordEnds(s, from, e) ensures EndAnswer(s, endch, from, e, bs) == EndElementMismatch {
      assert e > from + k;
      assert s[from..e][k] == s[from + k];
      assert (s[from..e] + [endch])[k] == s[from + k];
    }
  }

  lemma MetWhole(status: Status, s: seq<char>, endch: char, from: nat, e: nat, bs: seq<Built>)
    requires |bs| > 1 && WordEnds(s, from, e) && s[from..e] == bs[|bs| - 1].name
    requires status == if Bracketed(s, endch, e) then Ok else BadEndElement
    ensures EndAnswered(status, s, endch, from, bs)
  {
    hide IsSymbol, Bracketed, EndAnswered;
    Met(status, s, endch, from, e - from, bs);
  }

  /** Where it was, up to the end of the word, the rest of the name and of the tag decide. */
  lemma Met(status: Status, s: seq<char>, endch: char, from: nat, k: nat, bs: seq<Built>)
    requires |bs| > 1 && from + k < |s| && (forall j: nat | from <= j < from + k :: IsSymbol(s[j])) && !IsSymbol(s[from + k])
    requires var name := bs[|bs| - 1].name; k <= |name| && s[from..from + k] == name[..k]
    ensures var name := bs[|bs| - 1].name;
            EndAnswered(status, s, endch, from, bs) <==>
              status == if k == |name| then if Bracketed(s, endch, from + k) then Ok else BadEndElement
                        else if s[from + k] == '\0' && k + 1 == |name| && name[k] == endch then BadEndElement else EndElementMismatch
  {
    hide IsSymbol, Bracketed;
    var name := bs[|bs| - 1].name;
    assert WordEnds(s, from, from + k);
    forall e: nat | WordEnds(s, from, e) ensures e == from + k {
    }
    if k < |name| {
      assert k + 1 == |name| ==> name == name[..k] + [name[k]];
      assert (s[from..from + k] + [endch])[k] == endch;
    } else {
      assert name[..k] == name;
    }
  }

  /** Reads on as long as the name in the buffer is met. */
  method CompareName(buf: array<char>, from: nat, at: nat, ghost s: seq<char>, ghost name: seq<char>) returns (same: bool, k: nat)
    requires Terminated(s) && from < |s| && Ahead(buf[..], s, from) && At(buf[..], from, at, name) && IsWord(name)
    ensures k <= |name| && from + k < |s| && s[from..from + k] == name[..k] && at + k + 1 < buf.Length
    ensures forall j: nat | from <= j < from + k :: IsSymbol(s[j])
    ensures same <==> !IsSymbol(s[from + k])
    ensures !same ==> k == |name| || s[from + k] != name[k]
  {
    hide IsSymbol, IsWord, At, Ahead;
    AheadAt(buf[..], s, from, |s| - 1);
    k := 0;
    AtChar(buf[..], from, at, name, k);
    while IsSymbol(buf[from + k])
      invariant from + k < |s| == buf.Length && k <= |name| && s[from..from + k] == name[..k] && at + k + 1 < buf.Length
      invariant forall j: nat | from <= j < from + k :: IsSymbol(s[j])
      decreases |s| - k
    {
      AheadAt(buf[..], s, from, from + k);
      NotSymbols();
      AtChar(buf[..], from, at, name, k);
      if buf[from + k] != buf[at + k] { return false, k; }
      NamesGrow(s, from, name, k);
      k := k + 1;
      AtChar(buf[..], from, at, name, k);
    }
    AheadAt(buf[..], s, from, from + k);
    same := true;
  }

  /** Whether the name of the innermost element, which is in the buffer, comes next. */
  method MatchName(buf: array<char>, from: nat, at: nat, endch: char, ghost s: seq<char>, ghost bs: seq<Built>)
    returns (status: Status, i: nat)
    requires Terminated(s) && from < |s| && Ahead(buf[..], s, from) && |bs| > 1
    requires var name := bs[|bs| - 1].name; At(buf[..], from, at, name) && IsWord(name)
    ensures from <= i < |s| && (status == Ok || status == BadEndElement || status == EndElementMismatch)
    ensures if status == Ok then s[from..i] == bs[|bs| - 1].name && WordEnds(s, from, i) else EndAnswered(status, s, endch, from, bs)
  {
    hide IsSymbol, IsWord, At, Ahead, EndAnswered;
    ghost var name := bs[|bs| - 1].name;
    var same, k := CompareName(buf, from, at, s, name);
    i := from + k;
    if !same {
      NotMet(s, endch, from, k, bs);
      return EndElementMismatch, i;
    }
    AheadAt(buf[..], s, from, i);
    AtChar(buf[..], from, at, name, k);
    if buf[at + k] != '\0' {
      status := if buf[i] == '\0' && buf[at + k] == endch && buf[at + k + 1] == '\0' then BadEndElement else EndElementMismatch;
      AtChar(buf[..], from, at, name, k + 1);
      NameCharIsSymbol(name, k + 1);
      NotSymbols();
      Met(status, s, endch, from, k, bs);
    } else {
      status := Ok;
      NameCharIsSymbol(name, k);
      NotSymbols();
      assert name[..k] == name;
    }
  }

  /** In a spelled document the end tag is complete: the name alone decides. */
  lemma SpelledAnswer(status: Status, s: seq<char>, endch: char, from: nat, bs: seq<Built>, todos: seq<Todo>, g: seq<Spelled>)
    requires from >= 2 && Reading(s, endch, from - 2, FramesOf(bs), todos, g) && EndNext(todos) && bs != [] && EndAnswered(status, s, endch, from, bs)
    ensures |todos| == |bs| > 1
    ensures status == if todos[|todos| - 1].endName == bs[|bs| - 1].name then Ok else EndElementMismatch
    ensures status == EndElementMismatch ==> !MatchedAll(g)
  {
    hide Reading, IsSymbol, IsWord, MatchedAll, WordEnds, Bracketed, FramesOf;
    SizeOf(bs);
    CloseFitsNot(s, endch, from - 2, FramesOf(bs), todos, g);
    var n := |todos| - 1;
    var word := todos[n].endName;
    WordStands(s, endch, from, bs, todos, g);
    LastIsSymbol(word, endch, bs[n].name);
    NotSymbols();
    var e := from + |word|;
    assert status == EndAnswer(s, endch, from, e, bs);
  }

  lemma WordStands(s: seq<char>, endch: char, from: nat, bs: seq<Built>, todos: seq<Todo>, g: seq<Spelled>)
    requires from >= 2 && Reading(s, endch, from - 2, FramesOf(bs), todos, g) && EndNext(todos) && bs != []
    ensures |todos| == |bs| && FramesOf(bs)[|bs| - 1].name == bs[|bs| - 1].name && IsWord(bs[|bs| - 1].name)
    ensures var word := todos[|todos| - 1].endName; var e := from + |word|;
            e < |s| && WordEnds(s, from, e) && s[from..e] == word && Bracketed(s, endch, e) && (s[e] == '\0' ==> endch == '>')
  {
    hide Reading, Stands, IsSymbol, IsWord, ValidName, BracketAt, Spaces, RestOf, Left;
    EndIs(s, endch, from - 2, FramesOf(bs), todos, g);
    var n := |todos| - 1;
    var word := todos[n].endName;
    NameSymbols(s, from, word);
    WordIs(s, from, word);
    NameIsWord(bs[n].name);
    BracketFollows(s, endch, from + |word| + Spaces(s, from + |word|), RestOf(todos[..n]));
  }

  lemma WordIs(s: seq<char>, from: nat, word: seq<char>)
    requires Stands(s, from, word)
    ensures from + |word| <= |s| && s[from..from + |word|] == word
  {
  }

  lemma NameSymbols(s: seq<char>, i: nat, word: seq<char>)
    requires Stands(s, i, word) && IsWord(word)
    ensures i + |word| <= |s| && forall k: nat | i <= k < i + |word| :: IsSymbol(s[k])
  {
    hide IsSymbol;
    forall k: nat | i <= k < i + |word| ensures IsSymbol(s[k]) {
      StandsAt(s, i, word, k - i);
      assert word[k - i] in word;
    }
  }

  lemma LastIsSymbol(word: seq<char>, endch: char, name: seq<char>)
    requires IsWord(name)
    ensures word + [endch] == name ==> IsSymbol(endch)
  {
    hide IsSymbol;
    if word + [endch] == name {
      assert name[|word|] == endch;
      assert name[|word|] in name;
    }
  }

  /** Behind it is what is left. */
  lemma SpelledRest(s: seq<char>, endch: char, from: nat, e: nat, k: nat, bs: seq<Built>, todos: seq<Todo>, g: seq<Spelled>)
    requires from >= 2 && Reading(s, endch, from - 2, FramesOf(bs), todos, g) && EndNext(todos) && |bs| == |todos|
    requires WordEnds(s, from, e) && s[from..e] == bs[|bs| - 1].name == todos[|todos| - 1].endName
    requires var m := e + Spaces(s, e); m < |s| && ((s[m] == '>' && k == m + 1) || (s[m] == '\0' && endch == '>' && k == m))
    ensures Left(s, endch, k, RestOf(todos[..|todos| - 1]))
  {
    hide Reading, Stands, IsSymbol, IsWord, ValidName, BracketAt, Spaces, RestOf, Left;
    EndIs(s, endch, from - 2, FramesOf(bs), todos, g);
    BracketFollows(s, endch, e + Spaces(s, e), RestOf(todos[..|todos| - 1]));
  }

  /** From behind the `</` of an end tag to behind the tag; the name must be that of the innermost element. */
  method ParseEnd(buf: array<char>, from: nat, endch: char, opens: seq<Open>, ghost s: seq<char>, ghost bs: seq<Built>,
                  ghost spelled: bool, ghost todos: seq<Todo>, ghost g: seq<Spelled>)
    returns (status: Status, i: nat, now: seq<Open>, ghost nowBs: seq<Built>, ghost still: seq<Todo>)
    requires Terminated(s) && 2 <= from < |s| && Ahead(buf[..], s, from) && Inside(opens, |s|)
    requires s[from - 2] == '<' && s[from - 1] == '/' && Trace(s, endch, from - 2, bs) && StackIs(buf[..], from, opens, FramesOf(bs))
    requires spelled ==> Reading(s, endch, from - 2, FramesOf(bs), todos, g) && EndNext(todos)
    ensures from <= i < |s| && (status == Ok ==> Ahead(buf[..], s, i) && Inside(now, |s|))
    ensures status == Ok ==> Trace(s, endch, i, nowBs) && Fresh(nowBs) && StackIs(buf[..], i, now, FramesOf(nowBs))
    ensures bs != [] && EndAnswered(status, s, endch, from, bs) && (status == Ok || status == BadEndElement || status == EndElementMismatch)
    ensures spelled ==> Went(status, s, endch, i, FramesOf(nowBs), still, g)
  {
    hide Reading, Left, RestOf, IsSymbol, IsWord, ValidName, Spaces, PopNode, Pop, PopBuilt, StackIs, At, Ahead, Inside, MatchedAll,
         Trace, AllOk, Fresh, FramesOf, Reads, Written, EndAnswered, EndNext;
    i, now, nowBs, still, status := from, opens, bs, todos, EndElementMismatch;
    StackSizes(buf[..], from, opens, FramesOf(bs));
    SizeOf(bs);
    OpensSome(opens, |s|);
    TraceParts(s, endch, from - 2, bs);
    if |opens| == 1 {
      NoneOpen(s, endch, from, bs);
      if spelled { SpelledAnswer(status, s, endch, from, bs, todos, g); }
      return;
    }
    InnermostName(buf[..], from, opens, bs);
    InsideAt(opens, |s|, |opens| - 1);
    var at := opens[|opens| - 1].nameAt;
    status, i := MatchName(buf, from, at, endch, s, bs);
    if status != Ok {
      if spelled { SpelledAnswer(status, s, endch, from, bs, todos, g); }
      return;
    }
    now := PopNode(opens);
    PopInside(opens, |s|);
    PopNodeIs(buf[..], from, opens, FramesOf(bs));
    ghost var e, m := i, i + Spaces(s, i);
    AheadAt(buf[..], s, from, i);
    var closed;
    closed, i := FindBracket(buf, i, endch, s);
    status := if closed then Ok else BadEndElement;
    MetWhole(status, s, endch, from, e, bs);
    if spelled { SpelledAnswer(status, s, endch, from, bs, todos, g); }
    if !closed { return; }
    EndTrace(s, endch, from, e, m, i, bs);
    nowBs := PopBuilt(bs, s[e..m]);
    KeptSame(buf[..], from);
    StackKept(buf[..], from, buf[..], i, now, FramesOf(nowBs));
    if spelled {
      SpelledRest(s, endch, from, e, i, bs, todos, g);
      still := Closed(s, endch, from - 2, i, bs, todos, g);
    }
  }

  /** The innermost element is closed. */
  lemma Closed(s: seq<char>, endch: char, i: nat, k: nat, bs: seq<Built>, todos: seq<Todo>, g: seq<Spelled>) returns (still: seq<Todo>)
    requires Reading(s, endch, i, FramesOf(bs), todos, g) && EndNext(todos) && |bs| == |todos| > 1
    requires Left(s, endch, k, RestOf(todos[..|todos| - 1])) && todos[|todos| - 1].endName == bs[|bs| - 1].name
    ensures Reading(s, endch, k, Pop(FramesOf(bs)), still, g)
  {
    hide Reading, Left, RestOf, Pop, MatchedAll;
    CloseItem(s, endch, i, FramesOf(bs), todos, g, k);
    still := todos[..|todos| - 1];
  }

  /** From behind the name in an end tag to behind the tag. */
  method FindBracket(buf: array<char>, from: nat, endch: char, ghost s: seq<char>) returns (closed: bool, i: nat)
    requires Terminated(s) && from < |s| && Ahead(buf[..], s, from)
    ensures var m := from + Spaces(s, from);
            && from <= m < |s| && m <= i < |s| && (closed ==> Ahead(buf[..], s, i))
            && (closed ==> (s[m] == '>' && i == m + 1) || (s[m] == '\0' && endch == '>' && i == m))
            && (closed <==> Bracketed(s, endch, from))
  {
    hide Ahead, Spaces, IsSpace;
    i := SkipWs(buf, from, s);
    AheadAt(buf[..], s, i, i);
    if buf[i] == '\0' {
      closed := endch == '>';
    } else {
      if buf[i] != '>' { return false, i; }
      NotTheLast(s, i);
      AheadAt(buf[..], s, i, i + 1);
      closed, i := true, i + 1;
    }
  }

  /** The name of the innermost element is in the buffer. */
  lemma InnermostName(b: seq<char>, hi: nat, opens: seq<Open>, bs: seq<Built>)
    requires |opens| == |bs| > 1 && StackIs(b, hi, opens, FramesOf(bs)) && AllOk(bs)
    ensures var name := bs[|bs| - 1].name;
            At(b, hi, opens[|opens| - 1].nameAt, name) && ValidName(name) && IsWord(name) && FramesOf(bs)[|bs| - 1].name == name
  {
    hide StackIs, At, AllOk, ValidName, IsWord, GoodAll, MatchedAll, GoodAttributes, IsBlank;
    StackName(b, hi, opens, FramesOf(bs));
    OuterOk(bs);
    NameIsWord(bs[|bs| - 1].name);
  }

  lemma StackSizes(b: seq<char>, hi: nat, opens: seq<Open>, frames: seq<Frame>)
    requires StackIs(b, hi, opens, frames)
    ensures |opens| == |frames|
  {
    hide OpenIs;
  }

  lemma StackName(b: seq<char>, hi: nat, opens: seq<Open>, frames: seq<Frame>)
    requires StackIs(b, hi, opens, frames) && |opens| > 1
    ensures |opens| == |frames| && At(b, hi, opens[|opens| - 1].nameAt, frames[|frames| - 1].name)
  {
    hide At, AttrsAre, NodesAre;
    assert OpenIs(b, hi, opens[|opens| - 1], frames[|opens| - 1], false);
  }

  lemma InsideAt(opens: seq<Open>, length: nat, k: nat)
    requires Inside(opens, length) && 1 <= k < |opens|
    ensures opens[k].nameAt < length
  {
  }

  lemma OpensSome(opens: seq<Open>, length: nat)
    requires Inside(opens, length)
    ensures opens != []
  {
  }

  lemma PopInside(opens: seq<Open>, length: nat)
    requires Inside(opens, length) && |opens| > 1
    ensures Inside(PopNode(opens), length)
  {
  }

  lemma AtChar(b: seq<char>, hi: nat, at: nat, x: seq<char>, k: nat)
    requires At(b, hi, at, x) && k <= |x|
    ensures at + k < hi <= |b| && b[at + k] == if k < |x| then x[k] else '\0'
  {
    if k < |x| { assert b[at..at + |x|][k] == b[at + k]; }
  }

  lemma ItIsStacked(b: seq<char>, i: nat, opens: seq<Open>, bs: seq<Built>)
    requires StackIs(b, i, opens, FramesOf(bs))
    ensures Stacked(b, i, opens, bs)
  {
    hide StackIs, FramesOf;
    StackSizes(b, i, opens, FramesOf(bs));
    SizeOf(bs);
  }

  /** What comes behind a `<`. */
  method ParseTag(buf: array<char>, from: nat, endch: char, opens: seq<Open>, ghost s: seq<char>, ghost bs: seq<Built>,
                  ghost spelled: bool, ghost todos: seq<Todo>, ghost g: seq<Spelled>)
    returns (status: Status, i: nat, now: seq<Open>, ghost nowBs: seq<Built>, ghost still: seq<Todo>)
    requires Terminated(s) && 0 < from < |s| && Ahead(buf[..], s, from) && Inside(opens, |s|)
    requires s[from - 1] == '<' && Trace(s, endch, from - 1, bs) && StackIs(buf[..], from, opens, FramesOf(bs))
    requires spelled ==> Reading(s, endch, from - 1, FramesOf(bs), todos, g) && TagNext(todos)
    modifies buf
    ensures from <= i < |s| && (status == Ok ==> from < i && Ahead(buf[..], s, i) && Inside(now, |s|))
    ensures status == Ok ==> Trace(s, endch, i, nowBs) && Fresh(nowBs) && Stacked(buf[..], i, now, nowBs)
    ensures var c := s[from];
            && (IsStart(c) ==> status == Ok || status == BadAttribute || status == BadStartElement)
            && bs != [] && (c == '/' ==> EndAnswered(status, s, endch, from + 1, bs))
            && (status == UnrecognizedTag <==> !IsStart(c) && c != '/' && c != '?' && c != '!' && !(c == '\0' && endch == '?'))
    ensures spelled ==> Went(status, s, endch, i, FramesOf(nowBs), still, g)
  {
    hide Reading, Left, RestOf, Stands, IsStart, IsSymbol, StackIs, Ahead, Inside, MatchedAll, ElementNext, EndNext, Trace, Fresh, FramesOf, EndAnswered,
         Stacked, AllOk, Written, Reads;
    NotSymbols();
    TraceParts(s, endch, from - 1, bs);
    i, now, nowBs, still := from, opens, bs, todos;
    if spelled { WhichTag(s, endch, from - 1, FramesOf(bs), todos, g); }
    AheadAt(buf[..], s, from, from);
    if IsStart(buf[from]) {
      status, i, now, nowBs, still := ParseStart(buf, from, endch, opens, s, bs, spelled, todos, g);
    } else if buf[from] == '/' {
      NotTheLast(s, from);
      AheadAt(buf[..], s, from, from + 1);
      KeptSame(buf[..], from);
      StackKept(buf[..], from, buf[..], from + 1, opens, FramesOf(bs));
      status, i, now, nowBs, still := ParseEnd(buf, from + 1, endch, opens, s, bs, spelled, todos, g);
      if status == Ok { ItIsStacked(buf[..], i, now, nowBs); }
    } else if buf[from] == '?' || buf[from] == '!' || (buf[from] == '\0' && endch == '?') {
      status := NotModelled;
    } else {
      status := UnrecognizedTag;
    }
  }

  // ----- texts and white space -----

  /** A text that is not blank; `more` unless the document ends with it. */
  method ParseText(buf: array<char>, from: nat, opens: seq<Open>, ghost s: seq<char>, ghost endch: char, ghost bs: seq<Built>,
                   ghost spelled: bool, ghost todos: seq<Todo>, ghost g: seq<Spelled>)
    returns (i: nat, now: seq<Open>, more: bool, ghost nowBs: seq<Built>, ghost still: seq<Todo>)
    requires Terminated(s) && from < |s| && Ahead(buf[..], s, from) && Inside(opens, |s|)
    requires var j := from + Spaces(s, from); j < |s| && s[from] != '<' && s[from] != '\0' && s[j] != '<' && s[j] != '\0'
    requires Trace(s, endch, from, bs) && Fresh(bs) && StackIs(buf[..], from, opens, FramesOf(bs))
    requires spelled ==> Reading(s, endch, from, FramesOf(bs), todos, g) && SkipNext(todos) && Head(todos).SpelledText?
    modifies buf
    ensures from <= i < |s| && Ahead(buf[..], s, i) && Inside(now, |s|) && (more ==> from < i)
    ensures more ==> s[i - 1] == '<' && Trace(s, endch, i - 1, nowBs) && StackIs(buf[..], i, now, FramesOf(nowBs))
    ensures !more ==> nowBs == bs && |now| == |bs| && (|bs| == 1 ==> Pending(s, from, i) && StackIs(buf[..], i, now, FramesOf(bs)))
    ensures spelled ==> if more then Reading(s, endch, i - 1, FramesOf(nowBs), still, g) && TagNext(still)
                        else |bs| == 1 && Reading(s, endch, i, FramesOf(nowBs), still, g)
  {
    hide Reading, Decode, EndOf, TagNext, SkipNext, StackIs, Ahead, Inside, Next, Spaces, Trace, Fresh, FramesOf;
    nowBs, still := bs, todos;
    OpensSome(opens, |s|);
    StackSizes(buf[..], from, opens, FramesOf(bs));
    SizeOf(bs);
    if spelled { ReadingSizes(s, endch, from, FramesOf(bs), todos, g); }
    if |opens| > 1 {
      if spelled {
        ghost var e, v := TextIs(s, endch, from, FramesOf(bs), todos, g);
        still := Next(todos);
      }
      i, now, more, nowBs := ParseInside(buf, from, opens, s, endch, bs);
      if spelled { WhichTag(s, endch, EndOf(s, from, '<'), AddKids(FramesOf(bs), [Text(Decode(s, from, Mode(true, Lines), '<'))]), still, g); }
    } else {
      now := opens;
      i, more, nowBs := ParseAround(buf, from, opens, s, endch, bs);
      if spelled {
        TextAround(s, endch, from, FramesOf(bs), todos, g, if more then i - 1 else i);
        still := Next(todos);
      }
    }
  }

  /** A text outside of all elements is passed over. */
  method ParseAround(buf: array<char>, from: nat, opens: seq<Open>, ghost s: seq<char>, ghost endch: char, ghost bs: seq<Built>)
    returns (i: nat, more: bool, ghost nowBs: seq<Built>)
    requires Terminated(s) && from < |s| && Ahead(buf[..], s, from)
    requires var j := from + Spaces(s, from); j < |s| && s[from] != '<' && s[from] != '\0' && s[j] != '<' && s[j] != '\0'
    requires Trace(s, endch, from, bs) && Fresh(bs) && |opens| == |bs| == 1 && StackIs(buf[..], from, opens, FramesOf(bs))
    ensures from <= i < |s| && Ahead(buf[..], s, i) && (more ==> from < i)
    ensures var e := if more then i - 1 else i;
            && from <= e && (s[e] == if more then '<' else '\0') && forall k: nat | from <= k < e :: s[k] != '<' && s[k] != '\0'
    ensures StackIs(buf[..], i, opens, FramesOf(nowBs)) && FramesOf(nowBs) == FramesOf(bs)
    ensures if more then Trace(s, endch, i - 1, nowBs) else nowBs == bs
  {
    hide StackIs, Ahead, Spaces, Trace, Fresh, FramesOf, AddItem, AddKids;
    nowBs := bs;
    i := ScanFor(buf, from, s);
    more := buf[i] == '<';
    AheadAt(buf[..], s, i, i);
    if more {
      SpacesBefore(s, from, i);
      TextTrace(s, endch, from, i, bs);
      SizeOf(bs);
      NoKids(FramesOf(bs));
      nowBs := AddItem(bs, SpelledText(s[from..i]));
      NotTheLast(s, i);
      AheadAt(buf[..], s, i, i + 1);
      i := i + 1;
    }
    KeptSame(buf[..], from);
    StackKept(buf[..], from, buf[..], i, opens, FramesOf(bs));
  }

  /** A text inside of an element, decoded in place. */
  method ParseInside(buf: array<char>, from: nat, opens: seq<Open>, ghost s: seq<char>, ghost endch: char, ghost bs: seq<Built>)
    returns (i: nat, now: seq<Open>, more: bool, ghost nowBs: seq<Built>)
    requires Terminated(s) && from < |s| && Ahead(buf[..], s, from) && Inside(opens, |s|)
    requires var j := from + Spaces(s, from); j < |s| && s[from] != '<' && s[from] != '\0' && s[j] != '<' && s[j] != '\0'
    requires Trace(s, endch, from, bs) && Fresh(bs) && |opens| == |bs| > 1 && StackIs(buf[..], from, opens, FramesOf(bs))
    modifies buf
    ensures from <= i < |s| && Ahead(buf[..], s, i) && Inside(now, |s|) && (more ==> from < i) && |now| == |opens|
    ensures var e := EndOf(s, from, '<');
            && e < |s| && (more <==> e + 1 < |s| && s[e] == '<' && s[e + 1] != '\0')
            && if more then i == e + 1 && Trace(s, endch, e, nowBs) && StackIs(buf[..], i, now, FramesOf(nowBs))
                            && FramesOf(nowBs) == AddKids(FramesOf(bs), [Text(Decode(s, from, Mode(true, Lines), '<'))])
               else nowBs == bs
  {
    hide Decode, EndOf, AddKids, AddNode, StackIs, Ahead, Inside, At, Holds, Only, Kept, Stops, Trace, Fresh, FramesOf, Spaces, ValueOf;
    ghost var b := buf[..];
    AheadAt(b, s, from, |s| - 1);
    AheadAt(b, s, from, from);
    EndBeforeNul(s, from, '<');
    nowBs := bs;
    ghost var e, v := EndOf(s, from, '<'), Decode(s, from, Mode(true, Lines), '<');
    DecodeAhead(b, s, from, Mode(true, Lines), '<');
    EndAhead(b, s, from, '<');
    DecodeShort(s, from, Mode(true, Lines), '<');
    AheadAt(b, s, from, e);
    i := ParsePcdata(buf, from, false, true, true);
    Decoded(b, buf[..], s, from, e, v);
    now := AddNode(opens, TextNode(from));
    AddNodeInside(opens, TextNode(from), |s|);
    PlaceBehind(b, buf[..], s, from, e, i);
    AheadAt(buf[..], s, i, i);
    more := buf[i] != '\0';
    if more {
      TextEnds(s, from, e);
      TextTrace(s, endch, from, e, bs);
      TextValue(s, from, e);
      nowBs := AddItem(bs, SpelledText(s[from..e]));
      TextRead(b, buf[..], s, from, e, i, opens, FramesOf(bs), v);
    }
  }

  lemma TextRead(b: seq<char>, b': seq<char>, s: seq<char>, from: nat, e: nat, i: nat, opens: seq<Open>, frames: seq<Frame>, v: seq<char>)
    requires StackIs(b, from, opens, frames) && opens != [] && Kept(b, b', from) && At(b', i, from, v) && from <= i <= |b|
    ensures frames != [] && StackIs(b', i, AddNode(opens, TextNode(from)), AddKids(frames, [Text(v)]))
  {
    hide StackIs, Kept, At, AddNode, AddKids;
    StackSizes(b, from, opens, frames);
    StackKept(b, from, b', i, opens, frames);
    AddNodeIs(b', i, opens, frames, TextNode(from), Text(v));
  }

  /** Text outside of the document element is passed over. */
  method ScanFor(buf: array<char>, from: nat, ghost s: seq<char>) returns (i: nat)
    requires Terminated(s) && from < |s| && Ahead(buf[..], s, from)
    ensures from <= i < |s| && Ahead(buf[..], s, i) && (buf[i] == '<' || buf[i] == '\0')
    ensures s[from] != '<' && buf[i] == '<' ==> from < i
    ensures forall k: nat | from <= k < i :: s[k] != '<' && s[k] != '\0'
  {
    i := from;
    AheadAt(buf[..], s, from, from);
    while buf[i] != '<' && buf[i] != '\0'
      invariant from <= i < |s| && forall k: nat | from <= k < i :: s[k] != '<' && s[k] != '\0'
      decreases |s| - i
    {
      i := i + 1;
    }
  }

  lemma AddNodeInside(opens: seq<Open>, n: Node, length: nat)
    requires Inside(opens, length)
    ensures opens != [] && Inside(AddNode(opens, n), length) && |AddNode(opens, n)| == |opens|
  {
  }

  /** Reading goes on behind the `<`, or at the end of the document. */
  lemma PlaceBehind(b: seq<char>, b': seq<char>, s: seq<char>, from: nat, e: nat, i: nat)
    requires Terminated(s) && Ahead(b, s, from) && from <= e < |s| && Ahead(b', s, e + 1) && Only(b, b', from, e)
    requires i == (if b[e] == '<' then e + 1 else e) && Stops(s[e], '<') && (b[e] == '\0' ==> b'[e] == '\0')
    ensures from <= i < |s| && Ahead(b', s, i) && b[e] == s[e] && |b'| == |s|
    ensures b'[i] != '\0' ==> s[e] == '<'
  {
  }

  // ----- the whole document -----

  /** `parse_tree`. */
  method ParseTree(buf: array<char>, endch: char, ghost spelled: bool, ghost g: seq<Spelled>)
    returns (status: Status, result: seq<Node>, ghost read: seq<Spelled>)
    requires Terminated(buf[..])
    requires spelled ==> Reading(buf[..], endch, 0, [Frame([], [], [])], [Todo(g, [], [])], g)
    modifies buf
    ensures status == Ok ==> GoodAll(read) && MatchedAll(read) && NodesAre(buf[..], buf.Length, result, Outline(read))
    ensures status == Ok && endch != '<' ==> var s := old(buf[..]); WriteAll(read) == s[..Nul(s)] + Last(endch)
    ensures spelled ==> if MatchedAll(g) then status == Ok && Outline(read) == Outline(g) else status == EndElementMismatch
  {
    hide Reading, Spaces, TagNext, SkipNext, StackIs, NodesAre, At, Kept, MatchedAll, GoodAll, WriteAll, Outline, Next, Trace, Fresh, FramesOf, Pending;
    ghost var s := buf[..];
    var i: nat, opens := 0, [Open(0, [], [])];
    ghost var bs, todos, m: nat := [Built([], [], [], [])], [Todo(g, [], [])], 0;
    AtTheBeginning(s, endch);
    status, read := Ok, [];
    while buf[i] != '\0'
      invariant i < |s| == buf.Length && Ahead(buf[..], s, i) && Inside(opens, |s|) && status == Ok
      invariant Trace(s, endch, m, bs) && Stacked(buf[..], i, opens, bs) && (m == i || Pending(s, m, i)) && (s[i] == '<' || Fresh(bs))
      invariant spelled ==> Reading(s, endch, i, FramesOf(bs), todos, g)
      decreases |s| - i
    {
      NotPending(s, m, i);
      if spelled { WhatIsNext(s, endch, i, FramesOf(bs), todos, g); }
      ghost var b, hi := buf[..], i;
      KeptSame(b, hi);
      if buf[i] == '<' {
        NotTheLast(s, i);
        i := i + 1;
        StackKept(b, hi, b, i, opens, FramesOf(bs));
      } else {
        var mark := i;
        if spelled { Skipped(s, endch, i, FramesOf(bs), todos, g); }
        SpacesFrom(s, i);
        i := SkipWs(buf, i, s);
        if buf[i] == '<' || buf[i] == '\0' {
          StackKept(b, hi, b, i, opens, FramesOf(bs));
          if buf[i] == '<' {
            BlankTrace(s, endch, mark, i, bs);
            bs, m := AddItem(bs, Blank(s[mark..i])), i;
          } else {
            BlankPending(s, mark, i);
          }
          if spelled { todos := Next(todos); }
          SizeOf(bs);
          continue;
        }
        var more;
        i, opens, more, bs, todos := ParseText(buf, mark, opens, s, endch, bs, spelled, todos, g);
        if !more {
          break;
        }
      }
      status, i, opens, bs, todos := ParseTag(buf, i, endch, opens, s, bs, spelled, todos, g);
      m := i;
      if status != Ok {
        return status, [], [];
      }
    }
    if |bs| == 1 { NowPending(s, m, i); }
    if spelled {
      WhatIsNext(s, endch, i, FramesOf(bs), todos, g);
      SizeOf(bs);
    }
    if |opens| != 1 {
      return EndElementMismatch, [], [];
    }
    result := opens[0].kids;
    read := Whole(s, endch, m, i, bs);
    StackBottom(buf[..], i, opens, bs);
    KeptSame(buf[..], i);
    NodesKept(buf[..], i, buf[..], buf.Length, result, Outline(read));
  }

  lemma AtTheBeginning(s: seq<char>, endch: char)
    requires Terminated(s)
    ensures var bs := [Built([], [], [], [])];
            && Trace(s, endch, 0, bs) && Fresh(bs) && FramesOf(bs) == [Frame([], [], [])]
            && StackIs(s, 0, [Open(0, [], [])], FramesOf(bs))
  {
    var bs := [Built([], [], [], [])];
    assert Written(bs) == [] == s[0..0];
    assert FramesOf(bs) == [Frame([], [], [])];
  }

  lemma StackBottom(b: seq<char>, hi: nat, opens: seq<Open>, bs: seq<Built>)
    requires StackIs(b, hi, opens, FramesOf(bs)) && |opens| == |bs| == 1
    ensures NodesAre(b, hi, opens[0].kids, Outline(bs[0].items))
  {
    hide At, AttrsAre, NodesAre;
    assert OpenIs(b, hi, opens[0], FramesOf(bs)[0], true);
  }

  /**
    `xml_parser::parse`, of a buffer that it may change: the last character is kept aside and replaced by NUL.
    It succeeds exactly on the documents in which every end tag bears the name of its element; `read` is how the
    document is spelled, and afterwards the buffer holds the strings of the trees that this means.
   */
  method Parse(buf: array<char>, ghost g: seq<Spelled>)
    returns (status: Status, elements: bool, result: seq<Node>, ghost read: seq<Spelled>)
    modifies buf
    ensures status == Ok ==>
              && Document(old(buf[..])) == WriteAll(read) && GoodAll(read) && MatchedAll(read)
              && NodesAre(buf[..], buf.Length, result, Outline(read)) && (elements <==> Outline(read) != [])
              && (CleanAll(Outline(read)) ==> LoadAll(buf[..], result) == Outline(read))
    ensures Document(old(buf[..])) == WriteAll(g) && GoodAll(g) ==>
              if MatchedAll(g) then status == Ok && Outline(read) == Outline(g) else status == EndElementMismatch
  {
    hide Reading, WriteAll, GoodAll, MatchedAll, Outline, NodesAre, CleanAll, Load, LoadAll;
    ghost var text := buf[..];
    ghost var spelled := Document(text) == WriteAll(g) && GoodAll(g);
    if buf.Length == 0 {
      if spelled { NothingWritten(g); }
      NothingWritten([]);
      NothingThere(buf[..], 0);
      if CleanAll([]) { TreesLoad(buf[..], 0, [], []); }
      return Ok, false, [], [];
    }
    var endch := buf[buf.Length - 1];
    buf[buf.Length - 1] := '\0';
    assert buf[..] == text[|text| - 1 := '\0'];
    if spelled { DocumentBegins(text, g); }
    status, result, read := ParseTree(buf, endch, spelled, g);
    if status == Ok && endch == '<' {
      return UnrecognizedTag, false, [], [];
    }
    elements := status == Ok && exists k :: 0 <= k < |result| && result[k].ElementNode?;
    if status == Ok {
      FirstIsElement(buf[..], buf.Length, result, read);
      if CleanAll(Outline(read)) { TreesLoad(buf[..], buf.Length, result, Outline(read)); }
    }
  }

  lemma FirstIsElement(b: seq<char>, hi: nat, l: seq<Node>, g: seq<Spelled>)
    requires NodesAre(b, hi, l, Outline(g))
    ensures Outline(g) != [] ==> l != [] && l[0].ElementNode?
    ensures Outline(g) == [] ==> l == []
  {
    hide At, AttrsAre;
    OutlineHasElements(g);
    if Outline(g) != [] { assert NodeIs(b, hi, l[0], Outline(g)[0]); }
  }
}
