/**
  The documents of elements, attributes and texts as they may be written: with any white space where it may stand,
  either quote, references in values and texts, elements without children closed at once or not, and end tags that
  may bear another name.
 */
module MarkupSpelling {
  import opened Common
  import opened References
  import opened TextDecoding
  import opened TextNormalization
  import opened Markup

  /** `space name before = after quote raw quote`. */
  datatype SpelledAttribute = SpelledAttribute(space: seq<char>, name: seq<char>, before: seq<char>, after: seq<char>,
                                               quote: char, raw: seq<char>)

  datatype Spelled =
    | Blank(space: seq<char>)
    | SpelledText(raw: seq<char>)
    | SpelledElement(name: seq<char>, attributes: seq<SpelledAttribute>, gap: seq<char>, closed: bool,
                     kids: seq<Spelled>, endName: seq<char>, endGap: seq<char>)

  // ----- how they are written -----

  function WriteValue(a: SpelledAttribute): seq<char> {
    [a.quote] + (a.raw + [a.quote])
  }

  /** An attribute without the space before it. */
  function WriteBody(a: SpelledAttribute): seq<char> {
    a.name + (a.before + ("=" + (a.after + WriteValue(a))))
  }

  function WriteAttributes(l: seq<SpelledAttribute>): seq<char> {
    if l == [] then [] else l[0].space + (WriteBody(l[0]) + WriteAttributes(l[1..]))
  }

  function Close(closed: bool): seq<char> {
    if closed then "/>" else ">"
  }

  function WriteStart(name: seq<char>, attributes: seq<SpelledAttribute>, gap: seq<char>, closed: bool): seq<char> {
    "<" + (name + (WriteAttributes(attributes) + (gap + Close(closed))))
  }

  function WriteEnd(name: seq<char>, gap: seq<char>): seq<char> {
    "</" + (name + (gap + ">"))
  }

  function Write(t: Spelled): seq<char> {
    match t
    case Blank(x) => x
    case SpelledText(raw) => raw
    case SpelledElement(name, attributes, gap, closed, kids, endName, endGap) =>
      WriteStart(name, attributes, gap, closed) + if closed then [] else WriteAll(kids) + WriteEnd(endName, endGap)
  }

  function WriteAll(l: seq<Spelled>): seq<char> {
    if l == [] then [] else Write(l[0]) + WriteAll(l[1..])
  }

  // ----- what they mean -----

  /** A value or a text that is written as `raw` in front of `stop`. */
  function ValueOf(raw: seq<char>, space: Space, stop: char): seq<char> {
    Decode(raw + [stop], 0, Mode(true, space), stop)
  }

  function AttributeOf(a: SpelledAttribute): Attribute {
    Attribute(a.name, ValueOf(a.raw, Convert, a.quote))
  }

  function AttributesOf(l: seq<SpelledAttribute>): seq<Attribute> {
    if l == [] then [] else [AttributeOf(l[0])] + AttributesOf(l[1..])
  }

  function TextOf(raw: seq<char>): Tree {
    Text(ValueOf(raw, Lines, '<'))
  }

  /** White space alone is no node. */
  function Meaning(t: Spelled): seq<Tree> {
    match t
    case Blank(_) => []
    case SpelledText(raw) => [TextOf(raw)]
    case SpelledElement(name, attributes, _, _, kids, _, _) => [Element(name, AttributesOf(attributes), MeaningAll(kids))]
  }

  function MeaningAll(l: seq<Spelled>): seq<Tree> {
    if l == [] then [] else Meaning(l[0]) + MeaningAll(l[1..])
  }

  /** Outside of an element only elements count; text around them is passed over. */
  function Gives(t: Spelled, inside: bool): seq<Tree> {
    if inside || t.SpelledElement? then Meaning(t) else []
  }

  function Outline(l: seq<Spelled>): seq<Tree> {
    if l == [] then [] else Gives(l[0], false) + Outline(l[1..])
  }

  /** Every end tag bears the name of its element. */
  predicate Matched(t: Spelled) {
    t.SpelledElement? && !t.closed ==> t.endName == t.name && MatchedAll(t.kids)
  }

  predicate MatchedAll(l: seq<Spelled>) {
    l == [] || (Matched(l[0]) && MatchedAll(l[1..]))
  }

  // ----- where what may stand -----

  predicate IsBlank(x: seq<char>) {
    forall c | c in x :: IsSpace(c)
  }

  /** What can be read as the name in an end tag, be it the name of an element or not. */
  predicate IsWord(x: seq<char>) {
    forall c | c in x :: IsSymbol(c)
  }

  predicate GoodAttribute(a: SpelledAttribute) {
    && a.space != [] && IsBlank(a.space) && IsBlank(a.before) && IsBlank(a.after) && ValidName(a.name)
    && (a.quote == '"' || a.quote == '\'') && forall c | c in a.raw :: c != a.quote && c != '\0'
  }

  predicate GoodAttributes(l: seq<SpelledAttribute>) {
    forall a | a in l :: GoodAttribute(a)
  }

  predicate GoodText(raw: seq<char>) {
    (forall c | c in raw :: c != '<' && c != '\0') && exists c :: c in raw && !IsSpace(c)
  }

  predicate Good(t: Spelled) {
    match t
    case Blank(x) => x != [] && IsBlank(x)
    case SpelledText(raw) => GoodText(raw)
    case SpelledElement(name, attributes, gap, closed, kids, endName, endGap) =>
      && ValidName(name) && GoodAttributes(attributes) && IsBlank(gap) && (closed ==> kids == []) && GoodAll(kids)
      && IsWord(endName) && IsBlank(endGap)
  }

  /** Between two elements there is at most one text or blank. */
  predicate GoodAll(l: seq<Spelled>) {
    l == [] || (Good(l[0]) && GoodAll(l[1..]) && (|l| > 1 ==> l[0].SpelledElement? || l[1].SpelledElement?))
  }

  // ----- decoding depends only on what is written -----

  lemma SameItem(t: seq<char>, i: nat, u: seq<char>, j: nat, k: nat, mode: Mode, stop: char)
    requires k > 0 && Agree(t, i, u, j, k + 1) && t[i + k] == stop && Delimiter(stop) && (mode.space == Lines || mode.space == Convert)
    requires t[i] != '\0' && t[i] != stop
    ensures Item(t, i, mode) == Item(u, j, mode)
  {
    hide Agree, MatchRef;
    AgreeBounds(t, i, u, j, k + 1);
    AgreePart(t, i, u, j, k + 1, 0, k);
    AgreeAt(t, i, u, j, k + 1, k);
    AgreeAt(t, i, u, j, k + 1, 0);
    AgreeAt(t, i, u, j, k + 1, 1);
    SameMatch(t, i, u, j, k);
  }

  lemma {:induction false} SameDecode(t: seq<char>, i: nat, u: seq<char>, j: nat, k: nat, mode: Mode, stop: char)
    requires Agree(t, i, u, j, k + 1) && t[i + k] == stop && Delimiter(stop) && (mode.space == Lines || mode.space == Convert)
    requires forall p: nat | i <= p < i + k :: !Stops(t[p], stop)
    ensures Decode(t, i, mode, stop) == Decode(u, j, mode, stop) && EndOf(t, i, stop) == i + k && EndOf(u, j, stop) == j + k
    decreases k
  {
    hide Agree, Item, EndOf;
    AgreeBounds(t, i, u, j, k + 1);
    AgreeAt(t, i, u, j, k + 1, k);
    forall p: nat | j <= p < j + k ensures !Stops(u[p], stop) { AgreeAt(t, i, u, j, k + 1, p - j); }
    EndsAt(t, i, k, stop);
    EndsAt(u, j, k, stop);
    if k > 0 {
      AgreeAt(t, i, u, j, k + 1, 0);
      SameItem(t, i, u, j, k, mode, stop);
      ItemStays(t, i, mode, stop);
      var n := Item(t, i, mode).len;
      AgreePart(t, i, u, j, k + 1, n, k + 1 - n);
      SameDecode(t, i + n, u, j + n, k - n, mode, stop);
    }
  }

  lemma {:induction false} EndsAt(t: seq<char>, i: nat, k: nat, stop: char)
    requires i + k < |t| && t[i + k] == stop && forall p: nat | i <= p < i + k :: !Stops(t[p], stop)
    ensures EndOf(t, i, stop) == i + k
    decreases k
  {
    if k > 0 { EndsAt(t, i + 1, k - 1, stop); }
  }

  /** Where `raw` stands in front of `stop`, decoding gives its value. */
  lemma ValueStands(s: seq<char>, i: nat, raw: seq<char>, space: Space, stop: char)
    requires Stands(s, i, raw) && i + |raw| < |s| && s[i + |raw|] == stop && Delimiter(stop) && (space == Lines || space == Convert)
    requires forall c | c in raw :: !Stops(c, stop)
    ensures Decode(s, i, Mode(true, space), stop) == ValueOf(raw, space, stop) && EndOf(s, i, stop) == i + |raw|
  {
    var u, k := raw + [stop], |raw|;
    assert s[i..i + (k + 1)] == s[i..i + k] + [s[i + k]] == u == u[0..0 + (k + 1)];
    forall d: nat | i <= d < i + k ensures !Stops(s[d], stop) {
      StandsAt(s, i, raw, d - i);
      assert raw[d - i] in raw;
    }
    SameDecode(s, i, u, 0, k, Mode(true, space), stop);
  }

  // ----- the printer's spelling -----

  function SpellAttribute(a: Attribute): SpelledAttribute {
    SpelledAttribute(" ", a.name, "", "", '"', EscapeText(a.value, true))
  }

  function SpellAttributes(l: seq<Attribute>): seq<SpelledAttribute> {
    if l == [] then [] else [SpellAttribute(l[0])] + SpellAttributes(l[1..])
  }

  function Spell(t: Tree): Spelled {
    match t
    case Text(v) => SpelledText(EscapeText(v, false))
    case Element(name, attributes, kids) =>
      SpelledElement(name, SpellAttributes(attributes), "", kids == [], SpellAll(kids), name, "")
  }

  function SpellAll(f: seq<Tree>): seq<Spelled> {
    if f == [] then [] else [Spell(f[0])] + SpellAll(f[1..])
  }

  lemma {:induction false} AttributesAreSpelled(l: seq<Attribute>)
    requires ValidAttributes(l)
    ensures WriteAttributes(SpellAttributes(l)) == PrintAttributes(l) && AttributesOf(SpellAttributes(l)) == l
    ensures GoodAttributes(SpellAttributes(l))
  {
    hide ValidName, ValidValue, GoodAttribute, PrintAttribute, WriteBody, SpellAttribute, AttributeOf;
    if l != [] {
      assert l[0] in l;
      forall a | a in l[1..] ensures a in l {
      }
      AttributesAreSpelled(l[1..]);
      AttributeIsSpelled(l[0]);
      assert l == [l[0]] + l[1..];
      var m := SpellAttributes(l);
      assert m[1..] == SpellAttributes(l[1..]) && m[0] == SpellAttribute(l[0]);
      OneSpace(m[0], PrintAttributes(l[1..]));
      OneMoreAttribute(m);
    }
  }

  lemma OneSpace(a: SpelledAttribute, y: seq<char>)
    ensures " " + (WriteBody(a) + y) == (" " + WriteBody(a)) + y
  {
    hide WriteBody;
  }

  lemma OneMoreAttribute(m: seq<SpelledAttribute>)
    requires m != [] && GoodAttribute(m[0]) && GoodAttributes(m[1..])
    ensures GoodAttributes(m)
  {
    hide GoodAttribute;
    forall a | a in m ensures GoodAttribute(a) {
      assert a == m[0] || a in m[1..];
    }
  }

  lemma AttributeIsSpelled(a: Attribute)
    requires ValidName(a.name) && ValidValue(a.value)
    ensures var s := SpellAttribute(a);
            " " + WriteBody(s) == PrintAttribute(a) && AttributeOf(s) == a && GoodAttribute(s) && s.space == " "
  {
    hide EscapeText, ValidName, Decode;
    var raw := EscapeText(a.value, true);
    assert " " + WriteBody(SpellAttribute(a)) == " " + a.name + ['=', '"'] + raw + ['"'];
    EscapedValue(a.value, true);
  }

  /** What was escaped is decoded to what it was, and holds no delimiter. */
  lemma EscapedValue(v: seq<char>, attribute: bool)
    requires forall c | c in v :: Keepable(c, attribute)
    ensures var raw := EscapeText(v, attribute);
            && ValueOf(raw, if attribute then Convert else Lines, StopOf(attribute)) == v
            && forall c | c in raw :: c != StopOf(attribute) && c != '<' && c != '\0'
  {
    hide EscapeText, Decode, Harmless;
    var raw := EscapeText(v, attribute);
    var t := raw + [StopOf(attribute)];
    assert t[0..0 + |raw|] == raw;
    EscapeThenDecode(t, 0, v, attribute);
    forall c | c in raw ensures c != StopOf(attribute) && c != '<' && c != '\0' {
      var k: nat :| k < |raw| && raw[k] == c;
      EscapedIsHarmless(v, attribute, k);
      HarmlessIs(c, attribute);
    }
  }

  lemma HarmlessIs(c: char, attribute: bool)
    requires Harmless(c, attribute)
    ensures c != StopOf(attribute) && c != '<' && c != '\0'
  {
  }

  lemma {:induction false} TreeIsSpelled(t: Tree)
    requires ValidTree(t)
    ensures Write(Spell(t)) == Print(t) && Meaning(Spell(t)) == [t] && Good(Spell(t)) && Matched(Spell(t))
    ensures t.Element? <==> Spell(t).SpelledElement?
    decreases t, 1
  {
    hide EscapeText, ValidName, ValidText, PrintAttributes, WriteAttributes, GoodAttributes, ValueOf;
    match t
    case Text(v) => TextIsSpelled(v);
    case Element(name, attributes, kids) =>
      AttributesAreSpelled(attributes);
      TreesAreSpelled(kids);
      NothingSpelled(name);
      StartIsSpelled(name, attributes, kids == []);
      assert WriteEnd(name, "") == EndTag(name);
  }

  lemma NothingSpelled(name: seq<char>)
    requires ValidName(name)
    ensures IsBlank("") && SpellAll([]) == [] && IsWord(name)
  {
  }

  lemma StartIsSpelled(name: seq<char>, attributes: seq<Attribute>, empty: bool)
    requires WriteAttributes(SpellAttributes(attributes)) == PrintAttributes(attributes)
    ensures WriteStart(name, SpellAttributes(attributes), "", empty) == StartTag(name, attributes, empty)
  {
    hide WriteAttributes, PrintAttributes;
    assert "<" + (name + (PrintAttributes(attributes) + ("" + Close(empty)))) == "<" + name + PrintAttributes(attributes) + Close(empty);
  }

  lemma TextIsSpelled(v: seq<char>)
    requires ValidText(v)
    ensures GoodText(EscapeText(v, false)) && ValueOf(EscapeText(v, false), Lines, '<') == v
  {
    hide EscapeText, ValueOf;
    EscapedValue(v, false);
    NotBlank(v);
    var raw := EscapeText(v, false);
    var k: nat :| k < |raw| && !IsSpace(raw[k]);
    assert raw[k] in raw;
  }

  /** A character of the text that is not white space stays, or becomes a reference; either way the text is not blank. */
  lemma {:induction false} NotBlank(v: seq<char>)
    requires exists c :: c in v && !IsSpace(c)
    ensures exists k: nat :: k < |EscapeText(v, false)| && !IsSpace(EscapeText(v, false)[k])
  {
    var w, x, y := EscapeText(v, false), EscapeChar(v[0], false), EscapeText(v[1..], false);
    assert w == x + y;
    if !IsSpace(v[0]) {
      assert !IsSpace(w[0]);
    } else {
      var c :| c in v && !IsSpace(c);
      assert v == [v[0]] + v[1..];
      assert c in v[1..];
      NotBlank(v[1..]);
      var k: nat :| k < |y| && !IsSpace(y[k]);
      assert w[|x| + k] == y[k];
    }
  }

  lemma {:induction false} TreesAreSpelled(f: seq<Tree>)
    requires ValidAll(f)
    ensures WriteAll(SpellAll(f)) == PrintAll(f) && MeaningAll(SpellAll(f)) == f && GoodAll(SpellAll(f)) && MatchedAll(SpellAll(f))
    ensures |SpellAll(f)| == |f| && (f != [] ==> (SpellAll(f)[0].SpelledElement? <==> f[0].Element?))
    decreases f, 2
  {
    hide Spell, ValidTree, Write, Meaning, Good, Matched, Print;
    if f != [] {
      TreeIsSpelled(f[0]);
      TreesAreSpelled(f[1..]);
      var l := SpellAll(f);
      assert l[0] == Spell(f[0]) && l[1..] == SpellAll(f[1..]);
      assert f == [f[0]] + f[1..];
    }
  }

  /** What the printer writes of a document is a spelling of it. */
  lemma {:induction false} DocumentIsSpelled(f: seq<Tree>)
    requires ValidDocument(f)
    ensures WriteAll(SpellAll(f)) == PrintAll(f) && GoodAll(SpellAll(f)) && MatchedAll(SpellAll(f)) && Outline(SpellAll(f)) == f
    ensures |SpellAll(f)| == |f|
  {
    TreesAreSpelled(f);
    hide ValidAll, WriteAll, PrintAll, GoodAll, MatchedAll, Spell;
    OutlineIsMeaning(f);
  }

  lemma {:induction false} OutlineIsMeaning(f: seq<Tree>)
    requires ValidAll(f) && forall t | t in f :: t.Element?
    ensures Outline(SpellAll(f)) == f
  {
    if f != [] {
      assert f[0] in f;
      TreeIsSpelled(f[0]);
      forall t | t in f[1..] ensures t in f {
      }
      OutlineIsMeaning(f[1..]);
      hide Spell, Meaning, ValidAll;
      var l := SpellAll(f);
      assert l[0] == Spell(f[0]) && l[1..] == SpellAll(f[1..]);
      assert f == [f[0]] + f[1..];
    }
  }
}
