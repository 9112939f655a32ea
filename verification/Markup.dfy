/**
  Elements, attributes and texts, and how xml/pugixml.cpp writes them in raw format.
*/
module Markup {
  import opened Common
  import opened References
  import opened TextDecoding
  import opened TextNormalization

  datatype Attribute = Attribute(name: seq<char>, value: seq<char>)

  datatype Tree = Element(name: seq<char>, attributes: seq<Attribute>, kids: seq<Tree>) | Text(value: seq<char>)

  // ----- text_output_escaped -----

  /** `ctx_special_pcdata` and `ctx_special_attr` of the chartypex table. */
  predicate Special(c: char, attribute: bool) {
    || c == '&' || c == '<' || c == '>' || (attribute && c == '"')
    || (c < ' ' && c != '\t' && (attribute || (c != '\n' && c != '\r')))
  }

  /** What is written for a special character; other control characters become a two-digit reference. */
  function Reference(c: char): seq<char>
    requires c < 100 as char
  {
    if c == '&' then "&amp;"
    else if c == '<' then "&lt;"
    else if c == '>' then "&gt;"
    else if c == '"' then "&quot;"
    else ['&', '#', (c as int / 10 + '0' as int) as char, (c as int % 10 + '0' as int) as char, ';']
  }

  function EscapeChar(c: char, attribute: bool): seq<char> {
    if Special(c, attribute) then Reference(c) else [c]
  }

  function EscapeText(v: seq<char>, attribute: bool): seq<char> {
    if v == [] then [] else EscapeChar(v[0], attribute) + EscapeText(v[1..], attribute)
  }

  // ----- node_output in raw format -----

  function PrintAttribute(a: Attribute): seq<char> {
    " " + a.name + ['=', '"'] + EscapeText(a.value, true) + ['"']
  }

  /** `node_output_attributes`. */
  function PrintAttributes(attributes: seq<Attribute>): seq<char> {
    if attributes == [] then [] else PrintAttribute(attributes[0]) + PrintAttributes(attributes[1..])
  }

  /** `node_output_start`; an element without children is closed at once. */
  function StartTag(name: seq<char>, attributes: seq<Attribute>, empty: bool): seq<char> {
    "<" + name + PrintAttributes(attributes) + if empty then "/>" else ">"
  }

  /** `node_output_end`. */
  function EndTag(name: seq<char>): seq<char> {
    "</" + name + ">"
  }

  function Print(t: Tree): seq<char> {
    match t
    case Text(v) => EscapeText(v, false)
    case Element(name, attributes, kids) =>
      StartTag(name, attributes, kids == []) + if kids == [] then [] else PrintAll(kids) + EndTag(name)
  }

  function PrintAll(f: seq<Tree>): seq<char> {
    if f == [] then [] else Print(f[0]) + PrintAll(f[1..])
  }

  // ----- what comes back when it is parsed -----

  /** ct_start_symbol and ct_symbol of the chartype table. */
  predicate IsStart(c: char) {
    'a' <= c <= 'z' || 'A' <= c <= 'Z' || c == '_' || c == ':' || c > 127 as char
  }

  predicate IsSymbol(c: char) {
    IsStart(c) || '0' <= c <= '9' || c == '-' || c == '.'
  }

  /** The names by character codes: letters, `_`, `:` and everything from 128 on, and behind the first also digits, `-` and `.`. */
  lemma NameCharacters(c: char)
    ensures IsStart(c) <==> var n := c as int; 65 <= n <= 90 || 97 <= n <= 122 || n in {58, 95} || n >= 128
    ensures IsSymbol(c) && !IsStart(c) <==> var n := c as int; 48 <= n <= 57 || n in {45, 46}
  {
  }

  predicate ValidName(name: seq<char>) {
    name != [] && IsStart(name[0]) && forall c | c in name :: IsSymbol(c)
  }

  /** Tabs would come back as spaces, and NUL ends a string. */
  predicate ValidValue(v: seq<char>) {
    forall c | c in v :: c != '\0' && c != '\t'
  }

  /** Blank texts are dropped, and a carriage return would come back as a line feed. */
  predicate ValidText(v: seq<char>) {
    (forall c | c in v :: c != '\0' && c != '\r') && exists c :: c in v && !IsSpace(c)
  }

  predicate ValidAttributes(attributes: seq<Attribute>) {
    forall a | a in attributes :: ValidName(a.name) && ValidValue(a.value)
  }

  predicate ValidTree(t: Tree) {
    match t
    case Text(v) => ValidText(v)
    case Element(name, attributes, kids) => ValidName(name) && ValidAttributes(attributes) && ValidAll(kids)
  }

  /** No two texts stand side by side. */
  predicate ValidAll(f: seq<Tree>) {
    f == [] || (ValidTree(f[0]) && ValidAll(f[1..]) && (|f| > 1 ==> f[0].Element? || f[1].Element?))
  }

  /** What a document can hold: elements. */
  predicate ValidDocument(f: seq<Tree>) {
    ValidAll(f) && forall t | t in f :: t.Element?
  }

  // ----- escaping is undone by decoding -----

  /** `x` stands at place `i` of `t`. */
  predicate Stands(t: seq<char>, i: nat, x: seq<char>) {
    i + |x| <= |t| && t[i..i + |x|] == x
  }

  lemma StandsParts(t: seq<char>, i: nat, x: seq<char>, y: seq<char>)
    requires Stands(t, i, x + y)
    ensures Stands(t, i, x) && Stands(t, i + |x|, y)
  {
    assert (x + y)[..|x|] == x && (x + y)[|x|..] == y;
    assert t[i..i + |x|] == t[i..i + |x + y|][..|x|];
    assert t[i + |x|..i + |x| + |y|] == t[i..i + |x + y|][|x|..];
  }

  lemma StandsAt(t: seq<char>, i: nat, x: seq<char>, k: nat)
    requires Stands(t, i, x) && k < |x|
    ensures t[i + k] == x[k]
  {
    assert t[i..i + |x|][k] == x[k];
  }

  /** Texts are read with parse_eol and parse_escapes, attribute values with parse_wconv_attribute and parse_escapes. */
  function ModeOf(attribute: bool): Mode {
    Mode(true, if attribute then Convert else Lines)
  }

  function StopOf(attribute: bool): char {
    if attribute then '"' else '<'
  }

  predicate Keepable(c: char, attribute: bool) {
    c != '\0' && c != if attribute then '\t' else '\r'
  }

  /** One character, escaped, is read as one item. */
  lemma EscapedChar(t: seq<char>, i: nat, c: char, attribute: bool)
    requires Keepable(c, attribute) && Stands(t, i, EscapeChar(c, attribute))
    ensures |EscapeChar(c, attribute)| > 0 && i < |t| && !Stops(t[i], StopOf(attribute))
    ensures Item(t, i, ModeOf(attribute)) == Match(|EscapeChar(c, attribute)|, [c])
  {
    var x := EscapeChar(c, attribute);
    StandsAt(t, i, x, 0);
    if Special(c, attribute) {
      EscapedReference(t, i, c);
    } else {
      NoReference(t, i);
    }
  }

  lemma EscapedReference(t: seq<char>, i: nat, c: char)
    requires c == '&' || c == '<' || c == '>' || c == '"' || c < ' '
    requires Stands(t, i, Reference(c))
    ensures i < |t| && t[i] == '&' && MatchRef(t, i) == Match(|Reference(c)|, [c])
  {
    var x := Reference(c);
    StandsAt(t, i, x, 0);
    StandsAt(t, i, x, 1);
    StandsAt(t, i, x, 2);
    StandsAt(t, i, x, 3);
    if c == '&' {
      StandsAt(t, i, x, 4);
    } else if c == '"' {
      StandsAt(t, i, x, 4);
      StandsAt(t, i, x, 5);
    } else if c < ' ' {
      StandsAt(t, i, x, 4);
      TwoDigits(t, i + 2, c);
    }
  }

  lemma TwoDigits(t: seq<char>, i: nat, c: char)
    requires c < ' ' && i + 2 < |t| && t[i] as int == c as int / 10 + '0' as int && t[i + 1] as int == c as int % 10 + '0' as int
    requires t[i + 2] == ';'
    ensures Digits(t, i, false) == 2 && Value(t, i, 2, 10) == c as int
  {
    assert Digits(t, i + 2, false) == 0;
    assert Digits(t, i + 1, false) == 1;
    assert Value(t, i, 0, 10) == 0;
    assert Value(t, i, 1, 10) == c as int / 10;
  }

  /** Decoding what was escaped gives it back, and stops behind it. */
  lemma {:induction false} EscapeThenDecode(t: seq<char>, i: nat, v: seq<char>, attribute: bool)
    requires forall c | c in v :: Keepable(c, attribute)
    requires Stands(t, i, EscapeText(v, attribute)) && i + |EscapeText(v, attribute)| < |t|
    requires t[i + |EscapeText(v, attribute)|] == StopOf(attribute)
    ensures Decode(t, i, ModeOf(attribute), StopOf(attribute)) == v
    ensures EndOf(t, i, StopOf(attribute)) == i + |EscapeText(v, attribute)|
    decreases |v|
  {
    hide Item, EscapeChar, Stands, Keepable;
    if v != [] {
      var x, y := EscapeChar(v[0], attribute), EscapeText(v[1..], attribute);
      StandsParts(t, i, x, y);
      EscapedChar(t, i, v[0], attribute);
      EscapeThenDecode(t, i + |x|, v[1..], attribute);
      ItemStays(t, i, ModeOf(attribute), StopOf(attribute));
      DecodeOne(t, i, ModeOf(attribute), StopOf(attribute));
      assert v == [v[0]] + v[1..];
    }
  }

  // ----- what escaped text looks like -----

  /** A character as it is printed: itself, a reference of the right number, or one of four entities. */
  lemma EscapedCharIs(c: char, attribute: bool)
    ensures var x := EscapeChar(c, attribute);
            && (c == '&' ==> x == "&amp;") && (c == '<' ==> x == "&lt;") && (c == '>' ==> x == "&gt;")
            && (c == '"' ==> x == if attribute then "&quot;" else ['"'])
            && (c == '\t' || (c >= ' ' && c !in {'&', '<', '>', '"'}) ==> x == [c])
            && (c == '\n' ==> x == if attribute then "&#10;" else [c])
            && (c == '\r' ==> x == if attribute then "&#13;" else [c])
            && (c < ' ' && c !in {'\t', '\n', '\r'} ==> |x| == 5 && x[..2] == "&#" && x[4] == ';')
  {
  }

  /** No markup: `<` and `>` never, `"` not in a value, control characters only where the parser keeps them. */
  predicate Harmless(c: char, attribute: bool) {
    c != '<' && c != '>' && (attribute ==> c != '"') && (c >= ' ' || c == '\t' || (!attribute && (c == '\n' || c == '\r')))
  }

  lemma HarmlessChar(c: char, attribute: bool, k: nat)
    requires k < |EscapeChar(c, attribute)|
    ensures Harmless(EscapeChar(c, attribute)[k], attribute) && (k > 0 ==> EscapeChar(c, attribute)[k] != '&')
    ensures EscapeChar(c, attribute)[0] == '&' ==> EscapeChar(c, attribute) == Reference(c) && (c == '&' || c == '<' || c == '>' || c == '"' || c < ' ')
  {
  }

  /** Escaped text holds no markup, and every `&` in it begins a reference. */
  lemma {:induction false} EscapedIsHarmless(v: seq<char>, attribute: bool, k: nat)
    requires k < |EscapeText(v, attribute)|
    ensures var e := EscapeText(v, attribute); Harmless(e[k], attribute) && (e[k] == '&' ==> MatchRef(e, k).len > 0)
  {
    hide EscapeChar, Harmless, MatchRef, Stands, Reference;
    var e, x, y := EscapeText(v, attribute), EscapeChar(v[0], attribute), EscapeText(v[1..], attribute);
    assert e == x + y;
    if k < |x| {
      HarmlessChar(v[0], attribute, k);
      if x[k] == '&' {
        ItStands(e, x, y);
        EscapedReference(e, 0, v[0]);
      }
    } else {
      EscapedIsHarmless(v[1..], attribute, k - |x|);
      if y[k - |x|] == '&' { RefBehind(x, y, k - |x|); }
    }
  }

  lemma ItStands(e: seq<char>, x: seq<char>, y: seq<char>)
    requires e == x + y
    ensures Stands(e, 0, x)
  {
  }

  /** What stands before a reference does not matter. */
  lemma RefBehind(x: seq<char>, y: seq<char>, k: nat)
    ensures MatchRef(x + y, |x| + k) == MatchRef(y, k)
  {
    if k <= |y| {
      var t, i := x + y, |x| + k;
      assert t[i..i + (|y| - k)] == y[k..k + (|y| - k)];
      SameMatch(t, i, y, k, |y| - k);
    }
  }
}
