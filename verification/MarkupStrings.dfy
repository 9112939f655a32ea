/**
  The strings of a document that xml/pugixml.cpp has parsed: they stay in the buffer, decoded in place and ended by
  NUL, and the nodes only know where they begin.
 */
module MarkupStrings {
  import opened Common
  import opened References
  import opened TextDecoding
  import opened TextNormalization
  import opened Markup

  datatype Attr = Attr(nameAt: nat, valueAt: nat)

  datatype Node = ElementNode(nameAt: nat, attributes: seq<Attr>, kids: seq<Node>) | TextNode(valueAt: nat)

  // ----- reading the strings -----

  /** The C string at a place of the buffer. */
  function CString(b: seq<char>, at: nat): seq<char>
    decreases |b| - at
  {
    if at >= |b| || b[at] == '\0' then [] else [b[at]] + CString(b, at + 1)
  }

  function LoadAttributes(b: seq<char>, l: seq<Attr>): seq<Attribute> {
    if l == [] then [] else [Attribute(CString(b, l[0].nameAt), CString(b, l[0].valueAt))] + LoadAttributes(b, l[1..])
  }

  function Load(b: seq<char>, n: Node): Tree {
    match n
    case TextNode(v) => Text(CString(b, v))
    case ElementNode(name, attributes, kids) => Element(CString(b, name), LoadAttributes(b, attributes), LoadAll(b, kids))
  }

  function LoadAll(b: seq<char>, l: seq<Node>): seq<Tree> {
    if l == [] then [] else [Load(b, l[0])] + LoadAll(b, l[1..])
  }

  // ----- what a buffer holds below a place -----

  /** `x` stands at place `at`, ended by NUL, all below place `hi`. */
  ghost predicate At(b: seq<char>, hi: nat, at: nat, x: seq<char>) {
    at + |x| < hi <= |b| && b[at..at + |x|] == x && b[at + |x|] == '\0'
  }

  ghost predicate AttrIs(b: seq<char>, hi: nat, n: Attr, a: Attribute) {
    At(b, hi, n.nameAt, a.name) && At(b, hi, n.valueAt, a.value)
  }

  ghost predicate AttrsAre(b: seq<char>, hi: nat, l: seq<Attr>, m: seq<Attribute>) {
    |l| == |m| && forall k: nat | k < |l| :: AttrIs(b, hi, l[k], m[k])
  }

  ghost predicate NodeIs(b: seq<char>, hi: nat, n: Node, t: Tree) {
    match n
    case TextNode(v) => t.Text? && At(b, hi, v, t.value)
    case ElementNode(name, attributes, kids) =>
      t.Element? && At(b, hi, name, t.name) && AttrsAre(b, hi, attributes, t.attributes) && NodesAre(b, hi, kids, t.kids)
  }

  ghost predicate NodesAre(b: seq<char>, hi: nat, l: seq<Node>, f: seq<Tree>) {
    |l| == |f| && forall k: nat | k < |l| :: NodeIs(b, hi, l[k], f[k])
  }

  /** Nothing below place `lo` has changed. */
  ghost predicate Kept(b: seq<char>, b': seq<char>, lo: nat) {
    |b'| == |b| && forall k: nat | k < lo && k < |b| :: b'[k] == b[k]
  }

  lemma AtKept(b: seq<char>, hi: nat, b': seq<char>, hi': nat, at: nat, x: seq<char>)
    requires At(b, hi, at, x) && Kept(b, b', hi) && hi <= hi' <= |b|
    ensures At(b', hi', at, x)
  {
  }

  lemma AttrsKept(b: seq<char>, hi: nat, b': seq<char>, hi': nat, l: seq<Attr>, m: seq<Attribute>)
    requires AttrsAre(b, hi, l, m) && Kept(b, b', hi) && hi <= hi' <= |b|
    ensures AttrsAre(b', hi', l, m)
  {
    hide At, Kept;
    forall k: nat | k < |l| ensures AttrIs(b', hi', l[k], m[k]) {
      AtKept(b, hi, b', hi', l[k].nameAt, m[k].name);
      AtKept(b, hi, b', hi', l[k].valueAt, m[k].value);
    }
  }

  lemma {:induction false} NodeKept(b: seq<char>, hi: nat, b': seq<char>, hi': nat, n: Node, t: Tree)
    requires NodeIs(b, hi, n, t) && Kept(b, b', hi) && hi <= hi' <= |b|
    ensures NodeIs(b', hi', n, t)
  {
    hide At, Kept, AttrsAre;
    match n
    case TextNode(v) => AtKept(b, hi, b', hi', v, t.value);
    case ElementNode(name, attributes, kids) =>
      AtKept(b, hi, b', hi', name, t.name);
      AttrsKept(b, hi, b', hi', attributes, t.attributes);
      NodesKept(b, hi, b', hi', kids, t.kids);
  }

  lemma {:induction false} NodesKept(b: seq<char>, hi: nat, b': seq<char>, hi': nat, l: seq<Node>, f: seq<Tree>)
    requires NodesAre(b, hi, l, f) && Kept(b, b', hi) && hi <= hi' <= |b|
    ensures NodesAre(b', hi', l, f)
  {
    hide At, Kept, AttrsAre;
    forall k: nat | k < |l| ensures NodeIs(b', hi', l[k], f[k]) {
      NodeKept(b, hi, b', hi', l[k], f[k]);
    }
  }

  // ----- reading them gives the tree -----

  predicate Clean(x: seq<char>) {
    forall c | c in x :: c != '\0'
  }

  lemma {:induction false} CStringIs(b: seq<char>, hi: nat, at: nat, x: seq<char>)
    requires At(b, hi, at, x) && Clean(x)
    ensures CString(b, at) == x
    decreases |x|
  {
    if x != [] {
      assert b[at] == b[at..at + |x|][0] == x[0] && x[0] in x;
      assert b[at + 1..at + |x|] == b[at..at + |x|][1..];
      assert forall c | c in x[1..] :: c in x;
      CStringIs(b, hi, at + 1, x[1..]);
    }
  }

  /** No string of the tree holds NUL, as a reference to it would give. */
  predicate CleanTree(t: Tree) {
    match t
    case Text(v) => Clean(v)
    case Element(name, attributes, kids) => Clean(name) && CleanAttributes(attributes) && CleanAll(kids)
  }

  predicate CleanAttributes(m: seq<Attribute>) {
    forall a | a in m :: Clean(a.name) && Clean(a.value)
  }

  predicate CleanAll(f: seq<Tree>) {
    f == [] || (CleanTree(f[0]) && CleanAll(f[1..]))
  }

  lemma {:induction false} AttributesLoad(b: seq<char>, hi: nat, l: seq<Attr>, m: seq<Attribute>)
    requires AttrsAre(b, hi, l, m) && CleanAttributes(m)
    ensures LoadAttributes(b, l) == m
  {
    hide At, CString, Clean;
    if l != [] {
      assert m[0] in m && AttrIs(b, hi, l[0], m[0]);
      CStringIs(b, hi, l[0].nameAt, m[0].name);
      CStringIs(b, hi, l[0].valueAt, m[0].value);
      forall k: nat | k < |l[1..]| ensures AttrIs(b, hi, l[1..][k], m[1..][k]) {
        assert AttrIs(b, hi, l[k + 1], m[k + 1]);
      }
      forall a | a in m[1..] ensures a in m {
      }
      AttributesLoad(b, hi, l[1..], m[1..]);
      assert m == [m[0]] + m[1..];
    }
  }

  /** The strings that the nodes point to are those of the tree. */
  lemma {:induction false} TreeLoads(b: seq<char>, hi: nat, n: Node, t: Tree)
    requires NodeIs(b, hi, n, t) && CleanTree(t)
    ensures Load(b, n) == t
    decreases n, 0
  {
    hide At, CString, Clean, CleanAttributes, AttrsAre;
    match n
    case TextNode(v) => CStringIs(b, hi, v, t.value);
    case ElementNode(name, attributes, kids) =>
      CStringIs(b, hi, name, t.name);
      AttributesLoad(b, hi, attributes, t.attributes);
      TreesLoad(b, hi, kids, t.kids);
  }

  lemma {:induction false} TreesLoad(b: seq<char>, hi: nat, l: seq<Node>, f: seq<Tree>)
    requires NodesAre(b, hi, l, f) && CleanAll(f)
    ensures LoadAll(b, l) == f
    decreases l, 1
  {
    hide At, CString, Clean, AttrsAre, CleanTree;
    if l != [] {
      assert NodeIs(b, hi, l[0], f[0]);
      TreeLoads(b, hi, l[0], f[0]);
      forall k: nat | k < |l[1..]| ensures NodeIs(b, hi, l[1..][k], f[1..][k]) {
        assert NodeIs(b, hi, l[k + 1], f[k + 1]);
      }
      TreesLoad(b, hi, l[1..], f[1..]);
      assert f == [f[0]] + f[1..];
    }
  }

  lemma {:induction false} ValidTreeIsClean(t: Tree)
    requires ValidTree(t)
    ensures CleanTree(t)
    decreases t, 0
  {
    match t
    case Text(v) =>
    case Element(name, attributes, kids) => ValidIsClean(kids);
  }

  /** What can be printed holds no NUL. */
  lemma {:induction false} ValidIsClean(f: seq<Tree>)
    requires ValidAll(f)
    ensures CleanAll(f)
    decreases f, 1
  {
    if f != [] {
      ValidTreeIsClean(f[0]);
      ValidIsClean(f[1..]);
    }
  }

  // ----- what lies ahead -----

  /** From place `i` on the buffer still holds the document `s`. */
  ghost predicate Ahead(b: seq<char>, s: seq<char>, i: nat) {
    |b| == |s| && forall k: nat | i <= k < |s| :: b[k] == s[k]
  }

  lemma AheadAt(b: seq<char>, s: seq<char>, i: nat, k: nat)
    requires Ahead(b, s, i) && i <= k < |s|
    ensures |b| == |s| && b[k] == s[k] && Ahead(b, s, k)
  {
  }

  lemma RefAhead(b: seq<char>, s: seq<char>, i: nat)
    requires Ahead(b, s, i)
    ensures MatchRef(b, i) == MatchRef(s, i)
  {
    if i <= |s| {
      assert b[i..] == s[i..];
      assert b[i..i + (|s| - i)] == b[i..] && s[i..i + (|s| - i)] == s[i..];
      SameMatch(b, i, s, i, |s| - i);
    }
  }

  lemma {:induction false} SpacesAhead(b: seq<char>, s: seq<char>, i: nat)
    requires Ahead(b, s, i)
    ensures Spaces(b, i) == Spaces(s, i)
    decreases |s| - i
  {
    if i < |s| { SpacesAhead(b, s, i + 1); }
  }

  lemma ItemAhead(b: seq<char>, s: seq<char>, i: nat, mode: Mode)
    requires Ahead(b, s, i) && i < |s|
    ensures Item(b, i, mode) == Item(s, i, mode)
  {
    hide MatchRef, Spaces;
    RefAhead(b, s, i);
    SpacesAhead(b, s, i);
  }

  /** Decoding depends only on what lies ahead. */
  lemma {:induction false} DecodeAhead(b: seq<char>, s: seq<char>, i: nat, mode: Mode, stop: char)
    requires Ahead(b, s, i) && i <= |s|
    ensures Decode(b, i, mode, stop) == Decode(s, i, mode, stop)
    decreases |s| - i
  {
    hide Item;
    if i < |s| && !Stops(s[i], stop) {
      ItemAhead(b, s, i, mode);
      DecodeAhead(b, s, i + Item(s, i, mode).len, mode, stop);
    }
  }

  lemma {:induction false} EndAhead(b: seq<char>, s: seq<char>, i: nat, stop: char)
    requires Ahead(b, s, i) && i <= |s|
    ensures EndOf(b, i, stop) == EndOf(s, i, stop)
    decreases |s| - i
  {
    if i < |s| { EndAhead(b, s, i + 1, stop); }
  }
}
