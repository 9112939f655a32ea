/**
  `node_output` of xml/pugixml.cpp in raw format: a loop over the node links that writes start tags on the way
  down and end tags on the way up.
*/
module MarkupPrinter {
  import opened Dom
  import opened Markup

  /** A document, an element or a text; other kinds of nodes are not part of this model. */
  datatype Data = DocumentNode | ElementNode(name: seq<char>, attributes: seq<Attribute>) | TextNode(value: seq<char>)

  ghost function TreeOf(d: Data, kids: seq<Tree>): Tree {
    match d
    case ElementNode(name, attributes) => Element(name, attributes, kids)
    case TextNode(value) => Text(value)
    case DocumentNode => Element([], [], kids)
  }

  /** The trees that a forest of nodes stands for. */
  ghost function ToTrees(f: Forest, data: seq<Data>): seq<Tree> {
    if f.Nil? || f.id >= |data| then []
    else [TreeOf(data[f.id], ToTrees(f.kids, data))] + ToTrees(f.rest, data)
  }

  /** Elements, and texts without children. */
  ghost predicate Printable(f: Forest, data: seq<Data>) {
    f.Cons? ==>
      && f.id < |data| && !data[f.id].DocumentNode? && (data[f.id].TextNode? ==> f.kids.Nil?)
      && Printable(f.kids, data) && Printable(f.rest, data)
  }

  /** What comes before the children of a node, and behind them. */
  ghost function Opening(d: Data, empty: bool): seq<char> {
    match d
    case ElementNode(name, attributes) => StartTag(name, attributes, empty)
    case TextNode(value) => EscapeText(value, false)
    case DocumentNode => []
  }

  ghost function Closing(d: Data): seq<char> {
    if d.ElementNode? then EndTag(d.name) else []
  }

  ghost function Whole(f: Forest, data: seq<Data>): seq<char>
    requires f.Cons? && Printable(f, data)
  {
    Print(TreeOf(data[f.id], ToTrees(f.kids, data)))
  }

  /** What has been written when node `x` is reached, and when it is finished. */
  ghost function Before(f: Forest, data: seq<Data>, x: nat): seq<char>
    requires Printable(f, data) && x in Ids(f)
  {
    if x == f.id then []
    else if x in Ids(f.kids) then Opening(data[f.id], false) + Before(f.kids, data, x)
    else Whole(f, data) + Before(f.rest, data, x)
  }

  ghost function After(f: Forest, data: seq<Data>, x: nat): seq<char>
    requires Printable(f, data) && x in Ids(f)
  {
    if x == f.id then Whole(f, data)
    else if x in Ids(f.kids) then Opening(data[f.id], false) + After(f.kids, data, x)
    else Whole(f, data) + After(f.rest, data, x)
  }

  lemma WholeIs(f: Forest, data: seq<Data>)
    requires f.Cons? && Printable(f, data)
    ensures f.kids.Nil? ==> Whole(f, data) == Opening(data[f.id], true)
    ensures f.kids.Cons? ==> Whole(f, data) == Opening(data[f.id], false) + PrintAll(ToTrees(f.kids, data)) + Closing(data[f.id])
    ensures f.kids.Cons? ==> data[f.id].ElementNode?
    ensures PrintAll(ToTrees(f, data)) == Whole(f, data) + PrintAll(ToTrees(f.rest, data))
  {
    hide StartTag, EscapeText, EndTag;
    if f.kids.Nil? {
      if data[f.id].ElementNode? {
        var d := data[f.id];
        assert StartTag(d.name, d.attributes, true) + [] == StartTag(d.name, d.attributes, true);
      }
    } else {
      assert ToTrees(f.kids, data) != [];
      var d := data[f.id];
      var inner := PrintAll(ToTrees(f.kids, data));
      assert StartTag(d.name, d.attributes, false) + (inner + EndTag(d.name)) == StartTag(d.name, d.attributes, false) + inner + EndTag(d.name);
    }
    var w, r := TreeOf(data[f.id], ToTrees(f.kids, data)), ToTrees(f.rest, data);
    assert ([w] + r)[1..] == r;
  }

  /** Going down, on and up, in terms of what has been written. */
  lemma {:induction false} PrintFacts(ns: Arena, data: seq<Data>, f: Forest, parent: Ref, prev: Ref, x: nat)
    requires Linked(ns, f, parent, prev) && Separate(f) && x in Ids(f) && Printable(f, data)
    ensures x < |ns| && x < |data| && !data[x].DocumentNode?
    ensures var c := ns[x].firstChild;
            if c == NULL then After(f, data, x) == Before(f, data, x) + Opening(data[x], true)
            else c >= 0 && c in Ids(f) && data[x].ElementNode? && Before(f, data, c) == Before(f, data, x) + Opening(data[x], false)
    ensures var y := ns[x].next;
            y != NULL ==> y >= 0 && y in Ids(f) && Before(f, data, y) == After(f, data, x)
    ensures ns[x].next == NULL && Depth(f, x) == 0 ==> After(f, data, x) == PrintAll(ToTrees(f, data))
    ensures ns[x].next == NULL && Depth(f, x) > 0 ==>
              var p := ns[x].parent;
              0 <= p < |data| && p in Ids(f) && data[p].ElementNode? && After(f, data, p) == After(f, data, x) + Closing(data[p])
  {
    hide StartTag, EscapeText, EndTag, Whole, Opening, Closing, ToTrees, PrintAll;
    WholeIs(f, data);
    if x == f.id {
      NoTrees(data);
      if f.kids.Nil? { assert [] + Opening(data[x], true) == Opening(data[x], true); }
      if f.kids.Cons? { assert Opening(data[x], false) + [] == [] + Opening(data[x], false); }
      if f.rest.Cons? { assert Whole(f, data) + [] == Whole(f, data); }
      if f.rest.Nil? { assert Whole(f, data) + [] == Whole(f, data); }
    } else if x in Ids(f.kids) {
      PrintFacts(ns, data, f.kids, f.id, Last(f.kids), x);
      ParentFacts(ns, f.kids, f.id, Last(f.kids), x);
      var o := Opening(data[f.id], false);
      Assoc(o, Before(f.kids, data, x), Opening(data[x], ns[x].firstChild == NULL));
      Assoc(o, After(f.kids, data, x), Closing(data[if ns[x].parent >= 0 && ns[x].parent < |data| then ns[x].parent else x]));
    } else {
      PrintFacts(ns, data, f.rest, parent, f.id, x);
      var w := Whole(f, data);
      Assoc(w, Before(f.rest, data, x), Opening(data[x], ns[x].firstChild == NULL));
      Assoc(w, After(f.rest, data, x), Closing(data[if ns[x].parent >= 0 && ns[x].parent < |data| then ns[x].parent else x]));
    }
  }

  lemma NoTrees(data: seq<Data>)
    ensures PrintAll(ToTrees(Nil, data)) == []
  {
  }

  lemma Assoc(a: seq<char>, b: seq<char>, c: seq<char>)
    ensures a + (b + c) == a + b + c
  {
  }

  // ----- the loop -----

  /** What the printing of a document relies on. */
  ghost predicate Ready(ns: Arena, data: seq<Data>, root: nat, f: Forest) {
    && |data| == |ns| && root < |ns| && data[root].DocumentNode? && root !in Ids(f)
    && Linked(ns, f, root, Last(f)) && Separate(f) && Printable(f, data) && ns[root].firstChild == First(f)
  }

  /** The loop is at the beginning of a node, or at the end of one, or through. */
  ghost predicate AtNode(ns: Arena, data: seq<Data>, root: nat, f: Forest, node: Ref, out: seq<char>) {
    && Printable(f, data) && 0 <= node < |ns| == |data|
    && (node != root ==> node in Ids(f) && out == Before(f, data, node)) && (node == root ==> out == [])
  }

  ghost predicate Behind(ns: Arena, data: seq<Data>, root: nat, f: Forest, node: Ref, out: seq<char>) {
    && Printable(f, data) && 0 <= node < |ns| == |data|
    && (node != root ==> node in Ids(f) && out == After(f, data, node))
    && (node == root ==> out == PrintAll(ToTrees(f, data)))
  }

  lemma GoDown(ns: Arena, data: seq<Data>, root: nat, f: Forest, node: nat, out: seq<char>)
    requires Ready(ns, data, root, f) && AtNode(ns, data, root, f, node, out)
    ensures var c := ns[node].firstChild;
            if c != NULL then
              && !data[node].TextNode? && c != root && AtNode(ns, data, root, f, c, out + Opening(data[node], false))
              && (node != root ==> Pos(f, c) > Pos(f, node))
            else Behind(ns, data, root, f, node, out + Opening(data[node], true))
  {
    hide Opening, Whole, Closing;
    if node == root {
      RootOpens(ns, data, root, f);
    } else {
      PrintFacts(ns, data, f, root, Last(f), node);
      ChildFacts(ns, f, root, Last(f), node);
    }
  }

  lemma RootOpens(ns: Arena, data: seq<Data>, root: nat, f: Forest)
    requires Ready(ns, data, root, f)
    ensures Opening(data[root], true) == [] && Opening(data[root], false) == []
    ensures f.Cons? ==> f.id in Ids(f) && f.id < |ns| && Before(f, data, f.id) == [] && Pos(f, f.id) == 0
    ensures f.Nil? ==> PrintAll(ToTrees(f, data)) == []
  {
  }

  lemma GoOn(ns: Arena, data: seq<Data>, root: nat, f: Forest, node: nat, out: seq<char>)
    requires Ready(ns, data, root, f) && Behind(ns, data, root, f, node, out) && node != root
    ensures var y := ns[node].next;
            if y != NULL then y != root && AtNode(ns, data, root, f, y, out) && Pos(f, y) >= End(f, node)
            else
              && 0 <= ns[node].parent < |ns| && Behind(ns, data, root, f, ns[node].parent, out + Closing(data[ns[node].parent]))
              && (ns[node].parent != root ==> data[ns[node].parent].ElementNode? && Depth(f, ns[node].parent) < Depth(f, node)
                                              && End(f, ns[node].parent) == End(f, node))
  {
    hide Opening, Whole;
    PrintFacts(ns, data, f, root, Last(f), node);
    ParentFacts(ns, f, root, Last(f), node);
    NextFacts(ns, f, root, Last(f), node);
    if ns[node].next == NULL && Depth(f, node) == 0 { assert out + [] == out; }
  }

  /** The inner loop: on to the next sibling, or up, writing end tags. */
  method Climb(ns: Arena, data: seq<Data>, root: nat, from: nat, text: seq<char>, ghost f: Forest)
    returns (node: nat, out: seq<char>)
    requires Ready(ns, data, root, f) && Behind(ns, data, root, f, from, text)
    ensures node < |ns|
    ensures node == root ==> out == PrintAll(ToTrees(f, data))
    ensures node != root ==> AtNode(ns, data, root, f, node, out) && from in Ids(f) && node in Ids(f) && Pos(f, node) >= End(f, from)
  {
    hide Ready, Opening, Whole, Before, After, Pos, End, Ids, Depth, ToTrees, Printable, PrintAll;
    node, out := from, text;
    while node != root
      invariant Behind(ns, data, root, f, node, out) && (node != root ==> from in Ids(f) && End(f, node) == End(f, from))
      decreases if node == root || node !in Ids(f) then 0 else Depth(f, node) + 1
    {
      GoOn(ns, data, root, f, node, out);
      if ns[node].next != NULL {
        node := ns[node].next;
        return;
      }
      node := ns[node].parent;
      if data[node].ElementNode? {
        out := out + EndTag(data[node].name);
      } else {
        assert out + [] == out;
      }
    }
  }

  /** `node_output` from a document node. */
  method NodeOutput(ns: Arena, data: seq<Data>, root: nat, ghost f: Forest) returns (out: seq<char>)
    requires Ready(ns, data, root, f)
    ensures out == PrintAll(ToTrees(f, data))
  {
    hide Ready, Whole, Before, After, Pos, End, Ids, Depth, ToTrees, Printable, PrintAll, Preorder;
    out := [];
    var node := root;
    Lengths(ns, data, root, f);
    while true
      invariant AtNode(ns, data, root, f, node, out)
      decreases if node == root || node !in Ids(f) then |Preorder(f)| + 1 else |Preorder(f)| - Pos(f, node)
    {
      GoDown(ns, data, root, f, node, out);
      ghost var before := node;
      match data[node] {
        case TextNode(value) => out := out + EscapeText(value, false);
        case ElementNode(name, attributes) => out := out + StartTag(name, attributes, ns[node].firstChild == NULL);
        case DocumentNode => assert out + [] == out;
      }
      if ns[node].firstChild != NULL {
        node := ns[node].firstChild;
        continue;
      }
      node, out := Climb(ns, data, root, node, out, f);
      if node == root {
        return;
      }
    }
  }

  lemma Lengths(ns: Arena, data: seq<Data>, root: nat, f: Forest)
    requires Ready(ns, data, root, f)
    ensures root < |ns| == |data| && Printable(f, data)
  {
  }
}
