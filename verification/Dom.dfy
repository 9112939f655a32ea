/**
  The node links of xml/pugixml.cpp: a parent, a first child, a next sibling, and a previous sibling that is
  cyclic (a first child's `prev` is the last child).  Nodes are indices into an arena; NULL is -1.
  A `Forest` is the tree of nodes that links of this kind spell out.
*/
module Dom {

  type Ref = int

  const NULL: Ref := -1

  datatype Links = Links(parent: Ref, firstChild: Ref, next: Ref, prevC: Ref)

  type Arena = seq<Links>

  /** Siblings from some node on, each with its children. */
  datatype Forest = Nil | Cons(id: nat, kids: Forest, rest: Forest)

  function First(f: Forest): Ref {
    if f.Nil? then NULL else f.id
  }

  function Last(f: Forest): Ref {
    if f.Nil? then NULL else if f.rest.Nil? then f.id else Last(f.rest)
  }

  /** The links of all nodes of `f` are what its shape says; `prev` is the first one's previous sibling. */
  predicate Linked(ns: Arena, f: Forest, parent: Ref, prev: Ref) {
    match f
    case Nil => true
    case Cons(id, kids, rest) =>
      && id < |ns|
      && ns[id] == Links(parent, First(kids), First(rest), prev)
      && Linked(ns, kids, id, Last(kids))
      && Linked(ns, rest, parent, id)
  }

  /** The nodes of a forest in document order. */
  function Preorder(f: Forest): seq<nat> {
    match f
    case Nil => []
    case Cons(id, kids, rest) => [id] + Preorder(kids) + Preorder(rest)
  }

  function Ids(f: Forest): set<nat> {
    match f
    case Nil => {}
    case Cons(id, kids, rest) => {id} + Ids(kids) + Ids(rest)
  }

  /** No node occurs twice. */
  predicate Separate(f: Forest) {
    match f
    case Nil => true
    case Cons(id, kids, rest) =>
      && id !in Ids(kids) && id !in Ids(rest) && Ids(kids) !! Ids(rest)
      && Separate(kids) && Separate(rest)
  }

  /** The arena spells out a document with the given root. */
  predicate IsTree(ns: Arena, t: Forest) {
    t.Cons? && t.rest.Nil? && Linked(ns, t, NULL, t.id) && Separate(t)
  }

  /** The position of a node in document order. */
  function Pos(f: Forest, x: nat): (p: nat)
    requires x in Ids(f)
    ensures p < |Preorder(f)| && Preorder(f)[p] == x
  {
    if x == f.id then 0
    else if x in Ids(f.kids) then 1 + Pos(f.kids, x)
    else 1 + |Preorder(f.kids)| + Pos(f.rest, x)
  }

  /** The position after the last descendant of a node. */
  function End(f: Forest, x: nat): (e: nat)
    requires x in Ids(f)
    ensures Pos(f, x) < e <= |Preorder(f)|
  {
    if x == f.id then 1 + |Preorder(f.kids)|
    else if x in Ids(f.kids) then 1 + End(f.kids, x)
    else 1 + |Preorder(f.kids)| + End(f.rest, x)
  }

  /** The number of ancestors of a node within the forest. */
  function Depth(f: Forest, x: nat): nat
    requires x in Ids(f)
  {
    if x == f.id then 0
    else if x in Ids(f.kids) then 1 + Depth(f.kids, x)
    else Depth(f.rest, x)
  }

  /** `Pos` is the only position of its node. */
  lemma {:induction false} PosUnique(f: Forest, p: nat)
    requires Separate(f) && p < |Preorder(f)|
    ensures Preorder(f)[p] in Ids(f) && Pos(f, Preorder(f)[p]) == p
  {
    var k := |Preorder(f.kids)|;
    if p == 0 {
    } else if p < 1 + k {
      PosUnique(f.kids, p - 1);
      assert Preorder(f)[p] == Preorder(f.kids)[p - 1];
    } else {
      PosUnique(f.rest, p - 1 - k);
      assert Preorder(f)[p] == Preorder(f.rest)[p - 1 - k];
    }
  }

  lemma DifferentNodesDifferentPos(f: Forest, x: nat, y: nat)
    requires x in Ids(f) && y in Ids(f)
    ensures Pos(f, x) == Pos(f, y) <==> x == y
  {
  }

  // ----- what each link means in terms of positions -----

  lemma {:induction false} LastEnds(f: Forest)
    requires f.Cons? && Separate(f)
    ensures Last(f) >= 0 && Last(f) in Ids(f) && End(f, Last(f)) == |Preorder(f)| && Depth(f, Last(f)) == 0
    ensures Last(f) == f.id <==> f.rest.Nil?
  {
    if f.rest.Cons? { LastEnds(f.rest); }
  }

  /** A node's parent link leads to the node that encloses it, one level up. */
  lemma {:induction false} ParentFacts(ns: Arena, f: Forest, parent: Ref, prev: Ref, x: nat)
    requires Linked(ns, f, parent, prev) && Separate(f) && x in Ids(f)
    ensures x < |ns|
    ensures Depth(f, x) == 0 ==> ns[x].parent == parent
    ensures Depth(f, x) > 0 ==>
              var p := ns[x].parent;
              p >= 0 && p in Ids(f) && Pos(f, p) < Pos(f, x) && End(f, x) <= End(f, p) && Depth(f, x) == Depth(f, p) + 1
  {
    if x == f.id {
    } else if x in Ids(f.kids) {
      ParentFacts(ns, f.kids, f.id, Last(f.kids), x);
    } else {
      ParentFacts(ns, f.rest, parent, f.id, x);
    }
  }

  /** There is a first-child link exactly if the node has descendants. */
  lemma {:induction false} ChildLinked(ns: Arena, f: Forest, parent: Ref, prev: Ref, x: nat)
    requires Linked(ns, f, parent, prev) && Separate(f) && x in Ids(f)
    ensures x < |ns|
    ensures ns[x].firstChild == NULL <==> End(f, x) == Pos(f, x) + 1
  {
    if x == f.id {
    } else if x in Ids(f.kids) {
      ChildLinked(ns, f.kids, f.id, Last(f.kids), x);
    } else {
      ChildLinked(ns, f.rest, parent, f.id, x);
    }
  }

  /** It leads to the next position. */
  lemma {:induction false} ChildLeads(ns: Arena, f: Forest, parent: Ref, prev: Ref, x: nat)
    requires Linked(ns, f, parent, prev) && Separate(f) && x in Ids(f)
    ensures x < |ns|
    ensures var c := ns[x].firstChild;
            c != NULL ==> && c >= 0 && c in Ids(f) && Pos(f, c) == Pos(f, x) + 1 && c < |ns| && ns[c].parent == x
                          && Depth(f, c) == Depth(f, x) + 1
  {
    if x == f.id {
    } else if x in Ids(f.kids) {
      ChildLeads(ns, f.kids, f.id, Last(f.kids), x);
    } else {
      ChildLeads(ns, f.rest, parent, f.id, x);
    }
  }

  lemma ChildFacts(ns: Arena, f: Forest, parent: Ref, prev: Ref, x: nat)
    requires Linked(ns, f, parent, prev) && Separate(f) && x in Ids(f)
    ensures x < |ns|
    ensures ns[x].firstChild == NULL <==> End(f, x) == Pos(f, x) + 1
    ensures var c := ns[x].firstChild;
            c != NULL ==> && c >= 0 && c in Ids(f) && Pos(f, c) == Pos(f, x) + 1 && c < |ns| && ns[c].parent == x
                          && Depth(f, c) == Depth(f, x) + 1
  {
    hide Linked, Separate, Ids, Preorder, Pos, End, Depth;
    ChildLinked(ns, f, parent, prev, x);
    ChildLeads(ns, f, parent, prev, x);
  }

  /** The first child's cyclic previous sibling is the last child, which ends where the parent ends. */
  lemma {:induction false} LastChildFacts(ns: Arena, f: Forest, parent: Ref, prev: Ref, x: nat)
    requires Linked(ns, f, parent, prev) && Separate(f) && x in Ids(f)
    ensures x < |ns|
    ensures var c := ns[x].firstChild;
            c != NULL ==> && 0 <= c < |ns| && ns[c].prevC >= 0 && ns[c].prevC in Ids(f)
                          && End(f, ns[c].prevC) == End(f, x) && Pos(f, x) < Pos(f, ns[c].prevC)
  {
    if x == f.id {
      if f.kids.Cons? { LastEnds(f.kids); }
    } else if x in Ids(f.kids) {
      LastChildFacts(ns, f.kids, f.id, Last(f.kids), x);
    } else {
      LastChildFacts(ns, f.rest, parent, f.id, x);
    }
  }

  /** The next-sibling link leads to where the node's descendants end. */
  lemma {:induction false} NextLeads(ns: Arena, f: Forest, parent: Ref, prev: Ref, x: nat)
    requires Linked(ns, f, parent, prev) && Separate(f) && x in Ids(f)
    ensures x < |ns|
    ensures var y := ns[x].next;
            y != NULL ==> && y >= 0 && y in Ids(f) && y < |ns| && Pos(f, y) == End(f, x)
                          && ns[y].parent == ns[x].parent && Depth(f, y) == Depth(f, x) && ns[y].prevC == x
  {
    if x == f.id {
    } else if x in Ids(f.kids) {
      NextLeads(ns, f.kids, f.id, Last(f.kids), x);
    } else {
      NextLeads(ns, f.rest, parent, f.id, x);
    }
  }

  /** Without a next-sibling link, the parent's descendants end where the node's do. */
  lemma {:induction false} LastSiblingEnds(ns: Arena, f: Forest, parent: Ref, prev: Ref, x: nat)
    requires Linked(ns, f, parent, prev) && Separate(f) && x in Ids(f)
    ensures x < |ns|
    ensures ns[x].next == NULL && Depth(f, x) == 0 ==> End(f, x) == |Preorder(f)|
    ensures ns[x].next == NULL && Depth(f, x) > 0 ==>
              ns[x].parent >= 0 && ns[x].parent in Ids(f) && End(f, x) == End(f, ns[x].parent)
  {
    if x == f.id {
    } else if x in Ids(f.kids) {
      LastSiblingEnds(ns, f.kids, f.id, Last(f.kids), x);
      ParentFacts(ns, f.kids, f.id, Last(f.kids), x);
    } else {
      LastSiblingEnds(ns, f.rest, parent, f.id, x);
      ParentFacts(ns, f.rest, parent, f.id, x);
    }
  }

  lemma NextFacts(ns: Arena, f: Forest, parent: Ref, prev: Ref, x: nat)
    requires Linked(ns, f, parent, prev) && Separate(f) && x in Ids(f)
    ensures x < |ns|
    ensures var y := ns[x].next;
            y != NULL ==> && y >= 0 && y in Ids(f) && y < |ns| && Pos(f, y) == End(f, x)
                          && ns[y].parent == ns[x].parent && Depth(f, y) == Depth(f, x) && ns[y].prevC == x
    ensures ns[x].next == NULL && Depth(f, x) == 0 ==> End(f, x) == |Preorder(f)|
    ensures ns[x].next == NULL && Depth(f, x) > 0 ==>
              ns[x].parent >= 0 && ns[x].parent in Ids(f) && End(f, x) == End(f, ns[x].parent)
  {
    hide Linked, Separate, Ids, Preorder, Pos, End, Depth;
    NextLeads(ns, f, parent, prev, x);
    LastSiblingEnds(ns, f, parent, prev, x);
  }

  lemma {:induction false} LastHasNoNext(ns: Arena, f: Forest, parent: Ref, prev: Ref)
    requires f.Cons? && Linked(ns, f, parent, prev)
    ensures 0 <= Last(f) < |ns| && ns[Last(f)].next == NULL
  {
    if f.rest.Cons? { LastHasNoNext(ns, f.rest, parent, f.id); }
  }

  /**
    The cyclic previous-sibling link, for all but the first node of the forest: either it leads to a node
    without a next sibling, and this is a first child, or it leads to the real previous sibling.
   */
  lemma {:induction false} PrevFacts(ns: Arena, f: Forest, parent: Ref, prev: Ref, x: nat)
    requires Linked(ns, f, parent, prev) && Separate(f) && x in Ids(f) && x != f.id
    ensures x < |ns| && ns[x].prevC >= 0 && ns[x].prevC in Ids(f) && ns[x].prevC < |ns|
    ensures ns[ns[x].prevC].next == NULL ==>
              Depth(f, x) > 0 && ns[x].parent >= 0 && ns[x].parent in Ids(f) && Pos(f, x) == Pos(f, ns[x].parent) + 1
    ensures ns[ns[x].prevC].next != NULL ==>
              ns[ns[x].prevC].next == x && End(f, ns[x].prevC) == Pos(f, x) && ns[ns[x].prevC].parent == ns[x].parent
  {
    if x in Ids(f.kids) {
      if x == f.kids.id {
        LastEnds(f.kids);
        LastHasNoNext(ns, f.kids, f.id, Last(f.kids));
      } else {
        PrevFacts(ns, f.kids, f.id, Last(f.kids), x);
      }
    } else if x != f.rest.id {
      PrevFacts(ns, f.rest, parent, f.id, x);
    }
  }

  /** Of two nodes, one encloses the other (and is higher up), or one ends before the other begins. */
  lemma {:induction false} Laminar(f: Forest, x: nat, y: nat)
    requires Separate(f) && x in Ids(f) && y in Ids(f) && Pos(f, x) < Pos(f, y)
    ensures End(f, x) <= Pos(f, y) || (End(f, y) <= End(f, x) && Depth(f, x) < Depth(f, y))
  {
    if x == f.id {
    } else if x in Ids(f.kids) {
      if y in Ids(f.kids) { Laminar(f.kids, x, y); }
    } else {
      if y in Ids(f.rest) { Laminar(f.rest, x, y); }
    }
  }

  // ----- a whole tree -----

  lemma RootFacts(ns: Arena, t: Forest)
    requires IsTree(ns, t)
    ensures t.id in Ids(t) && t.id < |ns| && Pos(t, t.id) == 0 && End(t, t.id) == |Preorder(t)| && Depth(t, t.id) == 0
    ensures ns[t.id].parent == NULL && ns[t.id].next == NULL && ns[t.id].prevC == t.id
  {
  }

  /** Following the parent links `k` times from `x` leads to `up`. */
  ghost predicate ParentChain(ns: Arena, x: Ref, up: nat, k: nat)
    decreases k
  {
    if k == 0 then x == up else 0 <= x < |ns| && ParentChain(ns, ns[x].parent, up, k - 1)
  }

  /** A node's parent in a tree: it encloses the node, one level up; only the root has none. */
  lemma Parent(ns: Arena, t: Forest, x: nat)
    requires IsTree(ns, t) && x in Ids(t)
    ensures x < |ns| && (ns[x].parent == NULL <==> x == t.id) && (Depth(t, x) == 0 <==> x == t.id)
    ensures var p := ns[x].parent;
            p != NULL ==> 0 <= p < |ns| && p in Ids(t) && Pos(t, p) < Pos(t, x) && End(t, x) <= End(t, p)
                          && Depth(t, x) == Depth(t, p) + 1
  {
    ParentFacts(ns, t, NULL, t.id, x);
    if ns[x].parent != NULL { ParentFacts(ns, t, NULL, t.id, ns[x].parent); }
  }

  /** The first child of a node comes right after it; its cyclic previous sibling is the last child. */
  lemma FirstChild(ns: Arena, t: Forest, x: nat)
    requires IsTree(ns, t) && x in Ids(t)
    ensures x < |ns| && (ns[x].firstChild == NULL <==> End(t, x) == Pos(t, x) + 1)
    ensures var c := ns[x].firstChild;
            c != NULL ==> && 0 <= c < |ns| && c in Ids(t) && Pos(t, c) == Pos(t, x) + 1 && ns[c].parent == x
                          && End(t, c) <= End(t, x) && Depth(t, c) == Depth(t, x) + 1
                          && 0 <= ns[c].prevC < |ns| && ns[c].prevC in Ids(t)
                          && End(t, ns[c].prevC) == End(t, x) && Pos(t, x) < Pos(t, ns[c].prevC)
  {
    ChildFacts(ns, t, NULL, t.id, x);
    LastChildFacts(ns, t, NULL, t.id, x);
    if ns[x].firstChild != NULL {
      Parent(ns, t, ns[x].firstChild);
      Parent(ns, t, ns[ns[x].firstChild].prevC);
    }
  }

  /** The next sibling begins where the node ends; the last sibling ends where its parent does. */
  lemma NextSibling(ns: Arena, t: Forest, x: nat)
    requires IsTree(ns, t) && x in Ids(t)
    ensures x < |ns|
    ensures var y := ns[x].next;
            y != NULL ==> && 0 <= y < |ns| && y in Ids(t) && Pos(t, y) == End(t, x) && ns[y].parent == ns[x].parent
                          && Depth(t, y) == Depth(t, x) && ns[y].prevC == x
    ensures ns[x].next == NULL && x == t.id ==> End(t, x) == |Preorder(t)|
    ensures ns[x].next == NULL && x != t.id ==>
              0 <= ns[x].parent < |ns| && ns[x].parent in Ids(t) && End(t, x) == End(t, ns[x].parent)
  {
    NextFacts(ns, t, NULL, t.id, x);
    Parent(ns, t, x);
  }

  /**
    The cyclic previous sibling of a node: if it has no next sibling, the node is a first child (or the root);
    otherwise it is the sibling that ends where the node begins.
   */
  lemma PreviousSibling(ns: Arena, t: Forest, x: nat)
    requires IsTree(ns, t) && x in Ids(t)
    ensures x < |ns| && 0 <= ns[x].prevC < |ns| && ns[x].prevC in Ids(t)
    ensures x == t.id ==> ns[ns[x].prevC].next == NULL
    ensures ns[ns[x].prevC].next == NULL && x != t.id ==>
              0 <= ns[x].parent < |ns| && ns[x].parent in Ids(t) && Pos(t, x) == Pos(t, ns[x].parent) + 1
    ensures ns[ns[x].prevC].next != NULL ==>
              ns[ns[x].prevC].next == x && End(t, ns[x].prevC) == Pos(t, x) && ns[ns[x].prevC].parent == ns[x].parent
  {
    RootFacts(ns, t);
    if x != t.id {
      PrevFacts(ns, t, NULL, t.id, x);
      Parent(ns, t, x);
    }
  }
}
