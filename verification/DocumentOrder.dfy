/**
  `node_is_before`, `node_is_before_sibling` and `node_is_ancestor` of xml/pugixml.cpp: document order from
  parent and next-sibling links alone.
*/
module DocumentOrder {
  import opened Dom

  /** A reference to a node of the tree, or NULL. */
  ghost predicate InTree(t: Forest, r: Ref) {
    r == NULL || (r >= 0 && r in Ids(t))
  }

  /** `up` is `x` or one of its ancestors, by position. */
  ghost predicate Encloses(t: Forest, up: nat, x: nat)
    requires up in Ids(t) && x in Ids(t)
  {
    Pos(t, up) <= Pos(t, x) && End(t, x) <= End(t, up)
  }

  /** The level of a reference, the root's being 1 and NULL's 0. */
  ghost function Level(t: Forest, r: Ref): nat
    requires InTree(t, r)
  {
    if r == NULL then 0 else Depth(t, r) + 1
  }

  lemma SiblingsApart(ns: Arena, t: Forest, x: nat, y: nat)
    requires IsTree(ns, t) && x in Ids(t) && y in Ids(t) && x != y && x < |ns| && y < |ns| && ns[x].parent == ns[y].parent
    ensures ns[x].parent != NULL && Depth(t, x) == Depth(t, y)
    ensures Pos(t, x) < Pos(t, y) <==> End(t, x) <= Pos(t, y)
    ensures Pos(t, y) < Pos(t, x) <==> End(t, y) <= Pos(t, x)
  {
    Parent(ns, t, x);
    Parent(ns, t, y);
    DifferentNodesDifferentPos(t, x, y);
    if Pos(t, x) < Pos(t, y) { Laminar(t, x, y); } else { Laminar(t, y, x); }
  }

  /** The sibling walk that started at `from` has not missed `to`. */
  ghost predicate Walking(ns: Arena, t: Forest, from: nat, to: nat, cur: Ref)
    requires from in Ids(t) && to in Ids(t) && from < |ns|
  {
    && InTree(t, cur)
    && (cur != NULL ==> cur < |ns| && ns[cur].parent == ns[from].parent && Pos(t, from) <= Pos(t, cur))
    && (Pos(t, from) < Pos(t, to) ==> cur != NULL && Pos(t, cur) <= Pos(t, to))
  }

  lemma WalkOn(ns: Arena, t: Forest, from: nat, to: nat, cur: nat)
    requires IsTree(ns, t) && from in Ids(t) && to in Ids(t) && from != to && from < |ns| && to < |ns|
    requires ns[from].parent == ns[to].parent && Walking(ns, t, from, to, cur) && cur != to
    ensures Walking(ns, t, from, to, ns[cur].next)
    ensures ns[cur].next != NULL ==> Pos(t, cur) < Pos(t, ns[cur].next)
  {
    NextFacts(ns, t, NULL, t.id, cur);
    SiblingsApart(ns, t, from, to);
    if Pos(t, from) < Pos(t, to) {
      SiblingsApart(ns, t, cur, to);
      Parent(ns, t, to);
    }
  }

  /** Who comes first of two siblings, by walking from both at once. */
  method NodeIsBeforeSibling(ns: Arena, ln: nat, rn: nat, ghost t: Forest) returns (before: bool)
    requires IsTree(ns, t) && ln in Ids(t) && rn in Ids(t) && ln < |ns| && rn < |ns| && ns[ln].parent == ns[rn].parent
    ensures ln != rn ==> (before <==> Pos(t, ln) < Pos(t, rn))
    ensures ln == rn ==> (before <==> ns[ln].parent != NULL)
  {
    // nodes without a parent are from different documents, unless they are the same root
    if ns[ln].parent == NULL {
      Parent(ns, t, ln);
      Parent(ns, t, rn);
      return ln < rn;
    }
    if ln != rn { SiblingsApart(ns, t, ln, rn); }
    var ls: Ref, rs: Ref := ln, rn;
    while ls != NULL && rs != NULL
      invariant ln != rn ==> Walking(ns, t, ln, rn, ls) && Walking(ns, t, rn, ln, rs)
      invariant ln == rn ==> ls == ln
      decreases if ls != NULL && ls >= 0 && ls in Ids(t) then |Preorder(t)| - Pos(t, ls) else 0
    {
      if ls == rn { return true; }
      if rs == ln { return false; }
      WalkOn(ns, t, ln, rn, ls);
      WalkOn(ns, t, rn, ln, rs);
      ls := ns[ls].next;
      rs := ns[rs].next;
    }
    before := rs == NULL;
  }

  /** One step up keeps enclosing, and lowers the level by one. */
  lemma Climb(ns: Arena, t: Forest, up: nat, x: nat)
    requires IsTree(ns, t) && up in Ids(t) && x in Ids(t) && Encloses(t, up, x)
    ensures up < |ns| && InTree(t, ns[up].parent) && Level(t, up) == Level(t, ns[up].parent) + 1
    ensures ns[up].parent != NULL ==> ns[up].parent < |ns| && Encloses(t, ns[up].parent, x) && ns[up].parent != x
  {
    Parent(ns, t, up);
    if ns[up].parent == x { DifferentNodesDifferentPos(t, up, x); }
  }

  /** Ancestors of two nodes that are siblings of each other order the two nodes. */
  lemma SiblingsDecide(ns: Arena, t: Forest, ln: nat, rn: nat, lp: nat, rp: nat)
    requires IsTree(ns, t) && ln in Ids(t) && rn in Ids(t) && lp in Ids(t) && rp in Ids(t) && lp < |ns| && rp < |ns|
    requires Encloses(t, lp, ln) && Encloses(t, rp, rn) && lp != rp && ns[lp].parent == ns[rp].parent
    ensures Pos(t, lp) < Pos(t, rp) <==> Pos(t, ln) < Pos(t, rn)
  {
    SiblingsApart(ns, t, lp, rp);
    DifferentNodesDifferentPos(t, lp, rp);
  }

  ghost predicate Climbing(ns: Arena, t: Forest, x: nat, up: Ref)
    requires x in Ids(t)
  {
    InTree(t, up) && (up != NULL ==> up < |ns| && Encloses(t, up, x))
  }

  /** Climbs from `x` as many levels as lie between `from` and the top. */
  method Raise(ns: Arena, x: nat, from: Ref, ghost t: Forest) returns (up: nat)
    requires IsTree(ns, t) && x in Ids(t) && x < |ns| && InTree(t, from) && Level(t, from) < Level(t, x)
    ensures up in Ids(t) && up < |ns| && Encloses(t, up, x) && Level(t, up) == Level(t, x) - Level(t, from)
    ensures from == NULL ==> up == x
  {
    up := x;
    var p := from;
    while p != NULL
      invariant InTree(t, p) && up in Ids(t) && up < |ns| && Encloses(t, up, x)
      invariant Level(t, up) - Level(t, p) == Level(t, x) - Level(t, from)
      invariant from == NULL ==> up == x
      decreases Level(t, p)
    {
      Parent(ns, t, p);
      Climb(ns, t, up, x);
      p := ns[p].parent;
      up := ns[up].parent;
    }
  }

  /** Two different nodes on one level climb until they are siblings. */
  method DecideOnLevel(ns: Arena, left: nat, right: nat, ghost x: nat, ghost y: nat, ghost t: Forest)
    returns (before: bool)
    requires IsTree(ns, t) && left in Ids(t) && right in Ids(t) && left < |ns| && right < |ns| && left != right
    requires Level(t, left) == Level(t, right)
    requires x in Ids(t) && y in Ids(t) && Encloses(t, left, x) && Encloses(t, right, y)
    ensures before <==> Pos(t, x) < Pos(t, y)
  {
    var ln, rn := left, right;
    while ns[ln].parent != ns[rn].parent
      invariant ln in Ids(t) && rn in Ids(t) && ln < |ns| && rn < |ns| && ln != rn
      invariant Level(t, ln) == Level(t, rn) && Encloses(t, ln, x) && Encloses(t, rn, y)
      decreases Level(t, ln)
    {
      Climb(ns, t, ln, x);
      Climb(ns, t, rn, y);
      ln := ns[ln].parent;
      rn := ns[rn].parent;
    }
    SiblingsDecide(ns, t, x, y, ln, rn);
    before := NodeIsBeforeSibling(ns, ln, rn, t);
  }

  /**
    `node_is_before`: for different nodes of one tree, whether the first comes before the second in document
    order.  A node counts as before itself exactly if it has a parent.
   */
  method NodeIsBefore(ns: Arena, left: nat, right: nat, ghost t: Forest) returns (before: bool)
    requires IsTree(ns, t) && left in Ids(t) && right in Ids(t) && left < |ns| && right < |ns|
    ensures left != right ==> (before <==> Pos(t, left) < Pos(t, right))
    ensures left == right ==> (before <==> ns[left].parent != NULL)
  {
    var lp: Ref, rp: Ref := left, right;
    while lp != NULL && rp != NULL && ns[lp].parent != ns[rp].parent
      invariant Climbing(ns, t, left, lp) && Climbing(ns, t, right, rp)
      invariant left != right ==> lp != rp
      invariant left == right ==> lp == left && rp == right
      invariant Level(t, left) - Level(t, lp) == Level(t, right) - Level(t, rp)
      decreases if lp >= 0 && lp in Ids(t) then Level(t, lp) else 0
    {
      Climb(ns, t, lp, left);
      Climb(ns, t, rp, right);
      lp := ns[lp].parent;
      rp := ns[rp].parent;
    }
    if lp != NULL && rp != NULL {
      if left != right { SiblingsDecide(ns, t, left, right, lp, rp); }
      before := NodeIsBeforeSibling(ns, lp, rp, t);
      return;
    }
    var leftHigher := lp == NULL;
    var ln := Raise(ns, left, lp, t);
    var rn := Raise(ns, right, rp, t);
    // one node is the ancestor of the other
    if ln == rn {
      DifferentNodesDifferentPos(t, left, right);
      return leftHigher;
    }
    before := DecideOnLevel(ns, ln, rn, left, right, t);
  }

  /** `node_is_ancestor`: whether a node is another one or above it. */
  method NodeIsAncestor(ns: Arena, up: nat, x: nat, ghost t: Forest) returns (above: bool)
    requires IsTree(ns, t) && up in Ids(t) && x in Ids(t) && x < |ns|
    ensures above <==> Encloses(t, up, x)
  {
    var node: Ref := x;
    while node != NULL && node != up
      invariant Climbing(ns, t, x, node)
      invariant Encloses(t, up, x) ==> node != NULL && Encloses(t, up, node)
      decreases Level(t, node)
    {
      Climb(ns, t, node, x);
      Above(ns, t, up, node);
      node := ns[node].parent;
    }
    above := node == up;
  }

  /** What encloses a node and is not the node encloses its parent. */
  lemma Above(ns: Arena, t: Forest, up: nat, x: nat)
    requires IsTree(ns, t) && up in Ids(t) && x in Ids(t) && up != x
    ensures x < |ns|
    ensures Encloses(t, up, x) ==> ns[x].parent >= 0 && ns[x].parent in Ids(t) && Encloses(t, up, ns[x].parent)
  {
    Parent(ns, t, x);
    DifferentNodesDifferentPos(t, up, x);
    if Encloses(t, up, x) {
      RootFacts(ns, t);
      if ns[x].parent != NULL { EnclosesParent(ns, t, up, x); }
    }
  }

  lemma EnclosesParent(ns: Arena, t: Forest, up: nat, x: nat)
    requires IsTree(ns, t) && up in Ids(t) && x in Ids(t) && up != x && Encloses(t, up, x)
    requires x < |ns| && ns[x].parent >= 0 && ns[x].parent in Ids(t)
    ensures Encloses(t, up, ns[x].parent)
  {
    var p := ns[x].parent;
    Parent(ns, t, x);
    DifferentNodesDifferentPos(t, up, p);
    DifferentNodesDifferentPos(t, up, x);
    if Pos(t, up) < Pos(t, p) {
      Laminar(t, up, p);
    } else if Pos(t, p) < Pos(t, up) {
      Laminar(t, p, up);
      Laminar(t, up, x);
    }
  }
}
