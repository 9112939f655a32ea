/**
  What the node links of xml/pugixml.cpp stand for: every node has a list of children.  The links spell the
  lists out (`Wired`), with the previous-sibling link cyclic, and no node is below itself (`Acyclic`).
  The effect of each link operation is an insertion into, or a removal from, one list.
*/
module ChildLists {
  import opened Common
  import opened Dom

  type Kids = seq<seq<nat>>

  function HeadOf(l: seq<nat>): Ref {
    if l == [] then NULL else l[0]
  }

  function NextIn(l: seq<nat>, i: nat): Ref
    requires i < |l|
  {
    if i + 1 < |l| then l[i + 1] else NULL
  }

  /** The cyclic previous sibling. */
  function PrevIn(l: seq<nat>, i: nat): Ref
    requires i < |l|
  {
    if i > 0 then l[i - 1] else l[|l| - 1]
  }

  /** The links spell out the children of `n`. */
  ghost predicate Listed(ns: Arena, n: nat, l: seq<nat>) {
    && n < |ns| && ns[n].firstChild == HeadOf(l) && Distinct(l)
    && forall i: nat | i < |l| ::
         l[i] < |ns| && ns[l[i]].parent == n && ns[l[i]].next == NextIn(l, i) && ns[l[i]].prevC == PrevIn(l, i)
  }

  /** A node that is nobody's child. */
  ghost predicate Loose(ns: Arena, c: nat) {
    c < |ns| && ns[c].parent == NULL && ns[c].next == NULL && (ns[c].prevC == NULL || ns[c].prevC == c)
  }

  ghost predicate Placed(ns: Arena, kids: Kids, c: nat)
    requires c < |ns| == |kids|
  {
    if ns[c].parent == NULL then Loose(ns, c) else 0 <= ns[c].parent < |kids| && c in kids[ns[c].parent]
  }

  ghost predicate Wired(ns: Arena, kids: Kids) {
    && |kids| == |ns|
    && (forall n: nat | n < |ns| :: Listed(ns, n, kids[n]))
    && (forall c: nat | c < |ns| :: Placed(ns, kids, c))
  }

  /** Replacing the list of one node. */
  lemma Relisted(ns: Arena, kids: Kids, ns': Arena, n: nat, l: seq<nat>)
    requires Wired(ns, kids) && |ns'| == |ns| && Listed(ns', n, l)
    requires forall m: nat | m < |ns| && m != n :: ns'[m].firstChild == ns[m].firstChild
    requires forall c: nat | c < |ns| && c !in kids[n] && c !in l ::
               ns'[c].parent == ns[c].parent && ns'[c].next == ns[c].next && ns'[c].prevC == ns[c].prevC
    requires forall c: nat | c < |ns| && c in kids[n] && c !in l :: Loose(ns', c)
    requires forall c: nat | c < |ns| && c in l && c !in kids[n] :: ns[c].parent == NULL
    ensures Wired(ns', kids[n := l])
  {
    var kids' := kids[n := l];
    assert Listed(ns, n, kids[n]);
    ListedParents(ns, n, kids[n]);
    forall m: nat | m < |ns'| ensures Listed(ns', m, kids'[m]) {
      if m != n {
        assert Listed(ns, m, kids[m]);
        ListedParents(ns, m, kids[m]);
      }
    }
    forall c: nat | c < |ns'| ensures Placed(ns', kids', c) {
      assert Placed(ns, kids, c);
    }
  }

  lemma ListedParents(ns: Arena, n: nat, l: seq<nat>)
    requires Listed(ns, n, l)
    ensures n < |ns| && Distinct(l) && ns[n].firstChild == HeadOf(l)
    ensures forall c: nat | c in l :: c < |ns| && ns[c].parent == n
  {
  }

  /** Different places in a list hold different nodes. */
  lemma SamePlace(l: seq<nat>, i: nat, j: nat)
    requires Distinct(l) && i < |l| && j < |l|
    ensures l[i] == l[j] <==> i == j
  {
  }

  // ----- insertion -----

  function InsertAt(l: seq<nat>, i: nat, x: nat): seq<nat>
    requires i <= |l|
  {
    l[..i] + [x] + l[i..]
  }

  lemma InsertedIs(l: seq<nat>, i: nat, x: nat)
    requires i <= |l| && Distinct(l) && x !in l
    ensures var r := InsertAt(l, i, x);
            && |r| == |l| + 1 && Distinct(r) && r[i] == x
            && (forall j: nat | j < i :: r[j] == l[j]) && (forall j: nat | i < j < |r| :: r[j] == l[j - 1])
            && forall c: nat :: c in r <==> c in l || c == x
  {
    var r := InsertAt(l, i, x);
    forall c: nat ensures c in r <==> c in l || c == x {
      if c in l {
        var j :| 0 <= j < |l| && l[j] == c;
        assert r[if j < i then j else j + 1] == c;
      }
      if c == x { assert r[i] == x; }
    }
  }

  /** What the links must look like for `x` to be the child number `i` of `n`. */
  ghost predicate LinkedIn(ns: Arena, ns': Arena, n: nat, l: seq<nat>, i: nat, x: nat)
    requires n < |ns| && i <= |l| && x < |ns| && forall c: nat | c in l :: c < |ns|
  {
    && |ns'| == |ns|
    && ns'[x] == Links(n, ns[x].firstChild, if i < |l| then l[i] else NULL,
                       if i > 0 then l[i - 1] else if l == [] then x else l[|l| - 1])
    && (forall c: nat | c < |ns| && c != x ::
          ns'[c] == Links(ns[c].parent,
                          if c == n && i == 0 then x else ns[c].firstChild,
                          if 0 < i && c == l[i - 1] then x else ns[c].next,
                          if (i < |l| && c == l[i]) || (i == |l| > 0 && c == l[0]) then x else ns[c].prevC))
  }

  lemma Inserted(ns: Arena, kids: Kids, ns': Arena, n: nat, i: nat, x: nat)
    requires Wired(ns, kids) && n < |ns| && x < |ns| && x != n && ns[x].parent == NULL && i <= |kids[n]|
    requires Listed(ns, n, kids[n]) && LinkedIn(ns, ns', n, kids[n], i, x)
    ensures Wired(ns', kids[n := InsertAt(kids[n], i, x)])
  {
    var l := kids[n];
    var r := InsertAt(l, i, x);
    ListedParents(ns, n, l);
    InsertedIs(l, i, x);
    InsertedListed(ns, ns', n, l, i, x);
    InsertedElsewhere(ns, ns', n, l, i, x);
    hide Listed, LinkedIn, InsertAt, Distinct, Wired;
    Relisted(ns, kids, ns', n, r);
  }

  lemma InsertedElsewhere(ns: Arena, ns': Arena, n: nat, l: seq<nat>, i: nat, x: nat)
    requires Listed(ns, n, l) && i <= |l| && x < |ns| && LinkedIn(ns, ns', n, l, i, x)
    ensures |ns'| == |ns|
    ensures forall m: nat | m < |ns| && m != n :: ns'[m].firstChild == ns[m].firstChild
    ensures forall c: nat | c < |ns| && c !in l && c != x ::
              ns'[c].parent == ns[c].parent && ns'[c].next == ns[c].next && ns'[c].prevC == ns[c].prevC
  {
    assert i > 0 ==> l[i - 1] in l;
    assert i < |l| ==> l[i] in l;
    assert |l| > 0 ==> l[0] in l;
  }

  lemma InsertedListed(ns: Arena, ns': Arena, n: nat, l: seq<nat>, i: nat, x: nat)
    requires Listed(ns, n, l) && x < |ns| && x != n && x !in l && i <= |l| && LinkedIn(ns, ns', n, l, i, x)
    ensures Listed(ns', n, InsertAt(l, i, x))
  {
    hide Listed, LinkedIn, InsertAt, Distinct;
    var r := InsertAt(l, i, x);
    ListedParents(ns, n, l);
    InsertedNode(ns, ns', n, l, i, x);
    InsertedIs(l, i, x);
    forall j: nat | j < |r|
      ensures r[j] < |ns'| && ns'[r[j]].parent == n && ns'[r[j]].next == NextIn(r, j) && ns'[r[j]].prevC == PrevIn(r, j)
    {
      if j < i {
        InsertedEntry(ns, ns', n, l, i, x, j);
      } else if j > i {
        InsertedEntry(ns, ns', n, l, i, x, j - 1);
      }
    }
    ItIsListed(ns', n, r);
  }

  lemma InsertedNode(ns: Arena, ns': Arena, n: nat, l: seq<nat>, i: nat, x: nat)
    requires Listed(ns, n, l) && x < |ns| && x != n && x !in l && i <= |l| && LinkedIn(ns, ns', n, l, i, x)
    ensures |ns'| == |ns| && ns'[x].parent == n && ns'[n].firstChild == if i == 0 then x else HeadOf(l)
    ensures ns'[x].next == (if i < |l| then l[i] else NULL)
    ensures ns'[x].prevC == if i > 0 then l[i - 1] else if l == [] then x else l[|l| - 1]
  {
  }

  /** The links of the nodes that were in the list before. */
  lemma InsertedEntry(ns: Arena, ns': Arena, n: nat, l: seq<nat>, i: nat, x: nat, j: nat)
    requires Listed(ns, n, l) && x < |ns| && x != n && x !in l && i <= |l| && LinkedIn(ns, ns', n, l, i, x) && j < |l|
    ensures l[j] < |ns'| && ns'[l[j]].parent == n
    ensures ns'[l[j]].next == if j + 1 == i then x else NextIn(l, j)
    ensures ns'[l[j]].prevC == if j == i || (j == 0 && i == |l|) then x else PrevIn(l, j)
  {
    if i > 0 { SamePlace(l, j, i - 1); }
    if i < |l| { SamePlace(l, j, i); }
    SamePlace(l, j, 0);
    assert ns[l[j]].next == NextIn(l, j) && ns[l[j]].prevC == PrevIn(l, j);
    hide Listed, Distinct;
  }

  // ----- removal -----

  ghost function IndexOf(l: seq<nat>, x: nat): (i: nat)
    requires x in l
    ensures i < |l| && l[i] == x
  {
    var i: nat :| i < |l| && l[i] == x; i
  }

  ghost function Without(l: seq<nat>, x: nat): seq<nat> {
    if x in l then l[..IndexOf(l, x)] + l[IndexOf(l, x) + 1..] else l
  }

  lemma RemovedIs(l: seq<nat>, x: nat)
    requires Distinct(l) && x in l
    ensures var r, i := Without(l, x), IndexOf(l, x);
            && |r| == |l| - 1 && Distinct(r)
            && (forall j: nat | j < i :: r[j] == l[j]) && (forall j: nat | i <= j < |r| :: r[j] == l[j + 1])
            && forall c: nat :: c in r <==> c in l && c != x
  {
    hide Distinct;
    RemovedPlaces(l, IndexOf(l, x));
    RemovedMembers(l, IndexOf(l, x));
  }

  lemma RemovedPlaces(l: seq<nat>, i: nat)
    requires i < |l| && Distinct(l)
    ensures var r := l[..i] + l[i + 1..];
            && |r| == |l| - 1 && Distinct(r)
            && (forall j: nat | j < i :: r[j] == l[j]) && (forall j: nat | i <= j < |r| :: r[j] == l[j + 1])
  {
  }

  lemma RemovedMembers(l: seq<nat>, i: nat)
    requires i < |l| && Distinct(l)
    ensures forall c: nat :: c in l[..i] + l[i + 1..] <==> c in l && c != l[i]
  {
    forall c: nat ensures c in l[..i] + l[i + 1..] <==> c in l && c != l[i] {
      assert l == l[..i] + [l[i]] + l[i + 1..];
      assert c in l[..i] ==> c != l[i];
      assert c in l[i + 1..] ==> c != l[i];
    }
  }

  /** What the links must look like after `x`, child number `i` of `n`, was taken out. */
  ghost predicate LinkedOut(ns: Arena, ns': Arena, n: nat, l: seq<nat>, i: nat)
    requires n < |ns| && i < |l| && l[i] < |ns| && l[i] != n
  {
    var x, last := l[i], |l| - 1;
    && |ns'| == |ns|
    && ns'[x] == Links(NULL, ns[x].firstChild, NULL, NULL)
    && (forall c: nat | c < |ns| && c != x ::
          ns'[c] == Links(ns[c].parent,
                          if c == n && i == 0 then NextIn(l, 0) else ns[c].firstChild,
                          if 0 < i && c == l[i - 1] then NextIn(l, i) else ns[c].next,
                          if (i < last && c == l[i + 1]) || (i == last && c == l[0]) then PrevIn(l, i) else ns[c].prevC))
  }

  lemma Removed(ns: Arena, kids: Kids, ns': Arena, n: nat, x: nat)
    requires Wired(ns, kids) && n < |ns| && x in kids[n] && x < |ns| && x != n
    requires LinkedOut(ns, ns', n, kids[n], IndexOf(kids[n], x))
    ensures Wired(ns', kids[n := Without(kids[n], x)])
  {
    var l, i := kids[n], IndexOf(kids[n], x);
    assert Listed(ns, n, l);
    RemovedIs(l, x);
    RemovedListed(ns, ns', n, l, x);
    RemovedElsewhere(ns, ns', n, l, i);
    hide Listed, LinkedOut, Without, Distinct, Wired;
    Relisted(ns, kids, ns', n, Without(l, x));
  }

  lemma RemovedElsewhere(ns: Arena, ns': Arena, n: nat, l: seq<nat>, i: nat)
    requires n < |ns| && i < |l| && l[i] < |ns| && l[i] != n && LinkedOut(ns, ns', n, l, i)
    ensures |ns'| == |ns| && Loose(ns', l[i])
    ensures forall m: nat | m < |ns| && m != n :: ns'[m].firstChild == ns[m].firstChild
    ensures forall c: nat | c < |ns| && c !in l ::
              ns'[c].parent == ns[c].parent && ns'[c].next == ns[c].next && ns'[c].prevC == ns[c].prevC
  {
    assert i > 0 ==> l[i - 1] in l;
    assert i + 1 < |l| ==> l[i + 1] in l;
    assert l[0] in l && l[i] in l;
  }

  lemma RemovedListed(ns: Arena, ns': Arena, n: nat, l: seq<nat>, x: nat)
    requires Listed(ns, n, l) && x in l && x < |ns| && x != n && LinkedOut(ns, ns', n, l, IndexOf(l, x))
    ensures Listed(ns', n, Without(l, x))
  {
    hide Listed, LinkedOut, Without, Distinct, NextIn, PrevIn, HeadOf;
    var r, i := Without(l, x), IndexOf(l, x);
    ListedParents(ns, n, l);
    RemovedIs(l, x);
    RemovedHead(ns, ns', n, l, r, i);
    forall j: nat | j < |r|
      ensures r[j] < |ns'| && ns'[r[j]].parent == n && ns'[r[j]].next == NextIn(r, j) && ns'[r[j]].prevC == PrevIn(r, j)
    {
      RemovedEntry(ns, ns', n, l, i, if j < i then j else j + 1);
      RemovedNeighbours(l, r, i, j);
    }
    ItIsListed(ns', n, r);
  }

  lemma ItIsListed(ns: Arena, n: nat, l: seq<nat>)
    requires n < |ns| && ns[n].firstChild == HeadOf(l) && Distinct(l)
    requires forall i: nat | i < |l| ::
         l[i] < |ns| && ns[l[i]].parent == n && ns[l[i]].next == NextIn(l, i) && ns[l[i]].prevC == PrevIn(l, i)
    ensures Listed(ns, n, l)
  {
  }

  lemma RemovedNeighbours(l: seq<nat>, r: seq<nat>, i: nat, k: nat)
    requires i < |l| && |r| == |l| - 1 && k < |r|
    requires (forall j: nat | j < i :: r[j] == l[j]) && (forall j: nat | i <= j < |r| :: r[j] == l[j + 1])
    ensures var j := if k < i then k else k + 1;
            && r[k] == l[j]
            && NextIn(r, k) == (if j + 1 == i then NextIn(l, i) else NextIn(l, j))
            && PrevIn(r, k) == if j == i + 1 || (j == 0 && i == |l| - 1) then PrevIn(l, i) else PrevIn(l, j)
  {
  }

  lemma RemovedHead(ns: Arena, ns': Arena, n: nat, l: seq<nat>, r: seq<nat>, i: nat)
    requires Listed(ns, n, l) && i < |l| && l[i] < |ns| && l[i] != n && LinkedOut(ns, ns', n, l, i)
    requires |r| == |l| - 1
    requires (forall j: nat | j < i :: r[j] == l[j]) && (forall j: nat | i <= j < |r| :: r[j] == l[j + 1])
    ensures |ns'| == |ns| && ns'[n].firstChild == HeadOf(r)
  {
  }

  /** The links of the nodes that stay in the list. */
  lemma RemovedEntry(ns: Arena, ns': Arena, n: nat, l: seq<nat>, i: nat, j: nat)
    requires Listed(ns, n, l) && i < |l| && l[i] < |ns| && l[i] != n && LinkedOut(ns, ns', n, l, i) && j < |l| && j != i
    ensures l[j] < |ns'| && ns'[l[j]].parent == n
    ensures ns'[l[j]].next == if j + 1 == i then NextIn(l, i) else NextIn(l, j)
    ensures ns'[l[j]].prevC == if j == i + 1 || (j == 0 && i == |l| - 1) then PrevIn(l, i) else PrevIn(l, j)
  {
    if i > 0 { SamePlace(l, j, i - 1); }
    if i < |l| - 1 { SamePlace(l, j, i + 1); }
    SamePlace(l, j, i);
    SamePlace(l, j, 0);
    assert ns[l[j]].next == NextIn(l, j) && ns[l[j]].prevC == PrevIn(l, j);
    hide Listed, Distinct;
  }

  // ----- no node below itself -----

  /** `height` shows that no node is below itself: it grows from child to parent. */
  ghost predicate Climbs(ns: Arena, height: seq<nat>) {
    |height| == |ns| && forall c: nat | c < |ns| && 0 <= ns[c].parent < |ns| :: height[c] < height[ns[c].parent]
  }

  ghost predicate Acyclic(ns: Arena) {
    exists height: seq<nat> :: Climbs(ns, height)
  }

  /** `up` is `x` or above it. */
  ghost predicate IsAbove(ns: Arena, up: nat, x: nat) {
    exists k: nat :: ParentChain(ns, x, up, k)
  }

  /** The parent links of `ns'` are those of `ns`, apart from that of `x`, which is `p`. */
  ghost predicate Reparented(ns: Arena, ns': Arena, x: nat, p: Ref) {
    && x < |ns| == |ns'| && ns'[x].parent == p
    && forall c: nat | c < |ns| && c != x :: ns'[c].parent == ns[c].parent
  }

  lemma AboveStep(ns: Arena, up: nat, x: nat)
    requires x < |ns|
    ensures IsAbove(ns, up, x) <==> x == up || (0 <= ns[x].parent && IsAbove(ns, up, ns[x].parent))
  {
    if x == up { assert ParentChain(ns, x, up, 0); }
    if 0 <= ns[x].parent && IsAbove(ns, up, ns[x].parent) {
      var k: nat :| ParentChain(ns, ns[x].parent, up, k);
      assert ParentChain(ns, x, up, k + 1);
    }
    if x != up && IsAbove(ns, up, x) {
      var k: nat :| ParentChain(ns, x, up, k);
      assert ParentChain(ns, ns[x].parent, up, k - 1);
      assert k > 1 ==> 0 <= ns[x].parent;
    }
  }

  /** What is above a node is above its children. */
  lemma AboveChild(ns: Arena, x: nat, p: nat)
    requires x < |ns| && IsAbove(ns, x, p) && 0 <= ns[x].parent
    ensures IsAbove(ns, ns[x].parent, p)
  {
    var k: nat :| ParentChain(ns, p, x, k);
    ChainOn(ns, p, x, k);
  }

  lemma {:induction false} ChainOn(ns: Arena, x: Ref, up: nat, k: nat)
    requires ParentChain(ns, x, up, k) && up < |ns| && 0 <= ns[up].parent
    ensures ParentChain(ns, x, ns[up].parent, k + 1)
    decreases k
  {
    if k == 0 {
      assert ParentChain(ns, ns[up].parent, ns[up].parent, 0);
    } else {
      ChainOn(ns, ns[x].parent, up, k - 1);
    }
  }

  /** Hanging a loose node under a node that is not below it keeps the links acyclic. */
  lemma HangKeepsAcyclic(ns: Arena, ns': Arena, height: seq<nat>, x: nat, p: nat)
    requires Climbs(ns, height) && p < |ns| && Reparented(ns, ns', x, p) && ns[x].parent == NULL && !IsAbove(ns, x, p)
    ensures Acyclic(ns')
  {
    var h := seq(|ns|, i requires 0 <= i < |ns| => if IsAbove(ns, i, p) then height[i] + height[x] + 1 else height[i]);
    assert IsAbove(ns, p, p) by { assert ParentChain(ns, p, p, 0); }
    forall c: nat | c < |ns'| && 0 <= ns'[c].parent < |ns'| ensures h[c] < h[ns'[c].parent] {
      if c != x && IsAbove(ns, c, p) { AboveChild(ns, c, p); }
    }
    assert Climbs(ns', h);
  }

  lemma CutKeepsAcyclic(ns: Arena, ns': Arena, x: nat)
    requires Acyclic(ns) && Reparented(ns, ns', x, NULL)
    ensures Acyclic(ns')
  {
    var height: seq<nat> :| Climbs(ns, height);
    assert Climbs(ns', height);
  }

  /** After a cut, what was not above a node is not above it either. */
  lemma {:induction false} CutChain(ns: Arena, ns': Arena, x: nat, from: Ref, up: nat, k: nat)
    requires Reparented(ns, ns', x, NULL) && ParentChain(ns', from, up, k)
    ensures ParentChain(ns, from, up, k)
    decreases k
  {
    if k > 0 && from != x {
      CutChain(ns, ns', x, ns'[from].parent, up, k - 1);
    }
  }

  /** A chain that leads to `x` does not need the parent link of `x`. */
  lemma {:induction false} ChainTo(ns: Arena, ns': Arena, x: nat, p: Ref, from: Ref, k: nat) returns (j: nat)
    requires Reparented(ns, ns', x, p) && ParentChain(ns, from, x, k)
    ensures ParentChain(ns', from, x, j)
    decreases k
  {
    if from == x {
      j := 0;
    } else {
      j := ChainTo(ns, ns', x, p, ns[from].parent, k - 1);
      j := j + 1;
    }
  }

  lemma {:induction false} ChainClimbs(ns: Arena, height: seq<nat>, from: nat, up: nat, k: nat)
    requires Climbs(ns, height) && from < |ns| && up < |ns| && ParentChain(ns, from, up, k)
    ensures height[from] <= height[up]
    decreases k
  {
    if k > 0 {
      if k == 1 {
      } else {
        assert 0 <= ns[from].parent < |ns|;
      }
      ChainClimbs(ns, height, ns[from].parent, up, k - 1);
    }
  }

  /** Moving `x` under `p` keeps the links acyclic exactly if `p` is not below `x`. */
  lemma MoveKeepsAcyclicExactly(ns: Arena, ns': Arena, x: nat, p: nat)
    requires Acyclic(ns) && p < |ns| && Reparented(ns, ns', x, p)
    ensures Acyclic(ns') <==> !IsAbove(ns, x, p)
  {
    if IsAbove(ns, x, p) && Acyclic(ns') {
      var k: nat :| ParentChain(ns, p, x, k);
      var j := ChainTo(ns, ns', x, p, p, k);
      var h: seq<nat> :| Climbs(ns', h);
      ChainClimbs(ns', h, p, x, j);
      assert false;
    }
    if !IsAbove(ns, x, p) {
      var cut := ns[x := ns[x].(parent := NULL)];
      CutKeepsAcyclic(ns, cut, x);
      forall k: nat ensures !ParentChain(cut, p, x, k) {
        if ParentChain(cut, p, x, k) { CutChain(ns, cut, x, p, x, k); }
      }
      var height: seq<nat> :| Climbs(cut, height);
      HangKeepsAcyclic(cut, ns', height, x, p);
    }
  }
}
