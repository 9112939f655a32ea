/**
  From child lists to trees: the nodes below a node form a `Forest`, and for a document node the links are
  exactly the tree that the XPath traversals and the document order work on.
*/
module NodeTrees {
  import opened Common
  import opened Dom
  import opened ChildLists

  /** Children are lower than their parents. */
  ghost predicate Tall(kids: Kids, height: seq<nat>) {
    && |height| == |kids|
    && forall n: nat, i: nat | n < |kids| && i < |kids[n]| :: kids[n][i] < |kids| && height[kids[n][i]] < height[n]
  }

  lemma WiredTall(ns: Arena, kids: Kids, height: seq<nat>)
    requires |kids| == |ns| && Wired(ns, kids) && Climbs(ns, height)
    ensures Tall(kids, height)
  {
    forall n: nat, i: nat | n < |kids| && i < |kids[n]| ensures kids[n][i] < |kids| && height[kids[n][i]] < height[n] {
      ListedParents(ns, n, kids[n]);
    }
  }

  ghost predicate Lower(kids: Kids, height: seq<nat>, list: seq<nat>, bound: nat) {
    |height| == |kids| && forall i: nat | i < |list| :: list[i] < |kids| && height[list[i]] < bound
  }

  /** The listed nodes with all that is below them. */
  ghost function Grow(kids: Kids, height: seq<nat>, list: seq<nat>, bound: nat): Forest
    requires Tall(kids, height) && Lower(kids, height, list, bound)
    decreases bound, |list|
  {
    if list == [] then Nil
    else Cons(list[0], Grow(kids, height, kids[list[0]], height[list[0]]), Grow(kids, height, list[1..], bound))
  }

  /** A node with all that is below it. */
  ghost function TreeOf(kids: Kids, height: seq<nat>, n: nat): Forest
    requires Tall(kids, height) && n < |kids|
  {
    Grow(kids, height, [n], height[n] + 1)
  }

  lemma {:induction false} GrowEnds(kids: Kids, height: seq<nat>, list: seq<nat>, bound: nat)
    requires Tall(kids, height) && Lower(kids, height, list, bound)
    ensures var f := Grow(kids, height, list, bound);
            First(f) == HeadOf(list) && Last(f) == if list == [] then NULL else list[|list| - 1]
  {
    if list != [] { GrowEnds(kids, height, list[1..], bound); }
  }

  /** The children of `n` from number `i` on are linked as their forest says. */
  lemma {:induction false} GrowLinked(ns: Arena, kids: Kids, height: seq<nat>, n: nat, i: nat, prev: Ref)
    requires |kids| == |ns| && Wired(ns, kids) && Climbs(ns, height) && Tall(kids, height) && n < |ns| && i <= |kids[n]|
    requires i < |kids[n]| ==> prev == PrevIn(kids[n], i)
    ensures Linked(ns, Grow(kids, height, kids[n][i..], height[n]), n, prev)
    decreases height[n], |kids[n]| - i
  {
    hide Wired, Climbs, Tall;
    var l := kids[n];
    if i < |l| {
      var c := l[i];
      ListedAt(ns, kids, n, i);
      TallAt(kids, height, n, c);
      GrowLinked(ns, kids, height, c, 0, if kids[c] == [] then NULL else PrevIn(kids[c], 0));
      GrowLinked(ns, kids, height, n, i + 1, c);
      assert l[i..][1..] == l[i + 1..] && kids[c][0..] == kids[c];
      TallAt(kids, height, c, c);
      GrowEnds(kids, height, kids[c], height[c]);
      GrowEnds(kids, height, l[i + 1..], height[n]);
    }
  }

  lemma ListedAt(ns: Arena, kids: Kids, n: nat, i: nat)
    requires |kids| == |ns| && Wired(ns, kids) && n < |ns| && i < |kids[n]|
    ensures |kids| == |ns|
    ensures var c := kids[n][i];
            c < |ns| && ns[c] == Links(n, HeadOf(kids[c]), NextIn(kids[n], i), PrevIn(kids[n], i))
  {
    assert Listed(ns, n, kids[n]);
    assert Listed(ns, kids[n][i], kids[kids[n][i]]);
  }

  lemma TallAt(kids: Kids, height: seq<nat>, n: nat, c: nat)
    requires Tall(kids, height) && n < |kids|
    ensures Lower(kids, height, kids[n], height[n]) && (c in kids[n] ==> c < |kids| && height[c] < height[n])
  {
  }

  /** Every node of a forest is below one of the listed nodes. */
  lemma {:induction false} GrowTop(ns: Arena, kids: Kids, height: seq<nat>, list: seq<nat>, bound: nat, x: nat)
    returns (c: nat)
    requires |kids| == |ns| && Wired(ns, kids) && Tall(kids, height) && Lower(kids, height, list, bound)
    requires x in Ids(Grow(kids, height, list, bound))
    ensures c in list && IsAbove(ns, c, x)
    decreases bound, |list|
  {
    hide Wired, Tall, IsAbove;
    var h := list[0];
    if x == h {
      c := h;
      AboveItself(ns, h);
    } else {
      TallAt(kids, height, h, h);
      if x in Ids(Grow(kids, height, kids[h], height[h])) {
        var d := GrowTop(ns, kids, height, kids[h], height[h], x);
        var i: nat :| i < |kids[h]| && kids[h][i] == d;
        ListedAt(ns, kids, h, i);
        AboveChild(ns, d, x);
        c := h;
      } else {
        c := GrowTop(ns, kids, height, list[1..], bound, x);
      }
    }
  }

  /** Two chains from one node run along each other. */
  lemma {:induction false} ChainsMeet(ns: Arena, x: Ref, a: nat, b: nat, j: nat, k: nat)
    requires ParentChain(ns, x, a, j) && ParentChain(ns, x, b, k) && j <= k
    ensures ParentChain(ns, a, b, k - j)
    decreases j
  {
    if j > 0 { ChainsMeet(ns, ns[x].parent, a, b, j - 1, k - 1); }
  }

  /** Only one of a node's children can be above a given node. */
  lemma SiblingsAreApart(ns: Arena, height: seq<nat>, a: nat, b: nat, x: nat)
    requires Climbs(ns, height) && a < |ns| && b < |ns| && ns[a].parent == ns[b].parent && 0 <= ns[a].parent < |ns|
    requires IsAbove(ns, a, x) && IsAbove(ns, b, x)
    ensures a == b
  {
    var j: nat :| ParentChain(ns, x, a, j);
    var k: nat :| ParentChain(ns, x, b, k);
    if j <= k {
      ChainsMeet(ns, x, a, b, j, k);
      if k > j { ChainClimbs(ns, height, ns[a].parent, b, k - j - 1); }
    } else {
      ChainsMeet(ns, x, b, a, k, j);
      ChainClimbs(ns, height, ns[b].parent, a, j - k - 1);
    }
  }

  lemma NotAboveParent(ns: Arena, height: seq<nat>, c: nat, x: nat)
    requires Climbs(ns, height) && c < |ns| && x < |ns| && IsAbove(ns, c, x)
    ensures height[x] <= height[c]
  {
    var k: nat :| ParentChain(ns, x, c, k);
    ChainClimbs(ns, height, x, c, k);
  }

  /** Nodes that can stand side by side: different children of one node, or a node alone. */
  ghost predicate SideBySide(ns: Arena, list: seq<nat>) {
    && Distinct(list)
    && (|list| > 1 ==> forall i, j | 0 <= i < j < |list| ::
          list[i] < |ns| && list[j] < |ns| && ns[list[i]].parent == ns[list[j]].parent && 0 <= ns[list[i]].parent < |ns|)
  }

  lemma ChildrenSideBySide(ns: Arena, kids: Kids, n: nat)
    requires |kids| == |ns| && Wired(ns, kids) && n < |ns|
    ensures SideBySide(ns, kids[n])
  {
    assert Listed(ns, n, kids[n]);
  }

  lemma {:induction false} GrowSeparate(ns: Arena, kids: Kids, height: seq<nat>, list: seq<nat>, bound: nat)
    requires |kids| == |ns| && Wired(ns, kids) && Climbs(ns, height) && Tall(kids, height) && Lower(kids, height, list, bound)
    requires SideBySide(ns, list)
    ensures Separate(Grow(kids, height, list, bound))
    decreases bound, |list|
  {
    hide Wired, Climbs, Tall, IsAbove;
    if list != [] {
      var h, rest := list[0], list[1..];
      TallAt(kids, height, h, h);
      ChildrenSideBySide(ns, kids, h);
      GrowSeparate(ns, kids, height, kids[h], height[h]);
      GrowSeparate(ns, kids, height, rest, bound);
      var below, beside := Grow(kids, height, kids[h], height[h]), Grow(kids, height, rest, bound);
      if h in Ids(below) {
        var c := GrowTop(ns, kids, height, kids[h], height[h], h);
        ChildNotAbove(ns, kids, height, h, c);
      }
      forall x: nat | x in Ids(beside) ensures x != h && x !in Ids(below) {
        var c := GrowTop(ns, kids, height, rest, bound, x);
        AboveAll(ns, kids, height, h, x);
        assert c != h by { var j :| 0 <= j < |rest| && rest[j] == c; assert list[j + 1] == c; }
        Apart(ns, height, list, c, x);
      }
    }
  }

  lemma ChildNotAbove(ns: Arena, kids: Kids, height: seq<nat>, h: nat, c: nat)
    requires |kids| == |ns| && Wired(ns, kids) && Climbs(ns, height) && Tall(kids, height) && h < |kids| && c in kids[h]
    ensures !IsAbove(ns, c, h)
  {
    if IsAbove(ns, c, h) { NotAboveParent(ns, height, c, h); }
  }

  lemma AboveAll(ns: Arena, kids: Kids, height: seq<nat>, h: nat, x: nat)
    requires |kids| == |ns| && Wired(ns, kids) && Tall(kids, height) && h < |kids| && Lower(kids, height, kids[h], height[h])
    ensures x == h || x in Ids(Grow(kids, height, kids[h], height[h])) ==> IsAbove(ns, h, x)
  {
    hide Wired, Tall, IsAbove;
    if x == h {
      AboveItself(ns, h);
    } else if x in Ids(Grow(kids, height, kids[h], height[h])) {
      var d := GrowTop(ns, kids, height, kids[h], height[h], x);
      var i: nat :| i < |kids[h]| && kids[h][i] == d;
      ListedAt(ns, kids, h, i);
      AboveChild(ns, d, x);
    }
  }

  lemma AboveItself(ns: Arena, x: nat)
    ensures IsAbove(ns, x, x)
  {
    assert ParentChain(ns, x, x, 0);
  }

  lemma Apart(ns: Arena, height: seq<nat>, list: seq<nat>, c: nat, x: nat)
    requires Climbs(ns, height) && SideBySide(ns, list) && list != [] && c in list && c != list[0]
    ensures !(IsAbove(ns, list[0], x) && IsAbove(ns, c, x))
  {
    var j: nat :| j < |list| && list[j] == c;
    assert 0 < j;
    if IsAbove(ns, list[0], x) && IsAbove(ns, c, x) { SiblingsAreApart(ns, height, list[0], list[j], x); }
  }

  // ----- documents are trees -----

  lemma {:induction false} GrowClosed(kids: Kids, height: seq<nat>, list: seq<nat>, bound: nat, p: nat, c: nat)
    requires Tall(kids, height) && Lower(kids, height, list, bound)
    requires p in Ids(Grow(kids, height, list, bound)) && p < |kids| && c in kids[p]
    ensures c in Ids(Grow(kids, height, list, bound))
    decreases bound, |list|
  {
    var h := list[0];
    TallAt(kids, height, h, h);
    hide Tall;
    if p == h {
      GrowHas(kids, height, kids[h], height[h], c);
    } else if p in Ids(Grow(kids, height, kids[h], height[h])) {
      GrowClosed(kids, height, kids[h], height[h], p, c);
    } else {
      GrowClosed(kids, height, list[1..], bound, p, c);
    }
  }

  lemma {:induction false} GrowHas(kids: Kids, height: seq<nat>, list: seq<nat>, bound: nat, x: nat)
    requires Tall(kids, height) && Lower(kids, height, list, bound) && x in list
    ensures x in Ids(Grow(kids, height, list, bound))
  {
    if x != list[0] { GrowHas(kids, height, list[1..], bound, x); }
  }

  lemma PlacedAt(ns: Arena, kids: Kids, x: nat)
    requires |kids| == |ns| && Wired(ns, kids) && x < |ns|
    ensures Placed(ns, kids, x)
  {
  }

  lemma TreeNode(kids: Kids, height: seq<nat>, d: nat)
    requires Tall(kids, height) && d < |kids|
    ensures Lower(kids, height, kids[d], height[d])
    ensures TreeOf(kids, height, d) == Cons(d, Grow(kids, height, kids[d], height[d]), Nil)
    ensures d in Ids(TreeOf(kids, height, d))
  {
    assert [d][1..] == [];
    assert Grow(kids, height, [], height[d] + 1) == Nil;
  }

  lemma {:induction false} GrowReaches(ns: Arena, kids: Kids, height: seq<nat>, d: nat, x: nat, k: nat)
    requires |kids| == |ns| && Wired(ns, kids) && Tall(kids, height) && d < |ns| && x < |ns| && ParentChain(ns, x, d, k)
    ensures x in Ids(TreeOf(kids, height, d))
    decreases k
  {
    hide Wired, Tall, Grow, Ids;
    TreeNode(kids, height, d);
    if k > 0 {
      PlacedAt(ns, kids, x);
      var p := ns[x].parent;
      if p >= 0 {
        GrowReaches(ns, kids, height, d, p, k - 1);
        GrowClosed(kids, height, [d], height[d] + 1, p, x);
      }
    }
  }

  /** The node below which nothing is left out: a document, whose previous sibling is itself. */
  lemma DocumentIsTree(ns: Arena, kids: Kids, height: seq<nat>, d: nat)
    requires |kids| == |ns| && Wired(ns, kids) && Climbs(ns, height) && d < |ns| && ns[d].parent == NULL && ns[d].prevC == d
    ensures Tall(kids, height) && IsTree(ns, TreeOf(kids, height, d)) && TreeOf(kids, height, d).id == d
    ensures forall x: nat | x < |ns| :: x in Ids(TreeOf(kids, height, d)) <==> IsAbove(ns, d, x)
  {
    hide Wired, Climbs, Tall, IsAbove;
    WiredTall(ns, kids, height);
    TallAt(kids, height, d, d);
    LooseDocument(ns, kids, d);
    TreeNode(kids, height, d);
    GrowLinked(ns, kids, height, d, 0, if kids[d] == [] then NULL else PrevIn(kids[d], 0));
    assert kids[d][0..] == kids[d];
    GrowEnds(kids, height, kids[d], height[d]);
    GrowSeparate(ns, kids, height, [d], height[d] + 1);
    assert IsTree(ns, TreeOf(kids, height, d)) by {
      hide Grow;
      var below := Grow(kids, height, kids[d], height[d]);
      assert Linked(ns, below, d, Last(below));
      assert Linked(ns, Nil, NULL, d);
      assert Linked(ns, Cons(d, below, Nil), NULL, d);
    }
    forall x: nat | x < |ns| ensures x in Ids(TreeOf(kids, height, d)) <==> IsAbove(ns, d, x) {
      if x in Ids(TreeOf(kids, height, d)) {
        var c := GrowTop(ns, kids, height, [d], height[d] + 1, x);
      }
      if IsAbove(ns, d, x) {
        var k := ChainOf(ns, d, x);
        GrowReaches(ns, kids, height, d, x, k);
      }
    }
  }

  lemma ChainOf(ns: Arena, d: nat, x: nat) returns (k: nat)
    requires IsAbove(ns, d, x)
    ensures ParentChain(ns, x, d, k)
  {
    k :| ParentChain(ns, x, d, k);
  }

  lemma LooseDocument(ns: Arena, kids: Kids, d: nat)
    requires |kids| == |ns| && Wired(ns, kids) && d < |ns| && ns[d].parent == NULL && ns[d].prevC == d
    ensures |kids| == |ns| && ns[d] == Links(NULL, HeadOf(kids[d]), NULL, d)
  {
    assert Placed(ns, kids, d);
    assert Listed(ns, d, kids[d]);
  }
}
