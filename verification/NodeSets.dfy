/**
  The comparator for document order of xml/pugixml.cpp, and what becomes of a node-set: its duplicates are removed
  by sorting it by address, and then it is sorted by document order.
 */
module NodeSets {
  import opened Dom
  import opened DocumentOrder
  import opened XPathAxes
  import Sorting

  /** Nodes of the tree by their positions; any others behind them. */
  ghost function Key(t: Forest, x: nat): nat {
    if x in Ids(t) then Pos(t, x) else |Preorder(t)| + x
  }

  /** The pairs that the comparator answers `true` for. */
  ghost function InDocument(t: Forest): Sorting.Order<nat> {
    iset x: nat, y: nat | Key(t, x) < Key(t, y) :: (x, y)
  }

  /** `duplicate_comparator`: by address. */
  ghost function ByAddress(): Sorting.Order<nat> {
    iset x: nat, y: nat | x < y :: (x, y)
  }

  /** `document_order_comparator`, of nodes whose text is not in the document's buffer. */
  method DocumentOrderComparator(ns: Arena, left: nat, right: nat, ghost t: Forest) returns (before: bool)
    requires IsTree(ns, t) && left in Ids(t) && right in Ids(t) && left < |ns| && right < |ns|
    ensures before <==> Sorting.Less(InDocument(t), left, right)
  {
    hide IsTree, Ids, Preorder, Pos;
    if left == right {
      return false;
    }
    before := NodeIsBefore(ns, left, right, t);
  }

  lemma KeysDiffer(t: Forest, x: nat, y: nat)
    ensures Key(t, x) == Key(t, y) <==> x == y
  {
    hide Ids, Preorder, Pos;
    if x in Ids(t) && y in Ids(t) { DifferentNodesDifferentPos(t, x, y); }
  }

  /** So the comparator is a strict total order, as `sort` needs it, although `node_is_before` is not. */
  lemma ComparatorIsTotalOrder(t: Forest)
    ensures Sorting.StrictTotalOrder(InDocument(t)) && Sorting.StrictTotalOrder(ByAddress())
  {
    hide Ids, Preorder, Pos, Key;
    var less := InDocument(t);
    forall x: nat, y: nat ensures x == y || Sorting.Less(less, x, y) || Sorting.Less(less, y, x) {
      KeysDiffer(t, x, y);
    }
  }

  /** Two lists in document order with the same nodes are the same. */
  lemma {:induction false} OneListInOrder(t: Forest, l: seq<nat>, r: seq<nat>)
    requires InDocumentOrder(t, l) && InDocumentOrder(t, r) && forall x: nat :: x in l <==> x in r
    ensures l == r
  {
    hide Ids, Preorder, Pos;
    EmptyAlike(l, r);
    if l != [] {
      var n, m := |l| - 1, |r| - 1;
      LastIsLast(t, l, r[m]);
      LastIsLast(t, r, l[n]);
      DifferentNodesDifferentPos(t, l[n], r[m]);
      forall x: nat ensures x in l[..n] <==> x in r[..m] {
        Shorter(t, l, x);
        Shorter(t, r, x);
      }
      OneListInOrder(t, l[..n], r[..m]);
      assert l == l[..n] + [l[n]] && r == r[..m] + [r[m]];
    }
  }

  lemma EmptyAlike(l: seq<nat>, r: seq<nat>)
    requires forall x: nat :: x in l <==> x in r
    ensures l == [] <==> r == []
  {
    assert l != [] ==> l[0] in r;
    assert r != [] ==> r[0] in l;
  }

  lemma LastIsLast(t: Forest, l: seq<nat>, x: nat)
    requires InDocumentOrder(t, l) && x in l
    ensures l[|l| - 1] in Ids(t) && x in Ids(t) && Pos(t, x) <= Pos(t, l[|l| - 1])
  {
    hide Ids, Preorder, Pos;
    var i: nat :| i < |l| && l[i] == x;
  }

  lemma Shorter(t: Forest, l: seq<nat>, x: nat)
    requires InDocumentOrder(t, l) && l != []
    ensures InDocumentOrder(t, l[..|l| - 1]) && (x in l[..|l| - 1] <==> x in l && x != l[|l| - 1])
  {
    hide Ids, Preorder, Pos;
    var n := |l| - 1;
    if x in l && x != l[n] {
      var i: nat :| i < |l| && l[i] == x;
      assert l[..n][i] == x;
    }
    if x in l[..n] {
      var i: nat :| i < n && l[..n][i] == x;
      assert Pos(t, l[i]) < Pos(t, l[n]);
    }
  }

  /** Nodes of the tree sorted with the comparator, without duplicates, are in document order. */
  lemma SortedIsInOrder(t: Forest, l: seq<nat>)
    requires forall i: nat | i < |l| :: l[i] in Ids(t)
    requires forall i: nat, j: nat | i < j < |l| :: l[i] != l[j]
    requires Sorting.Sorted(l, InDocument(t))
    ensures InDocumentOrder(t, l)
  {
    hide Ids, Preorder, Pos;
    forall i, j | 0 <= i < j < |l| ensures Pos(t, l[i]) < Pos(t, l[j]) {
      assert !Sorting.Less(InDocument(t), l[j], l[i]);
      KeysDiffer(t, l[i], l[j]);
    }
  }

  /**
    Nodes in any order and with duplicates, sorted by address, made unique, and sorted by document order: the result is
    the list of exactly these nodes in document order, whatever pivots the two sorts choose.
   */
  lemma NodeSetInDocumentOrder(t: Forest, nodes: seq<nat>, byAddress: seq<nat>, result: seq<nat>)
    requires Separate(t) && forall x: nat | x in nodes :: x in Ids(t)
    requires Sorting.Permutes(nodes, byAddress) && Sorting.Sorted(byAddress, ByAddress())
    requires Sorting.Permutes(Sorting.Compressed(byAddress), result) && Sorting.Sorted(result, InDocument(t))
    ensures result == Forward(Preorder(t), |Preorder(t)|, set x | x in nodes)
  {
    hide Separate, Ids, Preorder, Pos, Forward, Sorting.Compressed, Sorting.Sorted, Sorting.StrictTotalOrder;
    var unique := Sorting.Compressed(byAddress);
    ComparatorIsTotalOrder(t);
    Sorting.CompressedSorted(byAddress, ByAddress());
    Sorting.PermutesSameElements(nodes, byAddress);
    Sorting.PermutesSameElements(unique, result);
    NoDuplicates(unique, result);
    forall i: nat | i < |result| ensures result[i] in Ids(t) { assert result[i] in result; }
    SortedIsInOrder(t, result);
    var all := set x | x in nodes;
    ForwardFacts(t, |Preorder(t)|, all);
    OneListInOrder(t, result, Forward(Preorder(t), |Preorder(t)|, all));
  }

  lemma NoDuplicates(l: seq<nat>, r: seq<nat>)
    requires Sorting.Permutes(l, r) && forall i: nat, j: nat | i < j < |l| :: l[i] != l[j]
    ensures forall i: nat, j: nat | i < j < |r| :: r[i] != r[j]
  {
    forall i: nat, j: nat | i < j < |r| ensures r[i] != r[j] {
      TwiceMeansTwo(r, i, j);
      if r[i] == r[j] {
        assert multiset(l)[r[i]] >= 2;
        OnlyOnce(l, r[i]);
      }
    }
  }

  lemma TwiceMeansTwo(r: seq<nat>, i: nat, j: nat)
    requires i < j < |r|
    ensures r[i] == r[j] ==> multiset(r)[r[i]] >= 2
  {
    assert r == r[..j] + [r[j]] + r[j + 1..];
    assert r[i] in r[..j];
    assert multiset(r) == multiset(r[..j]) + multiset([r[j]]) + multiset(r[j + 1..]);
  }

  lemma {:induction false} OnlyOnce(l: seq<nat>, x: nat)
    requires forall i: nat, j: nat | i < j < |l| :: l[i] != l[j]
    ensures multiset(l)[x] <= 1
  {
    if l != [] {
      var n := |l| - 1;
      OnlyOnce(l[..n], x);
      assert l == l[..n] + [l[n]];
      if x == l[n] { assert x !in l[..n]; }
    }
  }
}
