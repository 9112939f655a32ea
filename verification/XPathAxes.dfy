/**
  The axis traversals of `step_fill` in xml/pugixml.cpp for an element context node: loops over the node
  links that push the nodes of an axis that pass the node test, in document order or, for a reverse axis,
  in reverse document order; with `once` they stop at the first push.  A node test is given by the set of
  the nodes that pass it.
*/
module XPathAxes {
  import opened Dom
  import opened DocumentOrder

  datatype Axis =
    | Ancestor | AncestorOrSelf | Child | Descendant | DescendantOrSelf | Following | FollowingSibling
    | ParentAxis | Preceding | PrecedingSibling | Self

  /** `axis_reverse` of `step_do`. */
  predicate IsReverse(axis: Axis) {
    axis.Ancestor? || axis.AncestorOrSelf? || axis.Preceding? || axis.PrecedingSibling?
  }

  // ----- section 2.2 of XPath 1.0: the nodes of an axis -----

  ghost predicate Context(ns: Arena, t: Forest, n: nat) {
    IsTree(ns, t) && n in Ids(t) && n < |ns|
  }

  ghost predicate OnAxis(ns: Arena, t: Forest, axis: Axis, n: nat, x: nat)
    requires n in Ids(t) && x in Ids(t) && n < |ns| && x < |ns|
  {
    match axis
    case Self => x == n
    case ParentAxis => x == ns[n].parent
    case Child => ns[x].parent == n
    case Descendant => x != n && Encloses(t, n, x)
    case DescendantOrSelf => Encloses(t, n, x)
    case Ancestor => x != n && Encloses(t, x, n)
    case AncestorOrSelf => Encloses(t, x, n)
    case Following => Pos(t, n) < Pos(t, x) && !Encloses(t, n, x)
    case Preceding => Pos(t, x) < Pos(t, n) && !Encloses(t, x, n)
    case FollowingSibling => ns[x].parent == ns[n].parent && Pos(t, n) < Pos(t, x)
    case PrecedingSibling => ns[x].parent == ns[n].parent && Pos(t, x) < Pos(t, n)
  }

  /** What a step is about: a tree, a context node, an axis, the nodes that pass the test; `once` wants only one. */
  datatype Query = Query(ns: Arena, t: Forest, axis: Axis, n: nat, test: set<nat>, once: bool)

  ghost predicate Asked(q: Query) {
    Context(q.ns, q.t, q.n)
  }

  ghost function Keep(q: Query): set<nat>
    requires Asked(q)
  {
    set x | x in Ids(q.t) && x < |q.ns| && OnAxis(q.ns, q.t, q.axis, q.n, x) && x in q.test
  }

  /** The nodes at the positions from 0 up to `hi` that are in `keep`, in document order. */
  function Forward(o: seq<nat>, hi: nat, keep: set<nat>): seq<nat>
    requires hi <= |o|
  {
    if hi == 0 then [] else Forward(o, hi - 1, keep) + (if o[hi - 1] in keep then [o[hi - 1]] else [])
  }

  /** The nodes at the positions from the last one down to `lo` that are in `keep`, in reverse document order. */
  function Backward(o: seq<nat>, lo: nat, keep: set<nat>): seq<nat>
    requires lo <= |o|
    decreases |o| - lo
  {
    if lo == |o| then [] else Backward(o, lo + 1, keep) + (if o[lo] in keep then [o[lo]] else [])
  }

  /** What the step selects. */
  ghost function Selected(q: Query): seq<nat>
    requires Asked(q)
  {
    var o := Preorder(q.t);
    var full := if IsReverse(q.axis) then Backward(o, 0, Keep(q)) else Forward(o, |o|, Keep(q));
    if q.once && full != [] then full[..1] else full
  }

  // ----- lists by position -----

  lemma {:induction false} ForwardSkip(o: seq<nat>, lo: nat, hi: nat, keep: set<nat>)
    requires lo <= hi <= |o| && forall p: nat | lo <= p < hi :: o[p] !in keep
    ensures Forward(o, hi, keep) == Forward(o, lo, keep)
  {
    if lo < hi { ForwardSkip(o, lo, hi - 1, keep); }
  }

  lemma {:induction false} BackwardSkip(o: seq<nat>, lo: nat, hi: nat, keep: set<nat>)
    requires lo <= hi <= |o| && forall p: nat | lo <= p < hi :: o[p] !in keep
    ensures Backward(o, lo, keep) == Backward(o, hi, keep)
    decreases hi - lo
  {
    if lo < hi { BackwardSkip(o, lo + 1, hi, keep); }
  }

  lemma {:induction false} ForwardPrefix(o: seq<nat>, lo: nat, hi: nat, keep: set<nat>)
    requires lo <= hi <= |o|
    ensures Forward(o, lo, keep) <= Forward(o, hi, keep)
  {
    if lo < hi { ForwardPrefix(o, lo, hi - 1, keep); }
  }

  lemma {:induction false} BackwardPrefix(o: seq<nat>, lo: nat, hi: nat, keep: set<nat>)
    requires lo <= hi <= |o|
    ensures Backward(o, hi, keep) <= Backward(o, lo, keep)
    decreases hi - lo
  {
    if lo < hi { BackwardPrefix(o, lo + 1, hi, keep); }
  }

  // ----- how far a traversal has come -----

  /** The traversal has dealt with the positions below `p`, or from `p` on if the axis is a reverse one. */
  ghost predicate Done(q: Query, list: seq<nat>, p: int, out: seq<nat>)
    requires Asked(q)
  {
    && 0 <= p <= |Preorder(q.t)|
    && var got := if IsReverse(q.axis) then Backward(Preorder(q.t), p, Keep(q)) else Forward(Preorder(q.t), p, Keep(q));
       out == list + got && (q.once ==> got == [])
  }

  /** Nothing to keep from position `p` up to `r`. */
  ghost predicate Barren(q: Query, p: int, r: int)
    requires Asked(q)
  {
    0 <= p && r <= |Preorder(q.t)| && forall i: nat | p <= i < r :: Preorder(q.t)[i] !in Keep(q)
  }

  lemma Over(q: Query, list: seq<nat>, p: nat, r: nat, out: seq<nat>)
    requires Asked(q) && p <= r && Barren(q, p, r)
    ensures !IsReverse(q.axis) && Done(q, list, p, out) ==> Done(q, list, r, out)
    ensures IsReverse(q.axis) && Done(q, list, r, out) ==> Done(q, list, p, out)
  {
    ForwardSkip(Preorder(q.t), p, r, Keep(q));
    BackwardSkip(Preorder(q.t), p, r, Keep(q));
  }

  lemma Start(q: Query, list: seq<nat>, p: nat)
    requires Asked(q) && if IsReverse(q.axis) then Barren(q, p, |Preorder(q.t)|) && p <= |Preorder(q.t)| else Barren(q, 0, p)
    ensures Done(q, list, p, list)
  {
    assert list + [] == list;
    if IsReverse(q.axis) { Over(q, list, p, |Preorder(q.t)|, list); } else { Over(q, list, 0, p, list); }
  }

  lemma Finish(q: Query, list: seq<nat>, p: nat, out: seq<nat>)
    requires Asked(q) && Done(q, list, p, out)
    requires if IsReverse(q.axis) then Barren(q, 0, p) else Barren(q, p, |Preorder(q.t)|)
    ensures out == list + Selected(q)
  {
    if IsReverse(q.axis) { Over(q, list, 0, p, out); } else { Over(q, list, p, |Preorder(q.t)|, out); }
  }

  /** A stretch is barren if none of its nodes is on the axis. */
  lemma OffAxis(q: Query, p: nat, r: nat)
    requires Asked(q) && r <= |Preorder(q.t)|
    requires forall x: nat | x in Ids(q.t) && x < |q.ns| && p <= Pos(q.t, x) < r :: !OnAxis(q.ns, q.t, q.axis, q.n, x)
    ensures Barren(q, p, r)
  {
    forall i: nat | p <= i < r ensures Preorder(q.t)[i] !in Keep(q) {
      PosUnique(q.t, i);
    }
  }

  /** `step_push` of the node at the next position, which is on the axis; `stop` if no other node is wanted. */
  method StepPush(list: seq<nat>, x: nat, test: set<nat>, once: bool, ghost q: Query, ghost before: seq<nat>)
    returns (out: seq<nat>, stop: bool)
    requires Asked(q) && q.test == test && q.once == once
    requires x in Ids(q.t) && x < |q.ns| && OnAxis(q.ns, q.t, q.axis, q.n, x)
    requires Done(q, before, if IsReverse(q.axis) then Pos(q.t, x) + 1 else Pos(q.t, x), list)
    ensures stop ==> out == before + Selected(q)
    ensures !stop ==> Done(q, before, if IsReverse(q.axis) then Pos(q.t, x) else Pos(q.t, x) + 1, out)
  {
    hide *;
    var pushed := x in test;
    out := if pushed then list + [x] else list;
    stop := pushed && once;
    PushedNode(q, before, list, x, out);
  }

  /** What one more node adds to the list. */
  lemma PushedNode(q: Query, before: seq<nat>, list: seq<nat>, x: nat, out: seq<nat>)
    requires Asked(q) && x in Ids(q.t) && x < |q.ns| && OnAxis(q.ns, q.t, q.axis, q.n, x)
    requires Done(q, before, if IsReverse(q.axis) then Pos(q.t, x) + 1 else Pos(q.t, x), list)
    requires out == if x in q.test then list + [x] else list
    ensures x in q.test && q.once ==> out == before + Selected(q)
    ensures !(x in q.test && q.once) ==> Done(q, before, if IsReverse(q.axis) then Pos(q.t, x) else Pos(q.t, x) + 1, out)
  {
    hide IsTree, Linked, Separate, Ids, Preorder, Pos, End, Depth, OnAxis, Forward, Backward;
    var o, keep, p := Preorder(q.t), Keep(q), Pos(q.t, x);
    assert o[p] == x && (x in keep <==> x in q.test);
    hide Keep, Context;
    if IsReverse(q.axis) {
      BackwardNext(o, p, keep);
      BackwardPrefix(o, 0, p, keep);
    } else {
      ForwardNext(o, p, keep);
      ForwardPrefix(o, p + 1, |o|, keep);
    }
  }

  lemma ForwardNext(o: seq<nat>, p: nat, keep: set<nat>)
    requires p < |o|
    ensures Forward(o, p + 1, keep) == Forward(o, p, keep) + if o[p] in keep then [o[p]] else []
  {
  }

  lemma BackwardNext(o: seq<nat>, p: nat, keep: set<nat>)
    requires p < |o|
    ensures Backward(o, p, keep) == Backward(o, p + 1, keep) + if o[p] in keep then [o[p]] else []
  {
  }

  // ----- self and parent -----

  method FillSelf(ns: Arena, n: nat, test: set<nat>, once: bool, list: seq<nat>, ghost t: Forest) returns (out: seq<nat>)
    requires Context(ns, t, n)
    ensures out == list + Selected(Query(ns, t, Self, n, test, once))
  {
    hide IsTree, Linked, Separate, Ids, Preorder, Pos, End, Depth, Selected, Done, Barren, Keep;
    ghost var q := Query(ns, t, Self, n, test, once);
    forall x: nat | x in Ids(t) ensures x == n || Pos(t, x) != Pos(t, n) { DifferentNodesDifferentPos(t, x, n); }
    OffAxis(q, 0, Pos(t, n));
    OffAxis(q, Pos(t, n) + 1, |Preorder(t)|);
    Start(q, list, Pos(t, n));
    var stop;
    out, stop := StepPush(list, n, test, once, q, list);
    if !stop { Finish(q, list, Pos(t, n) + 1, out); }
  }

  method FillParent(ns: Arena, n: nat, test: set<nat>, once: bool, list: seq<nat>, ghost t: Forest)
    returns (out: seq<nat>)
    requires Context(ns, t, n)
    ensures out == list + Selected(Query(ns, t, ParentAxis, n, test, once))
  {
    hide IsTree, Linked, Separate, Ids, Preorder, Pos, End, Depth, Selected, Done, Barren;
    ghost var q := Query(ns, t, ParentAxis, n, test, once);
    out := list;
    Parent(ns, t, n);
    if ns[n].parent != NULL {
      var p := ns[n].parent;
      OffAxis(q, 0, Pos(t, p));
      OffAxis(q, Pos(t, p) + 1, |Preorder(t)|);
      Start(q, list, Pos(t, p));
      var stop;
      out, stop := StepPush(list, p, test, once, q, list);
      if !stop { Finish(q, list, Pos(t, p) + 1, out); }
    } else {
      OffAxis(q, 0, |Preorder(t)|);
      Start(q, list, 0);
      Finish(q, list, 0, out);
    }
  }

  // ----- child and following-sibling -----

  /** Below a sibling there are no siblings. */
  lemma NotBelowSibling(ns: Arena, t: Forest, c: nat, x: nat)
    requires Context(ns, t, c) && x in Ids(t) && x < |ns| && Pos(t, c) < Pos(t, x) < End(t, c)
    ensures ns[x].parent != ns[c].parent
  {
    hide IsTree, Linked, Separate, Ids, Preorder, Pos, End, Depth;
    Enclosed(ns, t, c, x);
    Above(ns, t, c, x);
    Parent(ns, t, c);
  }

  /** The nodes at the positions of a node's subtree are the ones it encloses. */
  lemma Enclosed(ns: Arena, t: Forest, c: nat, x: nat)
    requires Context(ns, t, c) && x in Ids(t)
    ensures Encloses(t, c, x) <==> Pos(t, c) <= Pos(t, x) < End(t, c)
    ensures !Encloses(t, c, x) && Pos(t, c) < Pos(t, x) ==> End(t, c) <= Pos(t, x)
  {
    DifferentNodesDifferentPos(t, c, x);
    if Pos(t, c) < Pos(t, x) { Laminar(t, c, x); }
  }

  ghost function SiblingsBegin(q: Query): nat
    requires Asked(q)
  {
    if q.axis.Child? then Pos(q.t, q.n) + 1 else End(q.t, q.n)
  }

  ghost function SiblingsEnd(q: Query): nat
    requires Asked(q)
  {
    if q.axis.Child? then End(q.t, q.n)
    else if q.ns[q.n].parent in Ids(q.t) then End(q.t, q.ns[q.n].parent) else |Preorder(q.t)|
  }

  lemma OnlySiblings(q: Query)
    requires Asked(q) && (q.axis.Child? || q.axis.FollowingSibling?)
    ensures Barren(q, 0, SiblingsBegin(q)) && SiblingsEnd(q) <= |Preorder(q.t)|
    ensures Barren(q, SiblingsEnd(q), |Preorder(q.t)|)
  {
    hide IsTree, Linked, Separate, Ids, Preorder, Pos, End, Depth;
    var ns, t, n := q.ns, q.t, q.n;
    forall x: nat | x in Ids(t) && x < |ns| && OnAxis(ns, t, q.axis, n, x)
      ensures SiblingsBegin(q) <= Pos(t, x) < SiblingsEnd(q)
    {
      Parent(ns, t, x);
      Parent(ns, t, n);
      if q.axis.FollowingSibling? && Pos(t, x) < End(t, n) { NotBelowSibling(ns, t, n, x); }
    }
    OffAxis(q, 0, SiblingsBegin(q));
    OffAxis(q, SiblingsEnd(q), |Preorder(t)|);
  }

  /** Where the next of the siblings stands, given where the last one ended. */
  ghost predicate SiblingAt(q: Query, c: Ref, p: int)
    requires Asked(q)
  {
    && InTree(q.t, c)
    && (c != NULL ==> c < |q.ns| && Pos(q.t, c) == p && OnAxis(q.ns, q.t, q.axis, q.n, c))
    && (c == NULL ==> p == SiblingsEnd(q))
  }

  lemma FirstSibling(q: Query)
    requires Asked(q) && (q.axis.Child? || q.axis.FollowingSibling?)
    ensures SiblingAt(q, if q.axis.Child? then q.ns[q.n].firstChild else q.ns[q.n].next, SiblingsBegin(q))
  {
    hide IsTree, Linked, Separate, Ids, Preorder, Pos, End, Depth;
    FirstChild(q.ns, q.t, q.n);
    NextSibling(q.ns, q.t, q.n);
    Parent(q.ns, q.t, q.n);
  }

  lemma NextSiblingAt(q: Query, c: nat)
    requires Asked(q) && (q.axis.Child? || q.axis.FollowingSibling?)
    requires c in Ids(q.t) && SiblingAt(q, c, Pos(q.t, c))
    ensures c < |q.ns| && OnAxis(q.ns, q.t, q.axis, q.n, c) && SiblingAt(q, q.ns[c].next, End(q.t, c))
  {
    hide IsTree, Linked, Separate, Ids, Preorder, Pos, End, Depth, Keep;
    NextSibling(q.ns, q.t, c);
    Parent(q.ns, q.t, c);
  }

  lemma SiblingStep(q: Query, c: nat)
    requires Asked(q) && (q.axis.Child? || q.axis.FollowingSibling?)
    requires c in Ids(q.t) && SiblingAt(q, c, Pos(q.t, c))
    ensures SiblingAt(q, q.ns[c].next, End(q.t, c)) && Barren(q, Pos(q.t, c) + 1, End(q.t, c))
  {
    hide IsTree, Linked, Separate, Ids, Preorder, Pos, End, Depth;
    var ns, t, n := q.ns, q.t, q.n;
    NextSiblingAt(q, c);
    hide SiblingAt, SiblingsEnd;
    Parent(ns, t, c);
    forall x: nat | x in Ids(t) && x < |ns| && Pos(t, c) + 1 <= Pos(t, x) < End(t, c)
      ensures !OnAxis(ns, t, q.axis, n, x)
    {
      NotBelowSibling(ns, t, c, x);
    }
    OffAxis(q, Pos(t, c) + 1, End(t, c));
  }

  /** The loop that the child and the following-sibling axes share. */
  method FillSiblings(ns: Arena, n: nat, axis: Axis, test: set<nat>, once: bool, list: seq<nat>, ghost t: Forest)
    returns (out: seq<nat>)
    requires Context(ns, t, n) && (axis.Child? || axis.FollowingSibling?)
    ensures out == list + Selected(Query(ns, t, axis, n, test, once))
  {
    hide IsTree, Linked, Separate, Ids, Preorder, Pos, End, Depth, OnAxis, Selected, Done, Barren, SiblingsBegin, SiblingsEnd;
    ghost var q := Query(ns, t, axis, n, test, once);
    OnlySiblings(q);
    FirstSibling(q);
    Start(q, list, SiblingsBegin(q));
    out := list;
    var c := if axis.Child? then ns[n].firstChild else ns[n].next;
    ghost var p: nat := SiblingsBegin(q);
    while c != NULL
      invariant SiblingAt(q, c, p) && Done(q, list, p, out) && p <= |Preorder(t)|
      decreases |Preorder(t)| - p
    {
      var stop;
      out, stop := StepPush(out, c, test, once, q, list);
      if stop {
        return;
      }
      SiblingStep(q, c);
      Over(q, list, p + 1, End(t, c), out);
      p := End(t, c);
      c := ns[c].next;
    }
    Finish(q, list, p, out);
  }

  // ----- descendant, descendant-or-self and following -----

  /** Out of a finished subtree: the next node in document order, or NULL if that leaves the subtree of `stop`. */
  method NextOutside(ns: Arena, start: nat, stop: Ref, ghost t: Forest) returns (cur: Ref)
    requires IsTree(ns, t) && start in Ids(t) && start < |ns|
    requires stop == NULL || (stop >= 0 && stop in Ids(t) && stop != start && Encloses(t, stop, start))
    ensures InTree(t, cur) && (cur != NULL ==> cur < |ns| && Pos(t, cur) == End(t, start))
    ensures cur == NULL ==> End(t, start) == if stop == NULL then |Preorder(t)| else End(t, stop)
    ensures cur != NULL && stop != NULL ==> cur != stop && Encloses(t, stop, cur)
  {
    hide IsTree, Linked, Separate, Ids, Preorder, Pos, End, Depth;
    cur := start;
    while ns[cur].next == NULL
      invariant cur >= 0 && cur in Ids(t) && cur < |ns| && End(t, cur) == End(t, start)
      invariant stop != NULL ==> cur != stop && Encloses(t, stop, cur)
      decreases Depth(t, cur)
    {
      NextSibling(ns, t, cur);
      Parent(ns, t, cur);
      if stop != NULL { Above(ns, t, stop, cur); }
      cur := ns[cur].parent;
      if cur == stop { return NULL; }
    }
    NextSibling(ns, t, cur);
    if stop != NULL { StaysInside(ns, t, stop, cur); }
    cur := ns[cur].next;
  }

  /** A next sibling stays below whatever strictly encloses the node. */
  lemma StaysInside(ns: Arena, t: Forest, stop: nat, cur: nat)
    requires IsTree(ns, t) && stop in Ids(t) && cur in Ids(t) && cur < |ns| && stop != cur && Encloses(t, stop, cur)
    requires ns[cur].next != NULL
    ensures ns[cur].next >= 0 && ns[cur].next in Ids(t) && ns[cur].next != stop && Encloses(t, stop, ns[cur].next)
  {
    hide IsTree, Linked, Separate, Ids, Preorder, Pos, End, Depth;
    NextSibling(ns, t, cur);
    Above(ns, t, stop, cur);
    Parent(ns, t, ns[cur].next);
    DifferentNodesDifferentPos(t, stop, cur);
  }

  lemma OnlyDescendants(q: Query)
    requires Asked(q) && (q.axis.Descendant? || q.axis.DescendantOrSelf?)
    ensures Barren(q, 0, if q.axis.Descendant? then Pos(q.t, q.n) + 1 else Pos(q.t, q.n))
    ensures Barren(q, End(q.t, q.n), |Preorder(q.t)|)
  {
    hide IsTree, Linked, Separate, Ids, Preorder, Pos, End, Depth;
    forall x: nat | x in Ids(q.t) && x < |q.ns| && OnAxis(q.ns, q.t, q.axis, q.n, x)
      ensures (if q.axis.Descendant? then Pos(q.t, q.n) + 1 else Pos(q.t, q.n)) <= Pos(q.t, x) < End(q.t, q.n)
    {
      Enclosed(q.ns, q.t, q.n, x);
      DifferentNodesDifferentPos(q.t, q.n, x);
    }
    OffAxis(q, 0, if q.axis.Descendant? then Pos(q.t, q.n) + 1 else Pos(q.t, q.n));
    OffAxis(q, End(q.t, q.n), |Preorder(q.t)|);
  }

  method FillDescendants(ns: Arena, n: nat, orSelf: bool, test: set<nat>, once: bool, list: seq<nat>, ghost t: Forest)
    returns (out: seq<nat>)
    requires Context(ns, t, n)
    ensures out == list + Selected(Query(ns, t, if orSelf then DescendantOrSelf else Descendant, n, test, once))
  {
    hide IsTree, Linked, Separate, Ids, Preorder, Pos, End, Depth, Selected, Done, Barren;
    ghost var q := Query(ns, t, if orSelf then DescendantOrSelf else Descendant, n, test, once);
    out := list;
    OnlyDescendants(q);
    Start(q, list, if orSelf then Pos(t, n) else Pos(t, n) + 1);
    var stop;
    if orSelf {
      out, stop := StepPush(out, n, test, once, q, list);
      if stop {
        return;
      }
    }
    FirstChild(ns, t, n);
    var cur := ns[n].firstChild;
    ghost var p: nat := Pos(t, n) + 1;
    while cur != NULL
      invariant Done(q, list, p, out) && p <= End(t, n) && InTree(t, cur)
      invariant cur != NULL ==> cur < |ns| && Pos(t, cur) == p && cur != n && Encloses(t, n, cur)
      invariant cur == NULL ==> p == End(t, n)
      decreases End(t, n) - p
    {
      out, stop := StepPush(out, cur, test, once, q, list);
      if stop {
        return;
      }
      FirstChild(ns, t, cur);
      p := p + 1;
      if ns[cur].firstChild != NULL {
        cur := ns[cur].firstChild;
      } else {
        cur := NextOutside(ns, cur, n, t);
      }
    }
    Finish(q, list, p, out);
  }

  lemma OnlyFollowing(q: Query)
    requires Asked(q) && q.axis.Following?
    ensures Barren(q, 0, End(q.t, q.n)) && Barren(q, |Preorder(q.t)|, |Preorder(q.t)|)
    ensures forall x: nat | x in Ids(q.t) && x < |q.ns| && End(q.t, q.n) <= Pos(q.t, x) :: OnAxis(q.ns, q.t, q.axis, q.n, x)
  {
    hide IsTree, Linked, Separate, Ids, Preorder, Pos, End, Depth;
    forall x: nat | x in Ids(q.t) && x < |q.ns|
      ensures OnAxis(q.ns, q.t, q.axis, q.n, x) <==> End(q.t, q.n) <= Pos(q.t, x)
    {
      Enclosed(q.ns, q.t, q.n, x);
    }
    OffAxis(q, 0, End(q.t, q.n));
  }

  method FillFollowing(ns: Arena, n: nat, test: set<nat>, once: bool, list: seq<nat>, ghost t: Forest)
    returns (out: seq<nat>)
    requires Context(ns, t, n)
    ensures out == list + Selected(Query(ns, t, Following, n, test, once))
  {
    hide IsTree, Linked, Separate, Ids, Preorder, Pos, End, Depth, OnAxis, Selected, Done, Barren;
    ghost var q := Query(ns, t, Following, n, test, once);
    out := list;
    OnlyFollowing(q);
    Start(q, list, End(t, n));
    var cur := NextOutside(ns, n, NULL, t);
    ghost var p: nat := End(t, n);
    while cur != NULL
      invariant Done(q, list, p, out) && End(t, n) <= p <= |Preorder(t)| && InTree(t, cur)
      invariant cur != NULL ==> cur < |ns| && Pos(t, cur) == p
      invariant cur == NULL ==> p == |Preorder(t)|
      decreases |Preorder(t)| - p
    {
      var stop;
      out, stop := StepPush(out, cur, test, once, q, list);
      if stop {
        return;
      }
      FirstChild(ns, t, cur);
      p := p + 1;
      if ns[cur].firstChild != NULL {
        cur := ns[cur].firstChild;
      } else {
        cur := NextOutside(ns, cur, NULL, t);
      }
    }
    Finish(q, list, p, out);
  }

  // ----- ancestor and ancestor-or-self -----

  /** Above a node that encloses the context node, the next ancestor is its parent. */
  lemma NoAncestorBetween(q: Query, c: nat)
    requires Asked(q) && (q.axis.Ancestor? || q.axis.AncestorOrSelf?)
    requires c in Ids(q.t) && c < |q.ns| && Encloses(q.t, c, q.n)
    ensures InTree(q.t, q.ns[c].parent)
    ensures q.ns[c].parent != NULL ==>
              var p := q.ns[c].parent;
              && p < |q.ns| && p != q.n && Encloses(q.t, p, q.n) && Pos(q.t, p) < Pos(q.t, c)
              && Barren(q, Pos(q.t, p) + 1, Pos(q.t, c))
    ensures q.ns[c].parent == NULL ==> Barren(q, 0, Pos(q.t, c))
  {
    hide IsTree, Linked, Separate, Ids, Preorder, Pos, End, Depth;
    var ns, t, n := q.ns, q.t, q.n;
    Climb(ns, t, c, n);
    Parent(ns, t, c);
    var from: nat := if ns[c].parent == NULL then 0 else Pos(t, ns[c].parent) + 1;
    forall x: nat | x in Ids(t) && x < |ns| && from <= Pos(t, x) < Pos(t, c) ensures !OnAxis(ns, t, q.axis, n, x) {
      Enclosed(ns, t, x, n);
      Enclosed(ns, t, x, c);
      Above(ns, t, x, c);
    }
    OffAxis(q, from, Pos(t, c));
  }

  lemma AncestorsStart(q: Query, list: seq<nat>)
    requires Asked(q) && (q.axis.Ancestor? || q.axis.AncestorOrSelf?)
    ensures Done(q, list, if q.axis.Ancestor? then Pos(q.t, q.n) else Pos(q.t, q.n) + 1, list)
  {
    hide IsTree, Linked, Separate, Ids, Preorder, Pos, End, Depth;
    var p := if q.axis.Ancestor? then Pos(q.t, q.n) else Pos(q.t, q.n) + 1;
    forall x: nat | x in Ids(q.t) && x < |q.ns| && OnAxis(q.ns, q.t, q.axis, q.n, x) ensures Pos(q.t, x) < p {
      DifferentNodesDifferentPos(q.t, x, q.n);
    }
    OffAxis(q, p, |Preorder(q.t)|);
    Start(q, list, p);
  }

  method FillAncestors(ns: Arena, n: nat, orSelf: bool, test: set<nat>, once: bool, list: seq<nat>, ghost t: Forest)
    returns (out: seq<nat>)
    requires Context(ns, t, n)
    ensures out == list + Selected(Query(ns, t, if orSelf then AncestorOrSelf else Ancestor, n, test, once))
  {
    hide IsTree, Linked, Separate, Ids, Preorder, Pos, End, Depth, Selected, Done, Barren;
    ghost var q := Query(ns, t, if orSelf then AncestorOrSelf else Ancestor, n, test, once);
    out := list;
    AncestorsStart(q, list);
    var stop;
    if orSelf {
      out, stop := StepPush(out, n, test, once, q, list);
      if stop {
        return;
      }
    }
    var cur := ns[n].parent;
    ghost var below := n;
    NoAncestorBetween(q, n);
    while cur != NULL
      invariant below in Ids(t) && below < |ns| && Encloses(t, below, n) && cur == ns[below].parent && InTree(t, cur)
      invariant Done(q, list, Pos(t, below), out)
      decreases Pos(t, below)
    {
      NoAncestorBetween(q, below);
      Over(q, list, Pos(t, cur) + 1, Pos(t, below), out);
      out, stop := StepPush(out, cur, test, once, q, list);
      if stop {
        return;
      }
      below := cur;
      NoAncestorBetween(q, below);
      cur := ns[cur].parent;
    }
    NoAncestorBetween(q, below);
    Finish(q, list, Pos(t, below), out);
  }

  // ----- preceding-sibling -----

  /** The positions where the preceding siblings of the context node may stand end at the node, begin here. */
  lemma OnlyPrecedingSiblings(q: Query, list: seq<nat>)
    requires Asked(q) && q.axis.PrecedingSibling?
    ensures Done(q, list, Pos(q.t, q.n), list)
  {
    hide IsTree, Linked, Separate, Ids, Preorder, Pos, End, Depth;
    OffAxis(q, Pos(q.t, q.n), |Preorder(q.t)|);
    Start(q, list, Pos(q.t, q.n));
  }

  /** Going on to the previous sibling, if there is one. */
  lemma PrecedingSiblingStep(q: Query, c: nat)
    requires Asked(q) && q.axis.PrecedingSibling?
    requires c in Ids(q.t) && c < |q.ns| && q.ns[c].parent == q.ns[q.n].parent && Pos(q.t, c) <= Pos(q.t, q.n)
    ensures InTree(q.t, q.ns[c].prevC) && 0 <= q.ns[c].prevC < |q.ns|
    ensures var s := q.ns[c].prevC;
            if q.ns[s].next == NULL then Barren(q, 0, Pos(q.t, c))
            else Pos(q.t, s) < Pos(q.t, c) && OnAxis(q.ns, q.t, q.axis, q.n, s) && Barren(q, Pos(q.t, s) + 1, Pos(q.t, c))
  {
    hide IsTree, Linked, Separate, Ids, Preorder, Pos, End, Depth;
    var ns, t, n := q.ns, q.t, q.n;
    PreviousSibling(ns, t, c);
    var s := ns[c].prevC;
    Parent(ns, t, c);
    if ns[s].next == NULL {
      forall x: nat | x in Ids(t) && x < |ns| && 0 <= Pos(t, x) < Pos(t, c) ensures !OnAxis(ns, t, q.axis, n, x) {
        Parent(ns, t, x);
      }
      OffAxis(q, 0, Pos(t, c));
    } else {
      forall x: nat | x in Ids(t) && x < |ns| && Pos(t, s) + 1 <= Pos(t, x) < Pos(t, c)
        ensures !OnAxis(ns, t, q.axis, n, x)
      {
        NotBelowSibling(ns, t, s, x);
      }
      OffAxis(q, Pos(t, s) + 1, Pos(t, c));
    }
  }

  method FillPrecedingSiblings(ns: Arena, n: nat, test: set<nat>, once: bool, list: seq<nat>, ghost t: Forest)
    returns (out: seq<nat>)
    requires Context(ns, t, n)
    ensures out == list + Selected(Query(ns, t, PrecedingSibling, n, test, once))
  {
    hide IsTree, Linked, Separate, Ids, Preorder, Pos, End, Depth, OnAxis, Selected, Done, Barren;
    ghost var q := Query(ns, t, PrecedingSibling, n, test, once);
    out := list;
    OnlyPrecedingSiblings(q, list);
    OnAxisOf(q);
    PrecedingSiblingStep(q, n);
    var c := ns[n].prevC;
    ghost var last := n;
    while ns[c].next != NULL
      invariant last in Ids(t) && last < |ns| && ns[last].parent == ns[n].parent && Pos(t, last) <= Pos(t, n)
      invariant c == ns[last].prevC && InTree(t, c) && 0 <= c < |ns|
      invariant Done(q, list, Pos(t, last), out)
      decreases Pos(t, last)
    {
      PrecedingSiblingStep(q, last);
      Over(q, list, Pos(t, c) + 1, Pos(t, last), out);
      var stop;
      out, stop := StepPush(out, c, test, once, q, list);
      if stop {
        return;
      }
      last := c;
      PrecedingSiblingStep(q, last);
      c := ns[c].prevC;
    }
    PrecedingSiblingStep(q, last);
    Finish(q, list, Pos(t, last), out);
  }

  lemma OnAxisOf(q: Query)
    requires Asked(q) && q.axis.PrecedingSibling?
    ensures forall x: nat | x in Ids(q.t) && x < |q.ns| ::
              OnAxis(q.ns, q.t, q.axis, q.n, x) <==> q.ns[x].parent == q.ns[q.n].parent && Pos(q.t, x) < Pos(q.t, q.n)
  {
  }

  // ----- preceding -----

  lemma PrecedingAt(q: Query, x: nat)
    requires Asked(q) && q.axis.Preceding? && x in Ids(q.t) && x < |q.ns|
    ensures OnAxis(q.ns, q.t, q.axis, q.n, x) <==> End(q.t, x) <= Pos(q.t, q.n)
    ensures OnAxis(q.ns, q.t, q.axis, q.n, x) <==> Pos(q.t, x) < Pos(q.t, q.n) && !Encloses(q.t, x, q.n)
  {
    hide IsTree, Linked, Separate, Ids, Preorder, Pos, End, Depth;
    DifferentNodesDifferentPos(q.t, x, q.n);
    Enclosed(q.ns, q.t, x, q.n);
  }

  lemma PrecedingStart(q: Query, list: seq<nat>)
    requires Asked(q) && q.axis.Preceding?
    ensures Done(q, list, Pos(q.t, q.n), list)
  {
    hide IsTree, Linked, Separate, Ids, Preorder, Pos, End, Depth;
    OffAxis(q, Pos(q.t, q.n), |Preorder(q.t)|);
    Start(q, list, Pos(q.t, q.n));
  }

  /** From a first child up to its parent, or out at the root. */
  lemma FromFirstChild(ns: Arena, t: Forest, c: nat)
    requires Context(ns, t, c) && 0 <= ns[c].prevC < |ns| && ns[ns[c].prevC].next == NULL
    ensures ns[c].parent == NULL ==> Pos(t, c) == 0
    ensures ns[c].parent != NULL ==>
              && 0 <= ns[c].parent < |ns| && ns[c].parent in Ids(t) && Pos(t, c) == Pos(t, ns[c].parent) + 1
              && End(t, c) <= End(t, ns[c].parent)
  {
    hide IsTree, Linked, Separate, Ids, Preorder, Pos, End, Depth;
    RootFacts(ns, t);
    PreviousSibling(ns, t, c);
    Parent(ns, t, c);
  }

  /** One position is barren if the node there encloses the context node. */
  lemma AncestorIsBarren(q: Query, c: nat)
    requires Asked(q) && q.axis.Preceding? && c in Ids(q.t) && Encloses(q.t, c, q.n)
    ensures Barren(q, Pos(q.t, c), Pos(q.t, c) + 1)
  {
    hide IsTree, Linked, Separate, Ids, Preorder, Pos, End, Depth;
    forall x: nat | x in Ids(q.t) && x < |q.ns| && Pos(q.t, c) <= Pos(q.t, x) < Pos(q.t, c) + 1
      ensures !OnAxis(q.ns, q.t, q.axis, q.n, x)
    {
      DifferentNodesDifferentPos(q.t, c, x);
    }
    OffAxis(q, Pos(q.t, c), Pos(q.t, c) + 1);
  }

  /** The way out of the context node: to the previous sibling of the node or of the nearest ancestor with one. */
  method LeaveBackward(ns: Arena, n: nat, list: seq<nat>, ghost q: Query) returns (cur: Ref)
    requires Asked(q) && q.axis.Preceding? && ns == q.ns && n == q.n
    ensures InTree(q.t, cur)
    ensures cur == NULL ==> Done(q, list, 0, list)
    ensures cur != NULL ==> cur < |ns| && End(q.t, cur) <= Pos(q.t, n) && Done(q, list, End(q.t, cur), list)
  {
    hide IsTree, Linked, Separate, Ids, Preorder, Pos, End, Depth, OnAxis, Selected, Done, Barren;
    ghost var t := q.t;
    PrecedingStart(q, list);
    PreviousSibling(ns, t, n);
    cur := n;
    while ns[ns[cur].prevC].next == NULL
      invariant 0 <= cur < |ns| && cur in Ids(t) && 0 <= ns[cur].prevC < |ns| && Encloses(t, cur, n)
      invariant Done(q, list, Pos(t, cur), list)
      decreases Pos(t, cur)
    {
      FromFirstChild(ns, t, cur);
      cur := ns[cur].parent;
      if cur == NULL {
        return;
      }
      AncestorIsBarren(q, cur);
      Over(q, list, Pos(t, cur), Pos(t, cur) + 1, list);
      PreviousSibling(ns, t, cur);
    }
    PreviousSibling(ns, t, cur);
    cur := ns[cur].prevC;
  }

  /** Up from a finished leaf, pushing the nodes it comes to that are not ancestors, to a previous sibling. */
  method ClimbBackward(ns: Arena, leaf: nat, n: nat, test: set<nat>, once: bool, list: seq<nat>, ghost before: seq<nat>,
                       ghost q: Query) returns (cur: Ref, out: seq<nat>, stop: bool)
    requires Asked(q) && q.axis.Preceding? && ns == q.ns && n == q.n && test == q.test && once == q.once
    requires leaf in Ids(q.t) && leaf < |ns| && Pos(q.t, leaf) <= Pos(q.t, n) && Done(q, before, Pos(q.t, leaf), list)
    ensures stop ==> out == before + Selected(q)
    ensures !stop ==> cur != NULL && InTree(q.t, cur)
    ensures !stop ==> cur < |ns| && End(q.t, cur) <= Pos(q.t, leaf) && Done(q, before, End(q.t, cur), out)
  {
    hide IsTree, Linked, Separate, Ids, Preorder, Pos, End, Depth, OnAxis, Selected, Done, Barren;
    ghost var t := q.t;
    out, stop := list, false;
    PreviousSibling(ns, t, leaf);
    cur := leaf;
    while ns[ns[cur].prevC].next == NULL
      invariant 0 <= cur < |ns| && cur in Ids(t) && 0 <= ns[cur].prevC < |ns| && Pos(t, cur) <= Pos(t, leaf)
      invariant Done(q, before, Pos(t, cur), out)
      decreases Pos(t, cur)
    {
      FromFirstChild(ns, t, cur);
      cur := ns[cur].parent;
      if cur == NULL {
        Finish(q, before, 0, out);
        return NULL, out, true;
      }
      PrecedingAt(q, cur);
      var above := NodeIsAncestor(ns, cur, n, t);
      if above {
        AncestorIsBarren(q, cur);
        Over(q, before, Pos(t, cur), Pos(t, cur) + 1, out);
      } else {
        out, stop := StepPush(out, cur, test, once, q, before);
        if stop {
          return;
        }
      }
      PreviousSibling(ns, t, cur);
    }
    PreviousSibling(ns, t, cur);
    cur := ns[cur].prevC;
  }

  method FillPreceding(ns: Arena, n: nat, test: set<nat>, once: bool, list: seq<nat>, ghost t: Forest)
    returns (out: seq<nat>)
    requires Context(ns, t, n)
    ensures out == list + Selected(Query(ns, t, Preceding, n, test, once))
  {
    hide IsTree, Linked, Separate, Ids, Preorder, Pos, End, Depth, OnAxis, Selected, Done, Barren;
    ghost var q := Query(ns, t, Preceding, n, test, once);
    out := list;
    var cur := LeaveBackward(ns, n, list, q);
    while cur != NULL
      invariant InTree(t, cur)
      invariant cur != NULL ==> cur < |ns| && End(t, cur) <= Pos(t, n) && Done(q, list, End(t, cur), out)
      invariant cur == NULL ==> Done(q, list, 0, out)
      decreases if cur == NULL || cur !in Ids(t) then 0 else End(t, cur), if cur == NULL then 0 else |Preorder(t)| - Pos(t, cur)
    {
      FirstChild(ns, t, cur);
      if ns[cur].firstChild != NULL {
        cur := ns[ns[cur].firstChild].prevC;
      } else {
        // a leaf cannot be an ancestor
        PrecedingAt(q, cur);
        var stop;
        out, stop := StepPush(out, cur, test, once, q, list);
        if stop {
          return;
        }
        cur, out, stop := ClimbBackward(ns, cur, n, test, once, out, list, q);
        if stop {
          return;
        }
      }
    }
    Finish(q, list, 0, out);
  }

  // ----- the whole of step_fill, and what it promises -----

  method StepFill(ns: Arena, n: nat, axis: Axis, test: set<nat>, once: bool, list: seq<nat>, ghost t: Forest)
    returns (out: seq<nat>)
    requires Context(ns, t, n)
    ensures out == list + Selected(Query(ns, t, axis, n, test, once))
    ensures var full := Selected(Query(ns, t, axis, n, test, false));
            out == list + if once && full != [] then [full[0]] else full
  {
    OnceIsTheFirst(Query(ns, t, axis, n, test, false));
    hide *;
    match axis
    case Child | FollowingSibling => out := FillSiblings(ns, n, axis, test, once, list, t);
    case Descendant => out := FillDescendants(ns, n, false, test, once, list, t);
    case DescendantOrSelf => out := FillDescendants(ns, n, true, test, once, list, t);
    case PrecedingSibling => out := FillPrecedingSiblings(ns, n, test, once, list, t);
    case Following => out := FillFollowing(ns, n, test, once, list, t);
    case Preceding => out := FillPreceding(ns, n, test, once, list, t);
    case Ancestor => out := FillAncestors(ns, n, false, test, once, list, t);
    case AncestorOrSelf => out := FillAncestors(ns, n, true, test, once, list, t);
    case Self => out := FillSelf(ns, n, test, once, list, t);
    case ParentAxis => out := FillParent(ns, n, test, once, list, t);
  }

  /** With `once`, a step selects the first node of the full step, and nothing only if the full step is empty. */
  lemma OnceIsTheFirst(q: Query)
    requires Asked(q) && !q.once
    ensures var first := Selected(q.(once := true));
            if Selected(q) == [] then first == [] else first == [Selected(q)[0]]
  {
    hide Context, Ids, Preorder, Pos, End, OnAxis;
    assert Keep(q) == Keep(q.(once := true));
  }

  ghost predicate InDocumentOrder(t: Forest, list: seq<nat>) {
    && (forall i | 0 <= i < |list| :: list[i] in Ids(t))
    && forall i, j | 0 <= i < j < |list| :: Pos(t, list[i]) < Pos(t, list[j])
  }

  ghost predicate InReverseOrder(t: Forest, list: seq<nat>) {
    && (forall i | 0 <= i < |list| :: list[i] in Ids(t))
    && forall i, j | 0 <= i < j < |list| :: Pos(t, list[j]) < Pos(t, list[i])
  }

  lemma BehindAll(t: Forest, list: seq<nat>, x: nat)
    requires InDocumentOrder(t, list) && x in Ids(t) && forall y: nat | y in list :: y in Ids(t) && Pos(t, y) < Pos(t, x)
    ensures InDocumentOrder(t, list + [x])
  {
    hide Ids, Pos;
    assert forall i | 0 <= i < |list| :: list[i] in list;
  }

  lemma BeforeAll(t: Forest, list: seq<nat>, x: nat)
    requires InReverseOrder(t, list) && x in Ids(t) && forall y: nat | y in list :: y in Ids(t) && Pos(t, x) < Pos(t, y)
    ensures InReverseOrder(t, list + [x])
  {
    hide Ids, Pos;
    assert forall i | 0 <= i < |list| :: list[i] in list;
  }

  lemma {:induction false} ForwardFacts(t: Forest, hi: nat, keep: set<nat>)
    requires Separate(t) && hi <= |Preorder(t)|
    ensures forall x: nat :: x in Forward(Preorder(t), hi, keep) <==> x in Ids(t) && x in keep && Pos(t, x) < hi
    ensures InDocumentOrder(t, Forward(Preorder(t), hi, keep))
  {
    hide Separate, Ids, Preorder, Pos, End;
    if hi > 0 {
      ForwardFacts(t, hi - 1, keep);
      PosUnique(t, hi - 1);
      forall x: nat | x in Ids(t) && Pos(t, x) == hi - 1 ensures x == Preorder(t)[hi - 1] {
        DifferentNodesDifferentPos(t, x, Preorder(t)[hi - 1]);
      }
      ForwardNext(Preorder(t), hi - 1, keep);
      var x, r := Preorder(t)[hi - 1], Forward(Preorder(t), hi - 1, keep);
      hide Forward, InDocumentOrder;
      if x in keep { BehindAll(t, r, x); }
    }
  }

  lemma {:induction false} BackwardFacts(t: Forest, lo: nat, keep: set<nat>)
    requires Separate(t) && lo <= |Preorder(t)|
    ensures forall x: nat :: x in Backward(Preorder(t), lo, keep) <==> x in Ids(t) && x in keep && lo <= Pos(t, x)
    ensures InReverseOrder(t, Backward(Preorder(t), lo, keep))
    decreases |Preorder(t)| - lo
  {
    hide Separate, Ids, Preorder, Pos, End;
    if lo < |Preorder(t)| {
      BackwardFacts(t, lo + 1, keep);
      PosUnique(t, lo);
      forall x: nat | x in Ids(t) && Pos(t, x) == lo ensures x == Preorder(t)[lo] {
        DifferentNodesDifferentPos(t, x, Preorder(t)[lo]);
      }
      BackwardNext(Preorder(t), lo, keep);
      var x, r := Preorder(t)[lo], Backward(Preorder(t), lo + 1, keep);
      hide Backward, InReverseOrder;
      if x in keep { BeforeAll(t, r, x); }
    }
  }

  /**
    A full step selects exactly the nodes on the axis that pass the test, in document order, or in reverse
    document order on a reverse axis; so no node occurs twice.
   */
  lemma SelectedIsTheAxis(q: Query)
    requires Asked(q) && !q.once
    ensures forall x: nat :: x in Selected(q) <==>
              x in Ids(q.t) && x < |q.ns| && OnAxis(q.ns, q.t, q.axis, q.n, x) && x in q.test
    ensures if IsReverse(q.axis) then InReverseOrder(q.t, Selected(q)) else InDocumentOrder(q.t, Selected(q))
  {
    hide Ids, Preorder, Pos, End, OnAxis;
    ForwardFacts(q.t, |Preorder(q.t)|, Keep(q));
    BackwardFacts(q.t, 0, Keep(q));
  }

  /** Every node of the tree is on exactly one of the axes self, ancestor, descendant, following and preceding. */
  lemma OneOfFiveAxes(ns: Arena, t: Forest, n: nat, x: nat)
    requires Context(ns, t, n) && x in Ids(t) && x < |ns|
    ensures var on := (axis: Axis) requires n in Ids(t) && x in Ids(t) && n < |ns| && x < |ns| =>
                        if OnAxis(ns, t, axis, n, x) then 1 else 0;
            on(Self) + on(Ancestor) + on(Descendant) + on(Following) + on(Preceding) == 1
  {
    hide IsTree, Linked, Separate, Ids, Preorder, Pos, End, Depth;
    DifferentNodesDifferentPos(t, n, x);
    Enclosed(ns, t, n, x);
    Enclosed(ns, t, x, n);
  }

  ghost predicate NoRepeat(list: seq<nat>) {
    forall i, j | 0 <= i < j < |list| :: list[i] != list[j]
  }

  lemma OrderedNoRepeat(t: Forest, list: seq<nat>)
    requires InDocumentOrder(t, list) || InReverseOrder(t, list)
    ensures NoRepeat(list)
  {
    hide Ids, Pos;
    forall i, j | 0 <= i < j < |list| ensures list[i] != list[j] {
      assert Pos(t, list[i]) != Pos(t, list[j]);
    }
  }

  lemma {:induction false} OccursOnce(list: seq<nat>, x: nat)
    requires NoRepeat(list)
    ensures multiset(list)[x] == if x in list then 1 else 0
  {
    if list != [] {
      var front, last := list[..|list| - 1], list[|list| - 1];
      assert list == front + [last];
      OccursOnce(front, x);
    }
  }

  lemma {:induction false} PreorderFacts(t: Forest)
    requires Separate(t)
    ensures InDocumentOrder(t, Preorder(t)) && forall x: nat :: x in Preorder(t) <==> x in Ids(t)
  {
    forall i | 0 <= i < |Preorder(t)| ensures Preorder(t)[i] in Ids(t) && Pos(t, Preorder(t)[i]) == i {
      PosUnique(t, i);
    }
    forall x: nat | x in Ids(t) ensures x in Preorder(t) {
      assert Preorder(t)[Pos(t, x)] == x;
    }
  }

  /** With the test `node()`, the five traversals together visit every node of the tree once. */
  lemma FiveAxesPartitionTheTree(ns: Arena, t: Forest, n: nat)
    requires Context(ns, t, n)
    ensures var all := (axis: Axis) requires Context(ns, t, n) => multiset(Selected(Query(ns, t, axis, n, Ids(t), false)));
            all(Self) + all(Ancestor) + all(Descendant) + all(Following) + all(Preceding) == multiset(Preorder(t))
  {
    hide Linked, Ids, Preorder, Pos, End, Depth, OnAxis, Selected;
    var all := (axis: Axis) requires Context(ns, t, n) => multiset(Selected(Query(ns, t, axis, n, Ids(t), false)));
    var sum := all(Self) + all(Ancestor) + all(Descendant) + all(Following) + all(Preceding);
    forall x: nat ensures sum[x] == multiset(Preorder(t))[x] {
      OnTheAxis(ns, t, Self, n, x);
      OnTheAxis(ns, t, Ancestor, n, x);
      OnTheAxis(ns, t, Descendant, n, x);
      OnTheAxis(ns, t, Following, n, x);
      OnTheAxis(ns, t, Preceding, n, x);
      PreorderFacts(t);
      OrderedNoRepeat(t, Preorder(t));
      OccursOnce(Preorder(t), x);
      if x in Ids(t) {
        Parent(ns, t, x);
        OneOfFiveAxes(ns, t, n, x);
      }
    }
    assert sum == multiset(Preorder(t));
  }

  lemma OnTheAxis(ns: Arena, t: Forest, axis: Axis, n: nat, x: nat)
    requires Context(ns, t, n)
    ensures multiset(Selected(Query(ns, t, axis, n, Ids(t), false)))[x] ==
              if x in Ids(t) && x < |ns| && OnAxis(ns, t, axis, n, x) then 1 else 0
  {
    hide IsTree, Linked, Separate, Ids, Preorder, Pos, End, Depth, OnAxis, Selected;
    var q := Query(ns, t, axis, n, Ids(t), false);
    SelectedIsTheAxis(q);
    OrderedNoRepeat(t, Selected(q));
    OccursOnce(Selected(q), x);
  }

  lemma {:induction false} ChainEncloses(ns: Arena, t: Forest, x: nat, up: nat, k: nat)
    requires IsTree(ns, t) && x in Ids(t) && ParentChain(ns, x, up, k)
    ensures up in Ids(t) && Encloses(t, up, x)
    decreases k
  {
    hide IsTree, Linked, Separate, Ids, Preorder, Pos, End, Depth;
    if k > 0 {
      Parent(ns, t, x);
      ChainEncloses(ns, t, ns[x].parent, up, k - 1);
    }
  }

  lemma {:induction false} EnclosingChain(ns: Arena, t: Forest, x: nat, up: nat)
    requires IsTree(ns, t) && x in Ids(t) && up in Ids(t) && Encloses(t, up, x)
    ensures exists k: nat :: ParentChain(ns, x, up, k)
    decreases Depth(t, x)
  {
    hide IsTree, Linked, Separate, Ids, Preorder, Pos, End, Depth;
    if x == up {
      assert ParentChain(ns, x, up, 0);
    } else {
      Above(ns, t, up, x);
      Parent(ns, t, x);
      EnclosingChain(ns, t, ns[x].parent, up);
      var k: nat :| ParentChain(ns, ns[x].parent, up, k);
      assert ParentChain(ns, x, up, k + 1);
    }
  }

  /** Enclosing by position is being an ancestor, or the node itself, by the parent links. */
  lemma AncestorsByParentLinks(ns: Arena, t: Forest, x: nat, up: nat)
    requires IsTree(ns, t) && x in Ids(t) && up in Ids(t)
    ensures Encloses(t, up, x) <==> exists k: nat :: ParentChain(ns, x, up, k)
  {
    hide IsTree, Linked, Separate, Ids, Preorder, Pos, End, Depth, Encloses;
    if Encloses(t, up, x) { EnclosingChain(ns, t, x, up); }
    forall k: nat | ParentChain(ns, x, up, k) ensures Encloses(t, up, x) {
      ChainEncloses(ns, t, x, up, k);
    }
  }
}
