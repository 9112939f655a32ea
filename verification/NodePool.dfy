/**
  The nodes of the documents of xml/pugixml.cpp, with the operations that change their links: the five link
  operations, adding a child, moving a node, and copying a tree.  A node is an index; names, values and
  attributes of a node are one text.
*/
module NodePool {
  import opened Common
  import opened Dom
  import opened ChildLists
  import opened NodeTrees

  datatype Kind = NullKind | Document | Element | Pcdata | Cdata | Comment | Pi | Declaration | Doctype

  /** `home` is the document that the node was allocated in. */
  datatype Info = Info(kind: Kind, home: nat, text: string)

  /** Where among the children a node goes. */
  datatype Place = Front | Back | Before(sibling: Ref) | After(sibling: Ref)

  /** The children that a document and an element may have. */
  predicate MayHold(parent: Kind, child: Kind) {
    match parent
    case Document => child == Element || child == Pcdata || child == Cdata || child == Comment || child == Pi
                     || child == Declaration || child == Doctype
    case Element => child == Element || child == Pcdata || child == Cdata || child == Comment || child == Pi
    case _ => false
  }

  /** `allow_insert_child`. */
  predicate AllowInsertChild(parent: Kind, child: Kind): (allowed: bool)
    ensures allowed <==> MayHold(parent, child)
  {
    && (parent.Document? || parent.Element?)
    && !child.Document? && !child.NullKind?
    && (parent.Document? || !(child.Declaration? || child.Doctype?))
  }

  /** Documents are nobody's child; other nodes are children that their parent admits, in its document. */
  ghost predicate Proper(ns: Arena, infos: seq<Info>, c: nat)
    requires c < |ns| == |infos|
  {
    if infos[c].kind.Document? then ns[c].parent == NULL && ns[c].prevC == c && infos[c].home == c
    else && 0 <= ns[c].parent < |ns| && infos[c].home == infos[ns[c].parent].home
         && AllowInsertChild(infos[ns[c].parent].kind, infos[c].kind)
  }

  ghost predicate AllProper(ns: Arena, infos: seq<Info>) {
    |infos| == |ns| && forall c: nat | c < |ns| :: Proper(ns, infos, c)
  }

  /** Where nodes stand, by their kinds. */
  lemma WhoHoldsWhom(ns: Arena, infos: seq<Info>, c: nat)
    requires AllProper(ns, infos) && c < |ns|
    ensures infos[c].kind != NullKind
    ensures infos[c].kind == Document <==> ns[c].parent == NULL
    ensures ns[c].parent != NULL ==>
              && 0 <= ns[c].parent < |ns| && infos[c].home == infos[ns[c].parent].home
              && (infos[ns[c].parent].kind == Document || infos[ns[c].parent].kind == Element)
    ensures infos[c].kind == Declaration || infos[c].kind == Doctype ==>
              0 <= ns[c].parent < |ns| && infos[ns[c].parent].kind == Document
  {
    assert Proper(ns, infos, c);
  }

  /** `allow_insert_child`, kind by kind. */
  lemma AllowedKinds(kind: Kind)
    ensures kind == Element || kind == Pcdata || kind == Cdata || kind == Comment || kind == Pi ==>
              AllowInsertChild(Document, kind) && AllowInsertChild(Element, kind)
    ensures kind == Declaration || kind == Doctype ==> AllowInsertChild(Document, kind) && !AllowInsertChild(Element, kind)
    ensures kind == Document || kind == NullKind ==> !AllowInsertChild(Document, kind) && !AllowInsertChild(Element, kind)
    ensures forall parent: Kind | parent != Document && parent != Element :: !AllowInsertChild(parent, kind)
  {
  }

  ghost predicate Fits(l: seq<nat>, place: Place) {
    match place
    case Before(s) => s >= 0 && s in l
    case After(s) => s >= 0 && s in l
    case _ => true
  }

  ghost function Spot(l: seq<nat>, place: Place): (i: nat)
    requires Fits(l, place)
    ensures i <= |l|
  {
    match place
    case Front => 0
    case Back => |l|
    case Before(s) => IndexOf(l, s)
    case After(s) => IndexOf(l, s) + 1
  }

  /** The child lists after a node is put under `n`. */
  ghost function Hang(kids: Kids, n: nat, place: Place, x: nat): Kids
    requires n < |kids| && Fits(kids[n], place)
  {
    kids[n := InsertAt(kids[n], Spot(kids[n], place), x)]
  }

  /** ... and after a node is taken from under `n`. */
  ghost function Unhang(kids: Kids, n: nat, x: nat): Kids
    requires n < |kids|
  {
    kids[n := Without(kids[n], x)]
  }

  function SetParent(ns: Arena, c: nat, to: Ref): (now: Arena)
    requires c < |ns|
    ensures |now| == |ns|
  {
    ns[c := ns[c].(parent := to)]
  }

  function SetFirstChild(ns: Arena, c: nat, to: Ref): (now: Arena)
    requires c < |ns|
    ensures |now| == |ns|
  {
    ns[c := ns[c].(firstChild := to)]
  }

  function SetNext(ns: Arena, c: nat, to: Ref): (now: Arena)
    requires c < |ns|
    ensures |now| == |ns|
  {
    ns[c := ns[c].(next := to)]
  }

  function SetPrev(ns: Arena, c: nat, to: Ref): (now: Arena)
    requires c < |ns|
    ensures |now| == |ns|
  {
    ns[c := ns[c].(prevC := to)]
  }

  ghost predicate Tree(ns: Arena, kids: Kids) {
    Wired(ns, kids) && Acyclic(ns)
  }

  const FRESH := Links(NULL, NULL, NULL, NULL)

  lemma Extended(ns: Arena, kids: Kids)
    requires Wired(ns, kids)
    ensures Wired(ns + [FRESH], kids + [[]]) && Loose(ns + [FRESH], |ns|)
  {
    var ns', kids' := ns + [FRESH], kids + [[]];
    forall n: nat | n < |ns'| ensures Listed(ns', n, kids'[n]) {
      if n < |ns| { assert Listed(ns, n, kids[n]); }
    }
    forall c: nat | c < |ns'| ensures Placed(ns', kids', c) {
      if c < |ns| { assert Placed(ns, kids, c); }
    }
  }

  lemma ExtendedAcyclic(ns: Arena, kids: Kids)
    requires Wired(ns, kids) && Acyclic(ns)
    ensures Acyclic(ns + [FRESH])
  {
    var height: seq<nat> :| Climbs(ns, height);
    forall c: nat | c < |ns| ensures ns[c].parent < |ns| {
      assert Placed(ns, kids, c);
    }
    assert Climbs(ns + [FRESH], height + [0]);
  }

  /** The links of node `n` and of the children of `n` that the link operations look at. */
  ghost predicate Around(ns: Arena, n: nat, l: seq<nat>, i: nat) {
    && n < |ns| && i < |l| && (forall c: nat | c in l :: c < |ns| && ns[c].parent == n && c != n)
    && l[0] < |ns| && l[i] < |ns| && 0 <= PrevIn(l, i) < |ns| && NULL <= NextIn(l, i) < |ns|
    && ns[n].firstChild == l[0] && ns[l[i]].next == NextIn(l, i) && ns[l[i]].prevC == PrevIn(l, i)
    && (ns[PrevIn(l, i)].next == NULL <==> i == 0)
  }

  lemma LookAround(ns: Arena, kids: Kids, n: nat, i: nat)
    requires Wired(ns, kids) && Acyclic(ns) && n < |ns| && i < |kids[n]|
    ensures |kids| == |ns| && Around(ns, n, kids[n], i)
  {
    ListedParents(ns, n, kids[n]);
    var height: seq<nat> :| Climbs(ns, height);
    var j := if i > 0 then i - 1 else |kids[n]| - 1;
    ListedAt(ns, kids, n, i);
    ListedAt(ns, kids, n, j);
    hide Wired, Distinct;
    assert PrevIn(kids[n], i) == kids[n][j];
  }

  lemma AroundAt(ns: Arena, kids: Kids, n: nat, i: nat)
    requires |kids| == |ns| && Tree(ns, kids) && n < |ns| && i < |kids[n]|
    ensures Around(ns, n, kids[n], i) && 0 <= kids[n][i] < |ns| && kids[n][i] != n
    ensures var x := kids[n][i]; 0 <= ns[x].prevC < |ns| && NULL <= ns[x].next < |ns| && 0 <= ns[n].firstChild < |ns|
  {
    LookAround(ns, kids, n, i);
  }

  lemma IsChild(ns: Arena, kids: Kids, x: nat)
    requires Wired(ns, kids) && x < |ns| && 0 <= ns[x].parent
    ensures |kids| == |ns| && ns[x].parent < |ns| && x in kids[ns[x].parent] && Distinct(kids[ns[x].parent])
  {
    assert Placed(ns, kids, x);
    ListedParents(ns, ns[x].parent, kids[ns[x].parent]);
  }

  // what the assignments of each link operation amount to

  lemma LinkedBack(ns: Arena, now: Arena, n: nat, l: seq<nat>, x: nat)
    requires n < |ns| && x < |ns| && x != n && x !in l && Loose(ns, x) && ns[n].firstChild == HeadOf(l)
    requires l != [] ==> Around(ns, n, l, 0)
    requires now == if l == [] then SetPrev(SetFirstChild(SetParent(ns, x, n), n, x), x, x)
                    else SetPrev(SetPrev(SetNext(SetParent(ns, x, n), PrevIn(l, 0), x), x, PrevIn(l, 0)), l[0], x)
    ensures LinkedIn(ns, now, n, l, |l|, x)
  {
  }

  lemma LinkedFront(ns: Arena, now: Arena, n: nat, l: seq<nat>, x: nat)
    requires n < |ns| && x < |ns| && x != n && x !in l && ns[n].firstChild == HeadOf(l)
    requires l != [] ==> Around(ns, n, l, 0)
    requires now == var linked := if l == [] then SetPrev(SetParent(ns, x, n), x, x)
                                  else SetPrev(SetPrev(SetParent(ns, x, n), x, ns[l[0]].prevC), l[0], x);
                    SetFirstChild(SetNext(linked, x, HeadOf(l)), n, x)
    ensures LinkedIn(ns, now, n, l, 0, x)
  {
  }

  lemma LinkedAfter(ns: Arena, now: Arena, n: nat, l: seq<nat>, i: nat, x: nat)
    requires Around(ns, n, l, i) && x < |ns| && x != n && x !in l
    requires now == var next := ns[l[i]].next;
                    var linked := SetPrev(SetParent(ns, x, n), if next != NULL then next else l[0], x);
                    SetNext(SetPrev(SetNext(linked, x, next), x, l[i]), l[i], x)
    ensures LinkedIn(ns, now, n, l, i + 1, x)
  {
  }

  lemma LinkedBefore(ns: Arena, now: Arena, n: nat, l: seq<nat>, i: nat, x: nat)
    requires Around(ns, n, l, i) && x < |ns| && x != n && x !in l
    requires now == var prev, hung := ns[l[i]].prevC, SetParent(ns, x, n);
                    var linked := if ns[prev].next != NULL then SetNext(hung, prev, x) else SetFirstChild(hung, n, x);
                    SetPrev(SetNext(SetPrev(linked, x, prev), x, l[i]), l[i], x)
    ensures LinkedIn(ns, now, n, l, i, x)
  {
  }

  lemma UnlinkedFrom(ns: Arena, now: Arena, n: nat, l: seq<nat>, i: nat)
    requires Around(ns, n, l, i) && Distinct(l)
    requires now == var x := l[i];
                    var next, prev := ns[x].next, ns[x].prevC;
                    var before := SetPrev(ns, if next != NULL then next else l[0], prev);
                    var after := if ns[prev].next != NULL then SetNext(before, prev, next) else SetFirstChild(before, n, next);
                    SetNext(SetPrev(SetParent(after, x, NULL), x, NULL), x, NULL)
    ensures LinkedOut(ns, now, n, l, i)
  {
  }

  lemma Hung(ns: Arena, kids: Kids, now: Arena, n: nat, place: Place, x: nat)
    requires |kids| == |ns| && Wired(ns, kids) && n < |ns| && Fits(kids[n], place) && x < |ns| && x != n && ns[x].parent == NULL
    requires Listed(ns, n, kids[n]) && LinkedIn(ns, now, n, kids[n], Spot(kids[n], place), x)
    ensures Wired(now, Hang(kids, n, place, x))
  {
    hide Wired, Listed, LinkedIn;
    Inserted(ns, kids, now, n, Spot(kids[n], place), x);
  }

  lemma RemovedFrom(ns: Arena, kids: Kids, now: Arena, n: nat, x: nat)
    requires Wired(ns, kids) && n < |ns| && x in kids[n] && x < |ns| && x != n
    requires LinkedOut(ns, now, n, kids[n], IndexOf(kids[n], x))
    ensures Wired(now, Unhang(kids, n, x))
  {
    hide Listed, LinkedOut;
    Removed(ns, kids, now, n, x);
  }

  lemma ListOf(ns: Arena, kids: Kids, n: nat, x: nat)
    requires Wired(ns, kids) && n < |ns| && Loose(ns, x)
    ensures |kids| == |ns| && Listed(ns, n, kids[n]) && Distinct(kids[n]) && ns[n].firstChild == HeadOf(kids[n])
    ensures x !in kids[n] && forall c: nat | c in kids[n] :: c < |ns|
  {
    ListedParents(ns, n, kids[n]);
  }

  /** Everything is proper once a node that its parent admits hangs there. */
  lemma AdmittedIsProper(ns: Arena, infos: seq<Info>, now: Arena, n: nat, l: seq<nat>, i: nat, x: nat)
    requires |infos| == |ns| && (forall c: nat | c < |ns| && c != x :: Proper(ns, infos, c))
    requires n < |ns| && x < |ns| && x != n && i <= |l| && (forall c: nat | c in l :: c < |ns| && ns[c].parent == n)
    requires LinkedIn(ns, now, n, l, i, x)
    requires infos[x].home == infos[n].home && AllowInsertChild(infos[n].kind, infos[x].kind)
    ensures AllProper(now, infos) && Reparented(ns, now, x, n)
  {
    forall c: nat | c < |ns| ensures Proper(now, infos, c) {
      if c != x {
        assert Proper(ns, infos, c);
        assert i < |l| ==> l[i] in l;
        assert |l| > 0 ==> l[0] in l;
      }
    }
  }

  lemma NewIsAdmitted(ns: Arena, infos: seq<Info>, kids: Kids, now: Arena, n: nat, place: Place, info: Info)
    requires Tree(ns, kids) && AllProper(ns, infos) && n < |ns|
    requires info.home == infos[n].home && AllowInsertChild(infos[n].kind, info.kind)
    requires Fits(kids[n], place) && (forall c: nat | c in kids[n] :: c < |ns| + 1)
    requires LinkedIn(ns + [FRESH], now, n, kids[n], Spot(kids[n], place), |ns|)
    ensures Acyclic(now) && AllProper(now, infos + [info])
  {
    var ns1 := ns + [FRESH];
    assert forall c: nat | c in kids[n] :: c < |ns1| && ns1[c].parent == n by {
      ListedParents(ns, n, kids[n]);
    }
    forall c: nat | c < |ns1| && c != |ns| ensures Proper(ns1, infos + [info], c) {
      assert Proper(ns, infos, c);
    }
    AdmittedIsProper(ns1, infos + [info], now, n, kids[n], Spot(kids[n], place), |ns|);
    ExtendedAcyclic(ns, kids);
    NotAboveFresh(ns, kids, n);
    var height: seq<nat> :| Climbs(ns1, height);
    HangKeepsAcyclic(ns1, now, height, |ns|, n);
  }

  lemma NotAboveFresh(ns: Arena, kids: Kids, n: nat)
    requires Wired(ns, kids) && n < |ns|
    ensures !IsAbove(ns + [FRESH], |ns|, n)
  {
    forall k: nat ensures !ParentChain(ns + [FRESH], n, |ns|, k) {
      NoChainToFresh(ns, kids, n, k);
    }
  }

  lemma {:induction false} NoChainToFresh(ns: Arena, kids: Kids, x: Ref, k: nat)
    requires Wired(ns, kids) && x < |ns|
    ensures !ParentChain(ns + [FRESH], x, |ns|, k)
    decreases k
  {
    if k > 0 && 0 <= x {
      assert Placed(ns, kids, x);
      NoChainToFresh(ns, kids, ns[x].parent, k - 1);
    }
  }

  lemma AddressedFits(ns: Arena, kids: Kids, n: nat, place: Place)
    requires Wired(ns, kids) && n < |ns|
    requires (place.Before? || place.After?) ==> 0 <= place.sibling < |ns| && ns[place.sibling].parent == n
    ensures |kids| == |ns| && Fits(kids[n], place)
  {
    if place.Before? || place.After? { assert Placed(ns, kids, place.sibling); }
  }

  /** The texts do not matter. */
  lemma SameKindsProper(ns: Arena, infos: seq<Info>, infos': seq<Info>)
    requires |infos| == |infos'| && forall c: nat | c < |infos| :: infos'[c] == infos[c].(text := infos'[c].text)
    ensures AllProper(ns, infos) <==> AllProper(ns, infos')
  {
    if |infos| == |ns| {
      forall c: nat | c < |ns| ensures Proper(ns, infos, c) <==> Proper(ns, infos', c) {
      }
    }
  }

  /** What is left after a node is taken out. */
  lemma CutIsProper(ns: Arena, infos: seq<Info>, kids: Kids, now: Arena, p: nat, x: nat)
    requires Tree(ns, kids) && AllProper(ns, infos) && p < |ns| && x in kids[p] && x < |ns| && ns[x].parent == p
    requires (forall c: nat | c in kids[p] :: c < |ns|) && x != p
    requires LinkedOut(ns, now, p, kids[p], IndexOf(kids[p], x))
    ensures |now| == |ns| == |infos| && Acyclic(now) && Loose(now, x) && Reparented(ns, now, x, NULL)
    ensures forall c: nat | c < |ns| && c != x :: Proper(now, infos, c)
  {
    var l := kids[p];
    ListedParents(ns, p, l);
    forall c: nat | c < |ns| && c != x ensures Proper(now, infos, c) {
      assert Proper(ns, infos, c);
      assert l[0] in l;
      assert IndexOf(l, x) + 1 < |l| ==> l[IndexOf(l, x) + 1] in l;
    }
    CutKeepsAcyclic(ns, now, x);
  }

  lemma StillFits(l: seq<nat>, x: nat, place: Place)
    requires Distinct(l) && Fits(l, place) && ((place.Before? || place.After?) ==> place.sibling != x)
    ensures Fits(Without(l, x), place)
  {
    if x in l { RemovedIs(l, x); }
  }

  /** A child is not its own parent. */
  lemma NotOwnParent(ns: Arena, x: nat)
    requires Acyclic(ns) && x < |ns|
    ensures ns[x].parent != x
  {
    var height: seq<nat> :| Climbs(ns, height);
  }

  ghost function Highest(height: seq<nat>): (top: nat)
    ensures forall h: nat | h in height :: h <= top
  {
    if height == [] then 0
    else
      var top := Highest(height[1..]);
      assert forall h: nat | h in height :: h == height[0] || h in height[1..];
      if height[0] <= top then top else height[0]
  }

  /** What an admitted move starts from. */
  lemma MoveFacts(ns: Arena, infos: seq<Info>, kids: Kids, parent: nat, moved: nat, place: Place)
    requires Tree(ns, kids) && AllProper(ns, infos) && parent < |ns| && moved < |ns| && !infos[moved].kind.Document?
    requires (place.Before? || place.After?) ==> 0 <= place.sibling < |ns| && ns[place.sibling].parent == parent && place.sibling != moved
    requires !IsAbove(ns, moved, parent)
    ensures var from := ns[moved].parent;
            && 0 <= from < |ns| == |kids| && from != moved && moved in kids[from] && (forall c: nat | c in kids[from] :: c < |ns|)
            && Fits(Unhang(kids, from, moved)[parent], place) && parent != moved && |infos| == |ns|
  {
    assert Proper(ns, infos, moved);
    IsChild(ns, kids, moved);
    UnhungParents(ns, kids, parent);
    UnhungParents(ns, kids, ns[moved].parent);
    NotOwnParent(ns, moved);
    AddressedFits(ns, kids, parent, place);
    assert Listed(ns, parent, kids[parent]);
    StillFits(kids[parent], moved, place);
    AboveStep(ns, moved, parent);
  }

  lemma UnhungParents(ns: Arena, kids: Kids, n: nat)
    requires Wired(ns, kids) && n < |ns|
    ensures |kids| == |ns| && forall c: nat | c in kids[n] :: c < |ns| && ns[c].parent == n
  {
    ListedParents(ns, n, kids[n]);
  }

  lemma RemovedThenHung(ns: Arena, cut: Arena, now: Arena, x: nat, p: nat)
    requires Reparented(ns, cut, x, NULL) && Reparented(cut, now, x, p)
    ensures Reparented(ns, now, x, p)
  {
  }

  class Pool {
    var links: Arena
    var infos: seq<Info>
    ghost var kids: Kids

    ghost predicate Valid()
      reads this
    {
      Tree(links, kids) && AllProper(links, infos)
    }

    // ----- the link operations -----

    method AppendNode(child: nat, node: nat)
      requires Tree(links, kids) && node < |links| && child != node && Loose(links, child)
      modifies this`links, this`kids
      ensures kids == Hang(old(kids), node, Back, child) && Wired(links, kids)
      ensures LinkedIn(old(links), links, node, old(kids)[node], Spot(old(kids)[node], Back), child)
    {
      ghost var ns, l := links, kids[node];
      ListOf(ns, kids, node, child);
      if l != [] { LookAround(ns, kids, node, 0); }
      hide Wired, Acyclic, Listed, Distinct, LinkedIn, Hang;
      var now := SetParent(links, child, node);
      var head := now[node].firstChild;
      if head != NULL {
        var tail := now[head].prevC;
        now := SetNext(now, tail, child);
        now := SetPrev(now, child, tail);
        now := SetPrev(now, head, child);
      } else {
        now := SetFirstChild(now, node, child);
        now := SetPrev(now, child, child);
      }
      LinkedBack(ns, now, node, l, child);
      Hung(ns, kids, now, node, Back, child);
      links, kids := now, Hang(kids, node, Back, child);
    }

    method PrependNode(child: nat, node: nat)
      requires Tree(links, kids) && node < |links| && child != node && Loose(links, child)
      modifies this`links, this`kids
      ensures kids == Hang(old(kids), node, Front, child) && Wired(links, kids)
      ensures LinkedIn(old(links), links, node, old(kids)[node], Spot(old(kids)[node], Front), child)
    {
      ghost var ns, l := links, kids[node];
      ListOf(ns, kids, node, child);
      if l != [] { LookAround(ns, kids, node, 0); }
      hide Wired, Acyclic, Listed, Distinct, LinkedIn, Hang;
      var now := SetParent(links, child, node);
      var head := now[node].firstChild;
      if head != NULL {
        now := SetPrev(now, child, now[head].prevC);
        now := SetPrev(now, head, child);
      } else {
        now := SetPrev(now, child, child);
      }
      now := SetNext(now, child, head);
      now := SetFirstChild(now, node, child);
      LinkedFront(ns, now, node, l, child);
      Hung(ns, kids, now, node, Front, child);
      links, kids := now, Hang(kids, node, Front, child);
    }

    method InsertNodeAfter(child: nat, node: nat)
      requires Tree(links, kids) && node < |links| && Loose(links, child)
      requires 0 <= links[node].parent < |links| && links[node].parent != child && Fits(kids[links[node].parent], After(node))
      modifies this`links, this`kids
      ensures kids == Hang(old(kids), old(links)[node].parent, After(node), child) && Wired(links, kids)
      ensures var p := old(links)[node].parent;
              LinkedIn(old(links), links, p, old(kids)[p], Spot(old(kids)[p], After(node)), child)
    {
      hide Wired, Acyclic, Listed, Distinct, LinkedIn, Hang, Around;
      var parent := links[node].parent;
      ListOf(links, kids, parent, child);
      ghost var ns, l := links, kids[parent];
      ghost var i := IndexOf(l, node);
      AroundAt(ns, kids, parent, i);
      var now := SetParent(links, child, parent);
      if now[node].next != NULL {
        now := SetPrev(now, now[node].next, child);
      } else {
        now := SetPrev(now, now[parent].firstChild, child);
      }
      now := SetNext(now, child, now[node].next);
      now := SetPrev(now, child, node);
      now := SetNext(now, node, child);
      LinkedAfter(ns, now, parent, l, i, child);
      Hung(ns, kids, now, parent, After(node), child);
      links, kids := now, Hang(kids, parent, After(node), child);
    }

    method InsertNodeBefore(child: nat, node: nat)
      requires Tree(links, kids) && node < |links| && Loose(links, child)
      requires 0 <= links[node].parent < |links| && links[node].parent != child && Fits(kids[links[node].parent], Before(node))
      modifies this`links, this`kids
      ensures kids == Hang(old(kids), old(links)[node].parent, Before(node), child) && Wired(links, kids)
      ensures var p := old(links)[node].parent;
              LinkedIn(old(links), links, p, old(kids)[p], Spot(old(kids)[p], Before(node)), child)
    {
      hide Wired, Acyclic, Listed, Distinct, LinkedIn, Hang, Around;
      var parent := links[node].parent;
      ListOf(links, kids, parent, child);
      ghost var ns, l := links, kids[parent];
      ghost var i := IndexOf(l, node);
      AroundAt(ns, kids, parent, i);
      var now := SetParent(links, child, parent);
      if now[now[node].prevC].next != NULL {
        now := SetNext(now, now[node].prevC, child);
      } else {
        now := SetFirstChild(now, parent, child);
      }
      now := SetPrev(now, child, now[node].prevC);
      now := SetNext(now, child, node);
      now := SetPrev(now, node, child);
      LinkedBefore(ns, now, parent, l, i, child);
      Hung(ns, kids, now, parent, Before(node), child);
      links, kids := now, Hang(kids, parent, Before(node), child);
    }

    method RemoveNode(node: nat)
      requires Tree(links, kids) && node < |links| && 0 <= links[node].parent < |links|
      modifies this`links, this`kids
      ensures kids == Unhang(old(kids), old(links)[node].parent, node) && Wired(links, kids)
      ensures node in old(kids)[old(links)[node].parent]
      ensures var p := old(links)[node].parent;
              LinkedOut(old(links), links, p, old(kids)[p], IndexOf(old(kids)[p], node))
    {
      hide Wired, Acyclic, Listed, Distinct, LinkedOut, Unhang, Around;
      var parent := links[node].parent;
      IsChild(links, kids, node);
      ghost var ns, l := links, kids[parent];
      ghost var i := IndexOf(l, node);
      AroundAt(ns, kids, parent, i);
      var now := links;
      if now[node].next != NULL {
        now := SetPrev(now, now[node].next, now[node].prevC);
      } else {
        now := SetPrev(now, now[parent].firstChild, now[node].prevC);
      }
      if now[now[node].prevC].next != NULL {
        now := SetNext(now, now[node].prevC, now[node].next);
      } else {
        now := SetFirstChild(now, parent, now[node].next);
      }
      now := SetParent(now, node, NULL);
      now := SetPrev(now, node, NULL);
      now := SetNext(now, node, NULL);
      UnlinkedFrom(ns, now, parent, l, i);
      RemovedFrom(ns, kids, now, parent, node);
      links, kids := now, Unhang(kids, parent, node);
    }

    /** The link operation for a place among the children of `node`. */
    method LinkAt(child: nat, node: nat, place: Place)
      requires Tree(links, kids) && node < |links| && child != node && Loose(links, child)
      requires Fits(kids[node], place)
      modifies this`links, this`kids
      ensures kids == Hang(old(kids), node, place, child) && Wired(links, kids)
      ensures LinkedIn(old(links), links, node, old(kids)[node], Spot(old(kids)[node], place), child)
    {
      assert Listed(links, node, kids[node]);
      match place
      case Front => PrependNode(child, node);
      case Back => AppendNode(child, node);
      case Before(s) => InsertNodeBefore(child, s);
      case After(s) => InsertNodeAfter(child, s);
    }

    // ----- adding a child -----

    /** A handle of the interface: NULL or a node. */
    ghost predicate Handle(x: Ref)
      reads this`links
    {
      NULL <= x < |links|
    }

    ghost predicate PlaceHandle(place: Place)
      reads this`links
    {
      (place.Before? || place.After?) ==> Handle(place.sibling)
    }

    function KindOf(x: Ref): Kind
      reads this`infos
    {
      if 0 <= x < |infos| then infos[x].kind else NullKind
    }

    /** A place next to a sibling must name a child of the node. */
    predicate Addressed(node: Ref, place: Place)
      requires PlaceHandle(place)
      reads this`links
    {
      (place.Before? || place.After?) ==> place.sibling != NULL && links[place.sibling].parent == node
    }

    /** Allocates a node in the document of `node` and puts it among the children of `node`. */
    method Attach(kind: Kind, node: nat, place: Place) returns (n: nat)
      requires Valid() && node < |links| && AllowInsertChild(infos[node].kind, kind) && Fits(kids[node], place)
      modifies this
      ensures Valid() && n == |old(links)|
      ensures kids == Hang(old(kids) + [[]], node, place, n)
      ensures infos == old(infos) + [Info(kind, old(infos)[node].home, "")]
      ensures LinkedIn(old(links) + [FRESH], links, node, old(kids)[node], Spot(old(kids)[node], place), n)
    {
      ghost var ns, ks, known := links, kids, infos;
      Extended(ns, ks);
      ExtendedAcyclic(ns, ks);
      hide Wired, Acyclic, AllProper, LinkedIn, Loose;
      n := |links|;
      links, kids := links + [FRESH], kids + [[]];
      assert kids[node] == ks[node];
      infos := infos + [Info(kind, infos[node].home, "")];
      LinkAt(n, node, place);
      NewIsAdmitted(ns, known, ks, links, node, place, infos[n]);
    }

    /** `append_child`, `prepend_child`, `insert_child_before` and `insert_child_after`. */
    method AddChild(parent: Ref, kind: Kind, place: Place) returns (r: Ref)
      requires Valid() && Handle(parent) && PlaceHandle(place)
      modifies this
      ensures Valid()
      ensures r != NULL <==> MayHold(old(KindOf(parent)), kind) && old(Addressed(parent, place))
      ensures r == NULL ==> links == old(links) && infos == old(infos) && kids == old(kids)
      ensures r != NULL ==>
                && 0 <= parent < |old(links)| == |old(infos)| == |old(kids)| && Fits(old(kids)[parent], place)
                && r == |old(links)| && kids == Hang(old(kids) + [[]], parent, place, r)
                && infos == old(infos) + [Info(kind, old(infos)[parent].home, if kind == Declaration then "xml" else "")]
    {
      hide Wired, Acyclic, LinkedIn, Loose, Hang;
      if !AllowInsertChild(KindOf(parent), kind) { return NULL; }
      if (place.Before? || place.After?) && (place.sibling == NULL || links[place.sibling].parent != parent) { return NULL; }
      AddressedFits(links, kids, parent, place);
      r := Attach(kind, parent, place);
      if kind == Declaration {
        SameKindsProper(links, infos, infos[r := infos[r].(text := "xml")]);
        infos := infos[r := infos[r].(text := "xml")];
      }
    }

    // ----- moving a node -----

    /** `allow_move`: the kinds fit, the document is the same, and the new parent is not in the node's subtree. */
    method AllowMove(parent: Ref, child: Ref) returns (allowed: bool)
      requires Valid() && Handle(parent) && Handle(child)
      ensures allowed <==> && MayHold(KindOf(parent), KindOf(child))
                           && infos[parent].home == infos[child].home && !IsAbove(links, child, parent)
    {
      if !AllowInsertChild(KindOf(parent), KindOf(child)) { return false; }
      if infos[parent].home != infos[child].home { return false; }
      ghost var height: seq<nat> :| Climbs(links, height);
      ghost var top := Highest(height);
      var cur := parent;
      assert height[cur] in height;
      while cur != NULL
        invariant NULL <= cur < |links| && 0 <= child < |links| && 0 <= parent < |links|
        invariant cur != NULL ==> height[cur] <= top
        invariant IsAbove(links, child, parent) <==> cur != NULL && IsAbove(links, child, cur)
        decreases if cur == NULL then 0 else 1 + top - height[cur]
      {
        AboveStep(links, child, cur);
        if cur == child { return false; }
        assert Placed(links, kids, cur);
        cur := links[cur].parent;
        if cur != NULL { assert height[cur] in height; }
      }
      allowed := true;
    }

    /** `append_move`, `prepend_move`, `insert_move_after` and `insert_move_before`. */
    method MoveChild(parent: Ref, moved: Ref, place: Place) returns (r: Ref)
      requires Valid() && Handle(parent) && Handle(moved) && PlaceHandle(place)
      modifies this
      ensures Valid() && infos == old(infos)
      ensures r != NULL <==>
                && MayHold(old(KindOf(parent)), old(KindOf(moved)))
                && infos[parent].home == infos[moved].home && !IsAbove(old(links), moved, parent)
                && old(Addressed(parent, place)) && ((place.Before? || place.After?) ==> place.sibling != moved)
      ensures r == NULL ==> links == old(links) && kids == old(kids)
      ensures r != NULL ==>
                && r == moved && 0 <= parent < |old(kids)| && 0 <= moved < |old(links)|
                && 0 <= old(links)[moved].parent < |old(kids)|
                && var cut := Unhang(old(kids), old(links)[moved].parent, moved);
                   Fits(cut[parent], place) && kids == Hang(cut, parent, place, moved)
    {
      hide Wired, Acyclic, AllProper, LinkedIn, LinkedOut, Loose, Distinct, Listed, Reparented, IsAbove, Fits, Unhang, Hang;
      var allowed := AllowMove(parent, moved);
      if !allowed { return NULL; }
      if place.Before? || place.After? {
        if place.sibling == NULL || links[place.sibling].parent != parent { return NULL; }
        if moved == place.sibling { return NULL; }
      }
      ghost var ns, ks := links, kids;
      MoveFacts(ns, infos, ks, parent, moved, place);
      ghost var from := ns[moved].parent;
      RemoveNode(moved);
      CutIsProper(ns, infos, ks, links, from, moved);
      ghost var cut, cutKids := links, kids;
      UnhungParents(cut, cutKids, parent);
      LinkAt(moved, parent, place);
      AdmittedIsProper(cut, infos, links, parent, cutKids[parent], Spot(cutKids[parent], place), moved);
      RemovedThenHung(ns, cut, links, moved, parent);
      MoveKeepsAcyclicExactly(ns, links, moved, parent);
      r := moved;
    }
  }
}
