/**
  Copying trees in xml/pugixml.cpp: `node_copy_tree` walks over the source while it appends copies to a new
  node, which may itself lie inside the source.
*/
module NodeCopy {
  import opened Common
  import opened Dom
  import opened ChildLists
  import opened NodeTrees
  import opened NodePool

  /** The state when a copy starts: `f` is what is below the source node `sn`, `dn` is the new node. */
  datatype Source = Source(ns: Arena, infos: seq<Info>, kids: Kids, f: Forest, sn: nat, dn: nat)

  ghost predicate Inside(g: Source, s: nat) {
    s == g.sn || s in Ids(g.f)
  }

  /** The children of a node of the source, in document order. */
  ghost predicate Ordered(g: Source, s: nat) {
    && s < |g.kids|
    && (forall i: nat | i < |g.kids[s]| :: g.kids[s][i] in Ids(g.f) && g.kids[s][i] < |g.ns| && g.ns[g.kids[s][i]].parent == s)
    && (forall i: nat, j: nat | i < j < |g.kids[s]| :: Pos(g.f, g.kids[s][i]) < Pos(g.f, g.kids[s][j]))
  }

  ghost predicate Ready(g: Source) {
    && |g.ns| == |g.infos| == |g.kids| && g.sn < |g.ns| && g.dn < |g.ns| && g.sn != g.dn
    && Linked(g.ns, g.f, g.sn, Last(g.f)) && Separate(g.f) && g.sn !in Ids(g.f)
    && g.ns[g.sn].firstChild == First(g.f) && g.kids[g.dn] == []
    && (forall s: nat | Inside(g, s) :: Ordered(g, s))
  }

  // ----- the state of the walk: `m` maps the nodes seen so far to their copies -----

  ghost predicate Mapped(g: Source, m: map<nat, nat>, p: nat) {
    && g.sn in m && m[g.sn] == g.dn
    && forall s: nat :: s in m <==> s == g.sn || (s in Ids(g.f) && s != g.dn && Pos(g.f, s) < p)
  }

  ghost predicate Apart(g: Source, m: map<nat, nat>, n: nat) {
    && (forall s: nat | s in m && s != g.sn :: |g.ns| <= m[s] < n)
    && (forall s: nat, r: nat | s in m && r in m && s != r :: m[s] != m[r])
  }

  /** The old nodes are as they were, but for the children and the text of the new node. */
  ghost predicate Kept(g: Source, ns: Arena, infos: seq<Info>, kids: Kids) {
    && |g.ns| == |g.infos| == |g.kids| <= |ns| == |infos| == |kids| && g.dn < |g.ns|
    && (forall x: nat | x < |g.ns| && x != g.dn :: ns[x] == g.ns[x] && infos[x] == g.infos[x] && kids[x] == g.kids[x])
    && ns[g.dn] == g.ns[g.dn].(firstChild := ns[g.dn].firstChild)
    && infos[g.dn] == g.infos[g.dn].(text := infos[g.dn].text)
  }

  /** A copy has the kind and the text of its original. */
  ghost predicate Alike(g: Source, m: map<nat, nat>, infos: seq<Info>) {
    forall s: nat | s in m ::
      s < |g.infos| && m[s] < |infos| && infos[m[s]].kind == g.infos[s].kind && infos[m[s]].text == g.infos[s].text
  }

  /** The parent of a copy is the copy of the parent. */
  ghost predicate Parents(g: Source, m: map<nat, nat>, ns: Arena) {
    forall s: nat | s in m && s != g.sn ::
      s < |g.ns| && m[s] < |ns| && 0 <= g.ns[s].parent && g.ns[s].parent in m && ns[m[s]].parent == m[g.ns[s].parent]
  }

  /** The copies of those of the listed nodes that the walk has passed; the new node itself has none. */
  ghost function Seen(g: Source, m: map<nat, nat>, l: seq<nat>, p: nat): seq<nat> {
    if l == [] then []
    else
      var c := l[|l| - 1];
      Seen(g, m, l[..|l| - 1], p) + (if c in m && c in Ids(g.f) && Pos(g.f, c) < p then [m[c]] else [])
  }

  /** The children of a copy are the copies made so far of the children. */
  ghost predicate Children(g: Source, m: map<nat, nat>, p: nat, kids: Kids) {
    forall s: nat | s in m :: s < |g.kids| && m[s] < |kids| && kids[m[s]] == Seen(g, m, g.kids[s], p)
  }

  ghost predicate Walked(g: Source, m: map<nat, nat>, p: nat, ns: Arena, infos: seq<Info>, kids: Kids) {
    && Mapped(g, m, p) && Apart(g, m, |ns|) && Kept(g, ns, infos, kids)
    && Alike(g, m, infos) && Parents(g, m, ns) && Children(g, m, p, kids)
  }

  // ----- one node further -----

  /** Nothing changes for lists without a node at position `p`. */
  lemma {:induction false} SeenElsewhere(g: Source, m: map<nat, nat>, m': map<nat, nat>, l: seq<nat>, p: nat)
    requires forall i: nat | i < |l| :: l[i] in Ids(g.f) && (Pos(g.f, l[i]) != p || (l[i] !in m && l[i] !in m'))
    requires forall s: nat | s in Ids(g.f) && Pos(g.f, s) != p :: (s in m <==> s in m') && (s in m ==> m[s] == m'[s])
    ensures Seen(g, m', l, p + 1) == Seen(g, m, l, p)
  {
    if l != [] { SeenElsewhere(g, m, m', l[..|l| - 1], p); }
  }

  lemma {:induction false} SeenHere(g: Source, m: map<nat, nat>, sit: nat, copy: nat, l: seq<nat>, k: nat, p: nat)
    requires k < |l| && l[k] == sit && sit in Ids(g.f) && Pos(g.f, sit) == p && sit !in m
    requires forall i: nat | i < |l| :: l[i] in Ids(g.f)
    requires forall i: nat, j: nat | i < j < |l| :: Pos(g.f, l[i]) < Pos(g.f, l[j])
    ensures Seen(g, m[sit := copy], l, p + 1) == Seen(g, m, l, p) + [copy]
  {
    hide Ids, Pos, Seen;
    var front, m' := l[..|l| - 1], m[sit := copy];
    SeenNext(g, m, l, p);
    SeenNext(g, m', l, p + 1);
    if k == |l| - 1 {
      SeenElsewhere(g, m, m', front, p);
    } else {
      DifferentNodesDifferentPos(g.f, l[|l| - 1], sit);
      SeenHere(g, m, sit, copy, front, k, p);
    }
  }

  lemma SeenNext(g: Source, m: map<nat, nat>, l: seq<nat>, p: nat)
    requires l != []
    ensures var c := l[|l| - 1];
            Seen(g, m, l, p) == Seen(g, m, l[..|l| - 1], p) + (if c in m && c in Ids(g.f) && Pos(g.f, c) < p then [m[c]] else [])
  {
    hide Ids, Pos;
  }

  lemma {:induction false} NothingSeen(g: Source, m: map<nat, nat>, l: seq<nat>, p: nat)
    requires forall i: nat | i < |l| :: l[i] in Ids(g.f) && p <= Pos(g.f, l[i])
    ensures Seen(g, m, l, p) == []
  {
    if l != [] { NothingSeen(g, m, l[..|l| - 1], p); }
  }

  /** A node's children stand behind it, and it is among the children of its parent, which was passed before. */
  lemma Kinship(g: Source, s: nat)
    requires Ready(g) && Tree(g.ns, g.kids) && s in Ids(g.f)
    ensures s < |g.ns| && 0 <= g.ns[s].parent < |g.kids| && s in g.kids[g.ns[s].parent] && Inside(g, g.ns[s].parent)
    ensures g.ns[s].parent != g.sn ==> Pos(g.f, g.ns[s].parent) < Pos(g.f, s)
    ensures forall i: nat | i < |g.kids[s]| :: g.kids[s][i] in Ids(g.f) && Pos(g.f, s) < Pos(g.f, g.kids[s][i])
  {
    ParentFacts(g.ns, g.f, g.sn, Last(g.f), s);
    assert Placed(g.ns, g.kids, s);
    assert Inside(g, s) && Ordered(g, s);
    forall i: nat | i < |g.kids[s]| ensures Pos(g.f, s) < Pos(g.f, g.kids[s][i]) {
      ParentFacts(g.ns, g.f, g.sn, Last(g.f), g.kids[s][i]);
    }
  }

  lemma {:induction false} SeenAreCopies(g: Source, m: map<nat, nat>, l: seq<nat>, p: nat, n: nat)
    requires Apart(g, m, n) && g.sn !in Ids(g.f)
    ensures forall c: nat | c in Seen(g, m, l, p) :: |g.ns| <= c < n
  {
    if l != [] { SeenAreCopies(g, m, l[..|l| - 1], p, n); }
  }

  /** A copy of `sit`, which is at position `p`, has been appended to `dit`. */
  ghost predicate Appended(g: Source, m: map<nat, nat>, p: nat, sit: nat, dit: nat,
                           ns: Arena, infos: seq<Info>, kids: Kids, ns': Arena, infos': seq<Info>, kids': Kids) {
    && sit in Ids(g.f) && Pos(g.f, sit) == p && sit != g.dn && sit < |g.ns| == |g.infos| && |infos| == |ns| == |kids|
    && 0 <= g.ns[sit].parent && g.ns[sit].parent in m && dit == m[g.ns[sit].parent]
    && dit < |ns| && (forall c: nat | c in kids[dit] :: c < |ns|)
    && |ns'| == |kids'| == |ns| + 1 && kids' == (kids + [[]])[dit := kids[dit] + [|ns|]]
    && LinkedIn(ns + [FRESH], ns', dit, kids[dit], |kids[dit]|, |ns|)
    && |infos'| == |infos| + 1 && infos == infos'[..|infos|]
    && infos'[|infos|].kind == g.infos[sit].kind && infos'[|infos|].text == g.infos[sit].text
  }

  lemma MappedStep(g: Source, m: map<nat, nat>, p: nat, sit: nat, n: nat)
    requires Ready(g) && Mapped(g, m, p) && Apart(g, m, n) && |g.ns| <= n
    requires sit in Ids(g.f) && Pos(g.f, sit) == p
    ensures sit !in m
    ensures if sit == g.dn then Mapped(g, m, p + 1) else Mapped(g, m[sit := n], p + 1) && Apart(g, m[sit := n], n + 1)
  {
    hide Linked, Separate, Ids, Pos, Ordered;
    forall s: nat | s in Ids(g.f) ensures Pos(g.f, s) == p <==> s == sit {
      DifferentNodesDifferentPos(g.f, s, sit);
    }
  }

  lemma Untouched(g: Source, m: map<nat, nat>, p: nat, q: nat, dit: nat, kids: Kids, n: nat)
    requires g.sn !in Ids(g.f) && Apart(g, m, n) && Children(g, m, p, kids) && q in m && dit == m[q]
    requires g.sn in m && m[g.sn] == g.dn
    ensures dit < |kids| && (dit == g.dn || |g.ns| <= dit < n) && forall c: nat | c in kids[dit] :: |g.ns| <= c < n
  {
    hide Ids, Seen;
    SeenAreCopies(g, m, g.kids[q], p, n);
  }

  lemma KeptStep(g: Source, m: map<nat, nat>, p: nat, sit: nat, dit: nat,
                 ns: Arena, infos: seq<Info>, kids: Kids, ns': Arena, infos': seq<Info>, kids': Kids)
    requires Ready(g) && Mapped(g, m, p) && Apart(g, m, |ns|) && Children(g, m, p, kids) && Kept(g, ns, infos, kids)
    requires Appended(g, m, p, sit, dit, ns, infos, kids, ns', infos', kids')
    ensures Kept(g, ns', infos', kids')
  {
    Untouched(g, m, p, g.ns[sit].parent, dit, kids, |ns|);
    hide Linked, Separate, Ids, Pos, Ordered, Mapped, Apart, Children, Ready;
    AppendKeeps(ns + [FRESH], ns', dit, kids[dit], |ns|);
    hide LinkedIn;
    forall x: nat | x < |g.ns| && x != g.dn ensures infos'[x] == g.infos[x] && kids'[x] == g.kids[x] && ns'[x] == g.ns[x] {
      assert infos[x] == g.infos[x] && (ns + [FRESH])[x] == g.ns[x];
    }
    assert infos'[g.dn] == infos[g.dn] && (ns + [FRESH])[g.dn] == ns[g.dn];
  }

  lemma AppendKeeps(ns: Arena, now: Arena, n: nat, l: seq<nat>, x: nat)
    requires n < |ns| && x < |ns| && (forall c: nat | c in l :: c < |ns|) && LinkedIn(ns, now, n, l, |l|, x)
    ensures forall c: nat | c < |ns| && c != x && c !in l :: now[c] == ns[c].(firstChild := now[c].firstChild)
    ensures forall c: nat | c < |ns| && c != x && c !in l && c != n :: now[c] == ns[c]
  {
    assert l != [] ==> l[|l| - 1] in l && l[0] in l;
  }

  lemma ParentsStep(g: Source, m: map<nat, nat>, p: nat, sit: nat, dit: nat,
                    ns: Arena, infos: seq<Info>, kids: Kids, ns': Arena, infos': seq<Info>, kids': Kids)
    requires Parents(g, m, ns) && sit !in m && Appended(g, m, p, sit, dit, ns, infos, kids, ns', infos', kids')
    ensures Parents(g, m[sit := |ns|], ns')
  {
    hide Ids, Pos;
    forall x: nat | x < |ns| ensures ns'[x].parent == ns[x].parent {
      assert (ns + [FRESH])[x] == ns[x];
    }
    assert ns'[|ns|].parent == dit;
    hide LinkedIn;
  }

  lemma AlikeStep(g: Source, m: map<nat, nat>, p: nat, sit: nat, dit: nat,
                  ns: Arena, infos: seq<Info>, kids: Kids, ns': Arena, infos': seq<Info>, kids': Kids)
    requires Alike(g, m, infos) && sit !in m && Appended(g, m, p, sit, dit, ns, infos, kids, ns', infos', kids')
    ensures Alike(g, m[sit := |ns|], infos')
  {
    hide Ids, Pos, LinkedIn;
    forall x: nat | x < |infos| ensures infos'[x] == infos[x] {
    }
  }

  lemma ChildrenStep(g: Source, m: map<nat, nat>, p: nat, sit: nat, dit: nat,
                     ns: Arena, infos: seq<Info>, kids: Kids, ns': Arena, infos': seq<Info>, kids': Kids)
    requires Ready(g) && Tree(g.ns, g.kids) && Walked(g, m, p, ns, infos, kids) && sit !in m
    requires Appended(g, m, p, sit, dit, ns, infos, kids, ns', infos', kids')
    ensures Children(g, m[sit := |ns|], p + 1, kids')
  {
    hide Ready, Tree, Walked, LinkedIn, Ids, Pos, Seen;
    var m' := m[sit := |ns|];
    forall s: nat | s in m'
      ensures s < |g.kids| && m'[s] < |kids'| && kids'[m'[s]] == Seen(g, m', g.kids[s], p + 1)
    {
      if s == sit {
        NoneOfItsOwn(g, m', sit, p);
      } else {
        ChildrenOfOne(g, m, p, sit, dit, ns, infos, kids, ns', infos', kids', s);
      }
    }
  }

  lemma NoneOfItsOwn(g: Source, m: map<nat, nat>, sit: nat, p: nat)
    requires Ready(g) && Tree(g.ns, g.kids) && sit in Ids(g.f) && Pos(g.f, sit) == p
    ensures sit < |g.kids| && Seen(g, m, g.kids[sit], p + 1) == []
  {
    hide Linked, Separate, Ids, Pos, Ordered, Tree;
    Kinship(g, sit);
    NothingSeen(g, m, g.kids[sit], p + 1);
  }

  lemma ChildrenOfOne(g: Source, m: map<nat, nat>, p: nat, sit: nat, dit: nat, ns: Arena, infos: seq<Info>, kids: Kids,
                      ns': Arena, infos': seq<Info>, kids': Kids, s: nat)
    requires Ready(g) && Tree(g.ns, g.kids) && Walked(g, m, p, ns, infos, kids) && sit !in m && s in m
    requires Appended(g, m, p, sit, dit, ns, infos, kids, ns', infos', kids')
    ensures s < |g.kids| && m[s] < |kids'| && kids'[m[s]] == Seen(g, m[sit := |ns|], g.kids[s], p + 1)
  {
    hide Linked, Separate, Ids, Pos, Kept, Alike, Parents, LinkedIn, Tree, Seen;
    assert Inside(g, s);
    assert Ordered(g, s);
    forall r: nat | r in Ids(g.f) ensures Pos(g.f, r) == p <==> r == sit {
      DifferentNodesDifferentPos(g.f, r, sit);
    }
    if s == g.ns[sit].parent {
      Kinship(g, sit);
      var k: nat :| k < |g.kids[s]| && g.kids[s][k] == sit;
      SeenHere(g, m, sit, |ns|, g.kids[s], k, p);
    } else {
      SeenElsewhere(g, m, m[sit := |ns|], g.kids[s], p);
    }
  }

  /** The walk passes the next node: a copy of it was appended, or it is the new node itself. */
  lemma WalkedOn(g: Source, m: map<nat, nat>, p: nat, sit: nat, dit: nat,
                 ns: Arena, infos: seq<Info>, kids: Kids, ns': Arena, infos': seq<Info>, kids': Kids)
    requires Ready(g) && Tree(g.ns, g.kids) && Walked(g, m, p, ns, infos, kids)
    requires Appended(g, m, p, sit, dit, ns, infos, kids, ns', infos', kids')
    ensures Walked(g, m[sit := |ns|], p + 1, ns', infos', kids')
  {
    hide Ready, Tree, Mapped, Apart, Alike, Parents, Children, Seen, LinkedIn;
    MappedStep(g, m, p, sit, |ns|);
    KeptStep(g, m, p, sit, dit, ns, infos, kids, ns', infos', kids');
    ParentsStep(g, m, p, sit, dit, ns, infos, kids, ns', infos', kids');
    AlikeStep(g, m, p, sit, dit, ns, infos, kids, ns', infos', kids');
    ChildrenStep(g, m, p, sit, dit, ns, infos, kids, ns', infos', kids');
  }

  lemma WalkedOver(g: Source, m: map<nat, nat>, p: nat, ns: Arena, infos: seq<Info>, kids: Kids)
    requires Ready(g) && Walked(g, m, p, ns, infos, kids) && g.dn in Ids(g.f) && Pos(g.f, g.dn) == p
    ensures Walked(g, m, p + 1, ns, infos, kids)
  {
    MappedStep(g, m, p, g.dn, |ns|);
    hide Linked, Separate, Ids, Pos, Kept, Alike, Parents, Seen;
    forall r: nat | r in Ids(g.f) ensures Pos(g.f, r) == p <==> r == g.dn {
      DifferentNodesDifferentPos(g.f, r, g.dn);
    }
    forall s: nat | s in m ensures Seen(g, m, g.kids[s], p + 1) == Seen(g, m, g.kids[s], p) {
      assert Inside(g, s) && Ordered(g, s);
      SeenElsewhere(g, m, m, g.kids[s], p);
    }
  }

  // ----- the beginning -----

  lemma {:induction false} InOrder(g: Source, s: nat, i: nat, j: nat)
    requires Tree(g.ns, g.kids) && Linked(g.ns, g.f, g.sn, Last(g.f)) && Separate(g.f) && s < |g.kids| && i < j < |g.kids[s]|
    requires forall k: nat | k < |g.kids[s]| :: g.kids[s][k] in Ids(g.f)
    ensures Pos(g.f, g.kids[s][i]) < Pos(g.f, g.kids[s][j])
    decreases j
  {
    var l := g.kids[s];
    ListedAt(g.ns, g.kids, s, j - 1);
    NextFacts(g.ns, g.f, g.sn, Last(g.f), l[j - 1]);
    assert Pos(g.f, l[j - 1]) < End(g.f, l[j - 1]) == Pos(g.f, l[j]);
    if i < j - 1 { InOrder(g, s, i, j - 1); }
  }

  lemma ListHead(ns: Arena, kids: Kids, n: nat)
    requires Tree(ns, kids) && n < |ns|
    ensures |kids| == |ns| && ns[n].firstChild == HeadOf(kids[n])
    ensures forall c: nat | c in kids[n] :: c < |ns| && ns[c].parent == n
  {
    ListedParents(ns, n, kids[n]);
  }

  lemma ReadyNow(g: Source, height: seq<nat>)
    requires |g.infos| == |g.ns| == |g.kids| && Tree(g.ns, g.kids) && Climbs(g.ns, height) && Tall(g.kids, height)
    requires g.sn < |g.ns| && g.dn < |g.ns| && g.sn != g.dn && g.kids[g.dn] == []
    requires Lower(g.kids, height, g.kids[g.sn], height[g.sn])
    requires g.f == Grow(g.kids, height, g.kids[g.sn], height[g.sn])
    ensures Ready(g)
  {
    var l := g.kids[g.sn];
    ListHead(g.ns, g.kids, g.sn);
    hide Wired, Acyclic, Climbs, Tall, Lower, Linked, Separate, Ids, Pos, Grow, IsAbove, Ordered;
    GrowLinked(g.ns, g.kids, height, g.sn, 0, if l == [] then NULL else PrevIn(l, 0));
    assert l[0..] == l;
    GrowEnds(g.kids, height, l, height[g.sn]);
    ChildrenSideBySide(g.ns, g.kids, g.sn);
    GrowSeparate(g.ns, g.kids, height, l, height[g.sn]);
    if g.sn in Ids(g.f) {
      var c := GrowTop(g.ns, g.kids, height, l, height[g.sn], g.sn);
      ChildNotAbove(g.ns, g.kids, height, g.sn, c);
    }
    forall s: nat | Inside(g, s) ensures Ordered(g, s) {
      ReadyChildren(g, height, s);
    }
  }

  lemma ReadyChildren(g: Source, height: seq<nat>, s: nat)
    requires |g.ns| == |g.kids| == |height| && Tree(g.ns, g.kids) && Tall(g.kids, height)
    requires g.sn < |g.ns| && Lower(g.kids, height, g.kids[g.sn], height[g.sn])
    requires g.f == Grow(g.kids, height, g.kids[g.sn], height[g.sn])
    requires Linked(g.ns, g.f, g.sn, Last(g.f)) && Separate(g.f) && Inside(g, s)
    ensures Ordered(g, s)
  {
    hide Tree, Tall, Lower, Linked, Separate, Pos, Grow, Ids;
    if s in Ids(g.f) { ParentFacts(g.ns, g.f, g.sn, Last(g.f), s); }
    ListHead(g.ns, g.kids, s);
    forall i: nat | i < |g.kids[s]|
      ensures var c := g.kids[s][i]; c in Ids(g.f) && c < |g.ns| && g.ns[c].parent == s
    {
      assert g.kids[s][i] in g.kids[s];
      if s == g.sn {
        GrowHas(g.kids, height, g.kids[s], height[s], g.kids[s][i]);
      } else {
        GrowClosed(g.kids, height, g.kids[g.sn], height[g.sn], s, g.kids[s][i]);
      }
    }
    forall i: nat, j: nat | i < j < |g.kids[s]| ensures Pos(g.f, g.kids[s][i]) < Pos(g.f, g.kids[s][j]) {
      InOrder(g, s, i, j);
    }
  }

  lemma WalkBegins(g: Source, infos: seq<Info>)
    requires Ready(g) && infos == g.infos[g.dn := g.infos[g.dn].(text := g.infos[g.sn].text)]
    requires g.infos[g.dn].kind == g.infos[g.sn].kind
    ensures Walked(g, map[g.sn := g.dn], 0, g.ns, infos, g.kids)
  {
    hide Linked, Separate, Ids, Pos;
    assert Inside(g, g.sn);
    assert Ordered(g, g.sn);
    NothingSeen(g, map[g.sn := g.dn], g.kids[g.sn], 0);
  }

  // ----- the walk -----

  /** The walk is at `sit`, whose copy belongs under `dit`; or it is over. */
  ghost predicate At(g: Source, m: map<nat, nat>, p: nat, sit: Ref, dit: Ref) {
    if sit == NULL || sit == g.sn then p == |Preorder(g.f)|
    else
      && 0 <= sit < |g.ns| && sit in Ids(g.f) && Pos(g.f, sit) == p
      && 0 <= g.ns[sit].parent && g.ns[sit].parent in m && dit == m[g.ns[sit].parent]
  }

  /** Old nodes have kept the links that the walk follows. */
  ghost predicate SameLinks(g: Source, ns: Arena) {
    |g.ns| <= |ns| && forall x: nat | x < |g.ns| :: ns[x] == g.ns[x].(firstChild := ns[x].firstChild)
  }

  /** The way up from a node without children, or with all of them copied, to the next node. */
  method NextNode(ns: Arena, last: nat, under: nat, sn: nat, ghost g: Source, ghost m: map<nat, nat>, ghost p: nat)
    returns (sit: Ref, dit: Ref)
    requires Ready(g) && Tree(g.ns, g.kids) && Mapped(g, m, p) && Parents(g, m, ns) && SameLinks(g, ns) && sn == g.sn && |g.ns| <= |ns|
    requires last in Ids(g.f) && last < |g.ns| && End(g.f, last) == p
    requires 0 <= g.ns[last].parent && g.ns[last].parent in m && under == m[g.ns[last].parent] && under < |ns|
    ensures At(g, m, p, sit, dit)
  {
    hide Ready, Tree, Mapped, Parents, SameLinks, Ids, Pos, End, Preorder, Depth;
    sit, dit := last, under;
    while true
      invariant 0 <= sit < |g.ns| && sit in Ids(g.f) && End(g.f, sit) == p && |g.ns| <= |ns|
      invariant 0 <= g.ns[sit].parent && g.ns[sit].parent in m && dit == m[g.ns[sit].parent] && 0 <= dit < |ns|
      decreases Depth(g.f, sit)
    {
      UpOrOn(g, m, p, ns, sit, dit);
      if ns[sit].next != NULL {
        sit := ns[sit].next;
        return;
      }
      sit := ns[sit].parent;
      dit := ns[dit].parent;
      if sit == sn {
        return;
      }
    }
  }

  lemma UpOrOn(g: Source, m: map<nat, nat>, p: nat, ns: Arena, sit: nat, dit: nat)
    requires Ready(g) && Tree(g.ns, g.kids) && Mapped(g, m, p) && Parents(g, m, ns) && SameLinks(g, ns)
    requires sit < |g.ns| && sit in Ids(g.f) && End(g.f, sit) == p
    requires 0 <= g.ns[sit].parent && g.ns[sit].parent in m && dit == m[g.ns[sit].parent]
    ensures sit < |ns| && ns[sit].parent == g.ns[sit].parent
    ensures ns[sit].next != NULL ==> At(g, m, p, ns[sit].next, dit)
    ensures ns[sit].next == NULL && ns[sit].parent == g.sn ==> p == |Preorder(g.f)|
    ensures ns[sit].next == NULL && ns[sit].parent != g.sn ==>
              var q := g.ns[sit].parent;
              && 0 <= q < |g.ns| && q in Ids(g.f) && End(g.f, q) == p && Depth(g.f, q) < Depth(g.f, sit)
              && dit < |ns| && 0 <= g.ns[q].parent && g.ns[q].parent in m && ns[dit].parent == m[g.ns[q].parent] < |ns|
  {
    NextFacts(g.ns, g.f, g.sn, Last(g.f), sit);
    ParentFacts(g.ns, g.f, g.sn, Last(g.f), sit);
    Kinship(g, sit);
    var q := g.ns[sit].parent;
    if q != g.sn {
      Kinship(g, q);
      hide Ready, Tree, Ids, Pos, End, Depth;
      assert q in m && q != g.sn;
    }
    if ns[sit].next != NULL { DifferentFromRoot(g, ns[sit].next); }
  }

  lemma DifferentFromRoot(g: Source, x: Ref)
    requires Ready(g) && 0 <= x && x in Ids(g.f)
    ensures x != g.sn
  {
  }

  // ----- the end -----

  /** The listed nodes' copies. */
  ghost function Image(m: map<nat, nat>, l: seq<nat>): (r: seq<nat>)
    requires forall c: nat | c in l :: c in m
    ensures |r| == |l| && forall i | 0 <= i < |l| :: r[i] == m[l[i]]
  {
    if l == [] then [] else [m[l[0]]] + Image(m, l[1..])
  }

  lemma {:induction false} SeenAll(g: Source, m: map<nat, nat>, l: seq<nat>, p: nat)
    requires Distinct(l) && g.dn !in m
    requires forall c: nat | c in l :: c in Ids(g.f) && Pos(g.f, c) < p && (c != g.dn ==> c in m)
    ensures forall c: nat | c in Without(l, g.dn) :: c in m
    ensures Seen(g, m, l, p) == Image(m, Without(l, g.dn))
  {
    hide Ids, Pos, Without, Distinct, Image;
    if l != [] {
      var front, last := l[..|l| - 1], l[|l| - 1];
      WithoutLast(l, g.dn);
      assert l == front + [last];
      SeenAll(g, m, front, p);
      if last != g.dn { ImageSnoc(m, Without(front, g.dn), last); }
    } else {
      WithoutNone(l, g.dn);
    }
  }

  lemma ImageSnoc(m: map<nat, nat>, l: seq<nat>, c: nat)
    requires c in m && forall x: nat | x in l :: x in m
    ensures (forall x: nat | x in l + [c] :: x in m) && Image(m, l + [c]) == Image(m, l) + [m[c]]
  {
  }

  lemma WithoutNone(l: seq<nat>, x: nat)
    requires x !in l
    ensures Without(l, x) == l
  {
  }

  lemma WithoutLast(l: seq<nat>, x: nat)
    requires l != [] && Distinct(l)
    ensures var front, last := l[..|l| - 1], l[|l| - 1];
            && Distinct(front) && (last == x ==> Without(front, x) == front)
            && Without(l, x) == if last == x then front else Without(front, x) + [last]
  {
    var front, last := l[..|l| - 1], l[|l| - 1];
    assert l == front + [last];
    if last != x && x in l {
      assert x in front;
      SamePlace(l, IndexOf(l, x), IndexOf(front, x));
      assert Without(l, x) == Without(front, x) + [last];
    }
    if last == x {
      SamePlace(l, IndexOf(l, x), |l| - 1);
      assert Without(l, x) == front;
    }
  }

  /** `m` maps the nodes from `sn` on down, without `dn`, to copies of them, `sn` to `dn`. */
  ghost predicate IsCopy(infos0: seq<Info>, kids0: Kids, sn: nat, dn: nat, m: map<nat, nat>, infos: seq<Info>, kids: Kids) {
    && |infos0| == |kids0| && |infos| == |kids| && sn in m && m[sn] == dn && dn !in m
    && forall s: nat | s in m ::
         && s < |kids0| && m[s] < |kids|
         && infos[m[s]].kind == infos0[s].kind && infos[m[s]].text == infos0[s].text
         && (forall c: nat | c in Without(kids0[s], dn) :: c in m) && kids[m[s]] == Image(m, Without(kids0[s], dn))
  }

  lemma WalkEnds(g: Source, m: map<nat, nat>, p: nat, ns: Arena, infos: seq<Info>, kids: Kids)
    requires Ready(g) && Tree(g.ns, g.kids) && Walked(g, m, p, ns, infos, kids) && p == |Preorder(g.f)|
    ensures IsCopy(g.infos, g.kids, g.sn, g.dn, m, infos, kids)
  {
    hide Linked, Separate, Ids, Preorder, Pos, Seen, Without, Parents, Image;
    forall s: nat | s in m
      ensures s < |g.kids| && (forall c: nat | c in Without(g.kids[s], g.dn) :: c in m)
      ensures m[s] < |kids| && kids[m[s]] == Image(m, Without(g.kids[s], g.dn))
    {
      assert Inside(g, s);
      assert Ordered(g, s);
      assert Listed(g.ns, s, g.kids[s]);
      SeenAll(g, m, g.kids[s], p);
    }
  }

  // ----- node_copy_tree -----

  /** What copying leaves alone: all nodes there were, but for the children and the text of the new node. */
  ghost predicate OnlyBelow(ns0: Arena, infos0: seq<Info>, kids0: Kids, dn: nat, ns: Arena, infos: seq<Info>, kids: Kids) {
    && |ns0| == |infos0| == |kids0| <= |ns| == |infos| == |kids|
    && forall x: nat | x < |ns0| && x != dn :: ns[x] == ns0[x] && infos[x] == infos0[x] && kids[x] == kids0[x]
  }

  lemma ReadyHeight(ns: Arena, kids: Kids, sn: nat) returns (height: seq<nat>)
    requires Tree(ns, kids) && sn < |ns|
    ensures Climbs(ns, height) && Tall(kids, height) && Lower(kids, height, kids[sn], height[sn])
  {
    height :| Climbs(ns, height);
    WiredTall(ns, kids, height);
    TallAt(kids, height, sn, sn);
  }

  lemma Begin(ns: Arena, infos: seq<Info>, kids: Kids, sn: nat, dn: nat) returns (g: Source)
    requires Tree(ns, kids) && AllProper(ns, infos) && sn < |ns| && dn < |ns| && sn != dn && kids[dn] == []
    ensures g.ns == ns && g.infos == infos && g.kids == kids && g.sn == sn && g.dn == dn && Ready(g)
  {
    var height := ReadyHeight(ns, kids, sn);
    g := Source(ns, infos, kids, Grow(kids, height, kids[sn], height[sn]), sn, dn);
    ReadyNow(g, height);
  }

  lemma WalkStarts(g: Source, m: map<nat, nat>)
    requires Ready(g) && m == map[g.sn := g.dn]
    ensures At(g, m, 0, g.ns[g.sn].firstChild, g.dn)
  {
  }

  lemma Descend(g: Source, m: map<nat, nat>, p: nat, sit: nat, ns: Arena)
    requires Ready(g) && SameLinks(g, ns) && sit in Ids(g.f) && sit in m && Pos(g.f, sit) + 1 == p
    requires sit != g.dn && sit < |g.ns| && ns[sit] == g.ns[sit]
    ensures if ns[sit].firstChild != NULL then At(g, m, p, ns[sit].firstChild, m[sit]) else End(g.f, sit) == p
  {
    ChildFacts(g.ns, g.f, g.sn, Last(g.f), sit);
    hide Ids, Pos, End, Depth, Linked;
  }

  lemma NewHasNoChildren(g: Source, ns: Arena)
    requires Ready(g) && Tree(g.ns, g.kids) && g.dn in Ids(g.f)
    ensures End(g.f, g.dn) == Pos(g.f, g.dn) + 1
  {
    ChildFacts(g.ns, g.f, g.sn, Last(g.f), g.dn);
    ListHead(g.ns, g.kids, g.dn);
  }

  lemma WalkOver(g: Source, m: map<nat, nat>, p: nat, sit: Ref, dit: Ref)
    requires At(g, m, p, sit, dit) && (sit == NULL || sit == g.sn)
    ensures p == |Preorder(g.f)|
  {
  }

  lemma WalkLinks(g: Source, m: map<nat, nat>, p: nat, ns: Arena, infos: seq<Info>, kids: Kids)
    requires Walked(g, m, p, ns, infos, kids)
    ensures SameLinks(g, ns) && Mapped(g, m, p) && Parents(g, m, ns) && |g.ns| <= |ns|
  {
    hide Mapped, Alike, Parents, Children;
  }

  /** What the walk knows about the next node to copy. */
  lemma NextToCopy(g: Source, m: map<nat, nat>, p: nat, sit: Ref, dit: Ref, ns: Arena, infos: seq<Info>, kids: Kids)
    requires Ready(g) && Walked(g, m, p, ns, infos, kids) && At(g, m, p, sit, dit) && sit != g.sn && sit != NULL
    requires Tree(ns, kids) && AllProper(ns, infos)
    ensures 0 <= sit < |g.ns| == |g.infos| <= |ns| == |infos| == |kids| && 0 <= dit < |ns|
    ensures sit in Ids(g.f) && Pos(g.f, sit) == p < |Preorder(g.f)|
    ensures sit != g.dn ==> AllowInsertChild(infos[dit].kind, infos[sit].kind) && infos[sit] == g.infos[sit]
    ensures forall c: nat | c in kids[dit] :: c < |ns|
    ensures 0 <= g.ns[sit].parent && g.ns[sit].parent in m && dit == m[g.ns[sit].parent] && sit !in m
  {
    hide Linked, Separate, Ids, Pos, Preorder, Ordered, Wired, Acyclic, Seen;
    var q := g.ns[sit].parent;
    assert Proper(ns, infos, sit);
    ListHead(ns, kids, dit);
  }

  /** `append_new_node` with the text copied is one step of the walk. */
  lemma AppendedNow(g: Source, m: map<nat, nat>, p: nat, sit: nat, dit: nat,
                    ns: Arena, infos: seq<Info>, kids: Kids, ns': Arena, infos': seq<Info>, kids': Kids)
    requires Ready(g) && At(g, m, p, sit, dit) && sit != g.sn && sit != g.dn && |infos| == |ns| == |kids| && dit < |ns|
    requires (forall c: nat | c in kids[dit] :: c < |ns|) && sit < |infos| && infos[sit] == g.infos[sit]
    requires kids' == Hang(kids + [[]], dit, Back, |ns|)
    requires LinkedIn(ns + [FRESH], ns', dit, kids[dit], |kids[dit]|, |ns|)
    requires |infos'| == |infos| + 1 && infos' == infos + [infos'[|infos|]]
    requires infos'[|infos|].kind == infos[sit].kind && infos'[|infos|].text == infos[sit].text
    ensures Appended(g, m, p, sit, dit, ns, infos, kids, ns', infos', kids')
  {
    hide Linked, Separate, Ids, Pos, Preorder, Ordered, LinkedIn;
    var l := kids[dit];
    assert (kids + [[]])[dit] == l && InsertAt(l, |l|, |ns|) == l + [|ns|];
    assert |ns'| == |ns| + 1 by { LinkedLength(ns + [FRESH], ns', dit, l, |l|, |ns|); }
  }

  lemma LinkedLength(ns: Arena, ns': Arena, n: nat, l: seq<nat>, i: nat, x: nat)
    requires n < |ns| && i <= |l| && x < |ns| && (forall c: nat | c in l :: c < |ns|) && LinkedIn(ns, ns', n, l, i, x)
    ensures |ns'| == |ns|
  {
  }

  lemma KeptLeavesAlone(g: Source, m: map<nat, nat>, p: nat, ns: Arena, infos: seq<Info>, kids: Kids)
    requires Walked(g, m, p, ns, infos, kids)
    ensures OnlyBelow(g.ns, g.infos, g.kids, g.dn, ns, infos, kids)
    ensures forall s: nat | s in m && s != g.sn :: |g.ns| <= m[s]
  {
    hide Mapped, Alike, Parents, Children;
  }

  /** Appends a copy of `sit` to `dit`, with `node_copy_contents`. */
  method CopyNode(pool: Pool, sit: nat, dit: nat, ghost g: Source, ghost m: map<nat, nat>, ghost p: nat)
    returns (copy: nat)
    requires pool.Valid() && Ready(g) && Tree(g.ns, g.kids) && sit != g.dn && sit != g.sn
    requires Walked(g, m, p, pool.links, pool.infos, pool.kids) && At(g, m, p, sit, dit)
    modifies pool
    ensures pool.Valid() && copy == |old(pool.links)| < |pool.links| && sit < |g.ns| <= |pool.links| && sit !in m
    ensures Walked(g, m[sit := copy], p + 1, pool.links, pool.infos, pool.kids)
    ensures pool.links[sit] == g.ns[sit]
  {
    hide Ready, Walked, AllProper, At, LinkedIn, Hang, Ids, Pos, Preorder, End, Acyclic, Wired;
    ghost var ns, infos, kids := pool.links, pool.infos, pool.kids;
    NextToCopy(g, m, p, sit, dit, ns, infos, kids);
    copy := pool.Attach(pool.infos[sit].kind, dit, Back);
    SameKindsProper(pool.links, pool.infos, pool.infos[copy := pool.infos[copy].(text := pool.infos[sit].text)]);
    pool.infos := pool.infos[copy := pool.infos[copy].(text := pool.infos[sit].text)];
    AppendedNow(g, m, p, sit, dit, ns, infos, kids, pool.links, pool.infos, pool.kids);
    WalkedOn(g, m, p, sit, dit, ns, infos, kids, pool.links, pool.infos, pool.kids);
    LinkedLength(ns + [FRESH], pool.links, dit, kids[dit], |kids[dit]|, copy);
    LinksOfOld(g, m[sit := copy], p + 1, sit, pool.links, pool.infos, pool.kids);
  }

  lemma LinksOfOld(g: Source, m: map<nat, nat>, p: nat, x: nat, ns: Arena, infos: seq<Info>, kids: Kids)
    requires Walked(g, m, p, ns, infos, kids) && x < |g.ns| && x != g.dn
    ensures |g.ns| <= |ns| && ns[x] == g.ns[x]
  {
    hide Mapped, Alike, Parents, Children;
  }

  method NodeCopyTree(pool: Pool, dn: nat, sn: nat) returns (ghost m: map<nat, nat>)
    requires pool.Valid() && dn < |pool.links| && sn < |pool.links| && dn != sn
    requires pool.kids[dn] == [] && pool.infos[dn].kind == pool.infos[sn].kind
    modifies pool
    ensures pool.Valid()
    ensures IsCopy(old(pool.infos), old(pool.kids), sn, dn, m, pool.infos, pool.kids)
    ensures OnlyBelow(old(pool.links), old(pool.infos), old(pool.kids), dn, pool.links, pool.infos, pool.kids)
    ensures forall s: nat | s in m && s != sn :: |old(pool.links)| <= m[s]
  {
    hide Ready, Walked, Acyclic, Wired, AllProper, At, IsCopy, OnlyBelow, SameLinks, Mapped, Parents, Ids, Pos, Preorder, End;
    ghost var g := Begin(pool.links, pool.infos, pool.kids, sn, dn);
    m := map[sn := dn];
    WalkBegins(g, pool.infos[dn := pool.infos[dn].(text := pool.infos[sn].text)]);
    SameKindsProper(pool.links, pool.infos, pool.infos[dn := pool.infos[dn].(text := pool.infos[sn].text)]);
    WalkStarts(g, m);
    pool.infos := pool.infos[dn := pool.infos[dn].(text := pool.infos[sn].text)];
    ghost var p: nat := 0;
    var dit: Ref, sit: Ref := dn, pool.links[sn].firstChild;
    while sit != NULL && sit != sn
      invariant pool.Valid() && p <= |Preorder(g.f)|
      invariant Walked(g, m, p, pool.links, pool.infos, pool.kids) && At(g, m, p, sit, dit)
      decreases |Preorder(g.f)| - p
    {
      NextToCopy(g, m, p, sit, dit, pool.links, pool.infos, pool.kids);
      if sit != dn {
        var copy := CopyNode(pool, sit, dit, g, m, p);
        m, p := m[sit := copy], p + 1;
        WalkLinks(g, m, p, pool.links, pool.infos, pool.kids);
        Descend(g, m, p, sit, pool.links);
        if pool.links[sit].firstChild != NULL {
          dit := copy;
          sit := pool.links[sit].firstChild;
          continue;
        }
      } else {
        WalkedOver(g, m, p, pool.links, pool.infos, pool.kids);
        p := p + 1;
        NewHasNoChildren(g, pool.links);
        WalkLinks(g, m, p, pool.links, pool.infos, pool.kids);
      }
      sit, dit := NextNode(pool.links, sit, dit, sn, g, m, p);
    }
    WalkOver(g, m, p, sit, dit);
    WalkEnds(g, m, p, pool.links, pool.infos, pool.kids);
    KeptLeavesAlone(g, m, p, pool.links, pool.infos, pool.kids);
  }

  // ----- a copy is the same tree -----

  /** What a tree says, whatever its nodes are. */
  datatype Content = Blank | Entry(kind: Kind, text: string, kids: Content, rest: Content)

  ghost function ContentOf(f: Forest, infos: seq<Info>): Content {
    if f.Nil? || f.id >= |infos| then Blank
    else Entry(infos[f.id].kind, infos[f.id].text, ContentOf(f.kids, infos), ContentOf(f.rest, infos))
  }

  ghost predicate SameShape(infos0: seq<Info>, kids0: Kids, m: map<nat, nat>, infos: seq<Info>, kids: Kids) {
    && |infos0| == |kids0| && |infos| == |kids|
    && forall s: nat | s in m ::
         && s < |kids0| && m[s] < |kids|
         && infos[m[s]].kind == infos0[s].kind && infos[m[s]].text == infos0[s].text
         && (forall c: nat | c in kids0[s] :: c in m) && kids[m[s]] == Image(m, kids0[s])
  }

  lemma {:induction false} SameContent(infos0: seq<Info>, kids0: Kids, h0: seq<nat>, l0: seq<nat>, b0: nat, m: map<nat, nat>,
                                       infos: seq<Info>, kids: Kids, h: seq<nat>, l: seq<nat>, b: nat)
    requires SameShape(infos0, kids0, m, infos, kids) && (forall c: nat | c in l0 :: c in m) && l == Image(m, l0)
    requires Tall(kids0, h0) && Lower(kids0, h0, l0, b0) && Tall(kids, h) && Lower(kids, h, l, b)
    ensures ContentOf(Grow(kids, h, l, b), infos) == ContentOf(Grow(kids0, h0, l0, b0), infos0)
    decreases b0, |l0|
  {
    hide SameShape, Image, Tall, Lower;
    ImageParts(m, l0);
    if l0 != [] {
      var s := l0[0];
      ShapeAt(infos0, kids0, m, infos, kids, s);
      LowerParts(kids0, h0, l0, b0);
      LowerParts(kids, h, l, b);
      SameContent(infos0, kids0, h0, kids0[s], h0[s], m, infos, kids, h, kids[m[s]], h[m[s]]);
      SameContent(infos0, kids0, h0, l0[1..], b0, m, infos, kids, h, l[1..], b);
    }
  }

  lemma ImageParts(m: map<nat, nat>, l: seq<nat>)
    requires forall c: nat | c in l :: c in m
    ensures l == [] ==> Image(m, l) == []
    ensures l != [] ==> (forall c: nat | c in l[1..] :: c in m) && Image(m, l) == [m[l[0]]] + Image(m, l[1..])
  {
  }

  lemma ShapeAt(infos0: seq<Info>, kids0: Kids, m: map<nat, nat>, infos: seq<Info>, kids: Kids, s: nat)
    requires SameShape(infos0, kids0, m, infos, kids) && s in m
    ensures s < |kids0| == |infos0| && m[s] < |kids| == |infos|
    ensures infos[m[s]].kind == infos0[s].kind && infos[m[s]].text == infos0[s].text
    ensures (forall c: nat | c in kids0[s] :: c in m) && kids[m[s]] == Image(m, kids0[s])
  {
  }

  lemma LowerParts(kids: Kids, h: seq<nat>, l: seq<nat>, b: nat)
    requires Tall(kids, h) && Lower(kids, h, l, b) && l != []
    ensures l[0] < |kids| == |h| && h[l[0]] < b && Lower(kids, h, l[1..], b) && Lower(kids, h, kids[l[0]], h[l[0]])
  {
    TallAt(kids, h, l[0], l[0]);
  }

  /** The new node is the only difference between the children before and after it was put there. */
  lemma WithoutNew(kids0: Kids, n: nat, place: Place, x: nat, s: nat)
    requires n < |kids0| && s < |kids0| && x == |kids0| && Fits(kids0[n], place)
    requires Distinct(kids0[s]) && (forall c: nat | c in kids0[s] :: c < x)
    ensures Without(Hang(kids0 + [[]], n, place, x)[s], x) == kids0[s]
  {
    var l, l' := kids0[s], Hang(kids0 + [[]], n, place, x)[s];
    assert (kids0 + [[]])[n] == kids0[n];
    if s == n {
      var i := Spot(l, place);
      InsertedIs(l, i, x);
      assert l'[i] == x;
      SamePlace(l', i, IndexOf(l', x));
      assert Without(l', x) == l;
    }
  }

  lemma CopyOfBefore(ns0: Arena, infos0: seq<Info>, kids0: Kids, n: nat, place: Place, infos1: seq<Info>, kids1: Kids,
                     sn: nat, m: map<nat, nat>, infos: seq<Info>, kids: Kids)
    requires Wired(ns0, kids0) && |infos0| == |ns0| && n < |ns0| && Fits(kids0[n], place)
    requires kids1 == Hang(kids0 + [[]], n, place, |ns0|) && |infos1| == |infos0| + 1 && infos0 == infos1[..|infos0|]
    requires IsCopy(infos1, kids1, sn, |ns0|, m, infos, kids)
    ensures SameShape(infos0, kids0, m, infos, kids)
  {
    forall s: nat | s in m
      ensures s < |kids0| && Without(kids1[s], |ns0|) == kids0[s] && infos1[s] == infos0[s]
    {
      assert s != |ns0|;
      ListedParents(ns0, s, kids0[s]);
      WithoutNew(kids0, n, place, |ns0|, s);
    }
    hide Wired, Hang, Without;
  }

  /** Whatever heights are used to grow them, the trees of the copy and of the original say the same. */
  ghost predicate SameTree(infos0: seq<Info>, kids0: Kids, s: nat, infos: seq<Info>, kids: Kids, r: nat) {
    forall h0: seq<nat>, h: seq<nat> | Tall(kids0, h0) && Tall(kids, h) && s < |kids0| && r < |kids| ::
      ContentOf(TreeOf(kids, h, r), infos) == ContentOf(TreeOf(kids0, h0, s), infos0)
  }

  lemma ShapeGivesTree(infos0: seq<Info>, kids0: Kids, m: map<nat, nat>, infos: seq<Info>, kids: Kids, s: nat)
    requires SameShape(infos0, kids0, m, infos, kids) && s in m
    ensures SameTree(infos0, kids0, s, infos, kids, m[s])
  {
    hide SameShape, Image, Tall, Grow, ContentOf;
    var r := m[s];
    ShapeAt(infos0, kids0, m, infos, kids, s);
    ImageParts(m, [s]);
    assert [s][1..] == [];
    ImageParts(m, []);
    forall h0: seq<nat>, h: seq<nat> | Tall(kids0, h0) && Tall(kids, h) && s < |kids0| && r < |kids|
      ensures ContentOf(TreeOf(kids, h, r), infos) == ContentOf(TreeOf(kids0, h0, s), infos0)
    {
      TallAt(kids0, h0, s, s);
      TallAt(kids, h, r, r);
      SameContent(infos0, kids0, h0, [s], h0[s] + 1, m, infos, kids, h, [r], h[r] + 1);
    }
  }

  /**
    `append_copy`, `prepend_copy`, `insert_copy_before` and `insert_copy_after`.  The copy says what the
    original said before the copy was put in its place, even if that place is inside the original.
   */
  method CopyChild(pool: Pool, parent: Ref, proto: Ref, place: Place) returns (r: Ref)
    requires pool.Valid() && pool.Handle(parent) && pool.Handle(proto) && pool.PlaceHandle(place)
    modifies pool
    ensures pool.Valid()
    ensures r != NULL <==> MayHold(old(pool.KindOf(parent)), old(pool.KindOf(proto))) && old(pool.Addressed(parent, place))
    ensures r == NULL ==> pool.links == old(pool.links) && pool.infos == old(pool.infos) && pool.kids == old(pool.kids)
    ensures r != NULL ==>
              && 0 <= parent < |old(pool.kids)| && 0 <= proto < |old(pool.kids)| && Fits(old(pool.kids)[parent], place)
              && r == |old(pool.links)| < |pool.kids|
              && SameTree(old(pool.infos), old(pool.kids), proto, pool.infos, pool.kids, r)
              && (forall x: nat | x < |old(pool.kids)| ::
                    x < |pool.kids| && pool.kids[x] == Hang(old(pool.kids) + [[]], parent, place, r)[x])
              && (forall x: nat | x < |old(pool.infos)| :: x < |pool.infos| && pool.infos[x] == old(pool.infos)[x])
  {
    if !AllowInsertChild(pool.KindOf(parent), pool.KindOf(proto)) { return NULL; }
    if (place.Before? || place.After?) && (place.sibling == NULL || pool.links[place.sibling].parent != parent) { return NULL; }
    AddressedFits(pool.links, pool.kids, parent, place);
    hide Wired, Acyclic, AllProper, Fits, Without, IsCopy, SameTree, SameShape, LinkedIn, OnlyBelow, Hang, Tall;
    ghost var ns0, infos0, kids0 := pool.links, pool.infos, pool.kids;
    r := pool.Attach(pool.infos[proto].kind, parent, place);
    ghost var links1, infos1, kids1 := pool.links, pool.infos, pool.kids;
    NewIsLeaf(kids0, parent, place, r);
    ghost var m := NodeCopyTree(pool, r, proto);
    CopyOfBefore(ns0, infos0, kids0, parent, place, infos1, kids1, proto, m, pool.infos, pool.kids);
    CopyRoot(infos1, kids1, proto, r, m, pool.infos, pool.kids);
    ShapeGivesTree(infos0, kids0, m, pool.infos, pool.kids, proto);
    CopyFrame(ns0, infos0, kids0, parent, place, links1, infos1, kids1, pool.links, pool.infos, pool.kids);
  }

  lemma CopyFrame(ns0: Arena, infos0: seq<Info>, kids0: Kids, n: nat, place: Place, ns1: Arena, infos1: seq<Info>,
                  kids1: Kids, ns: Arena, infos: seq<Info>, kids: Kids)
    requires Wired(ns0, kids0) && |infos0| == |ns0| && n < |ns0| && Fits(kids0[n], place)
    requires kids1 == Hang(kids0 + [[]], n, place, |ns0|) && |infos1| == |infos0| + 1 && infos0 == infos1[..|infos0|]
    requires OnlyBelow(ns1, infos1, kids1, |ns0|, ns, infos, kids)
    ensures |ns0| < |kids|
    ensures forall x: nat | x < |kids0| :: x < |kids| && kids[x] == Hang(kids0 + [[]], n, place, |ns0|)[x]
    ensures forall x: nat | x < |infos0| :: x < |infos| && infos[x] == infos0[x]
  {
  }

  lemma NewIsLeaf(kids0: Kids, n: nat, place: Place, x: nat)
    requires n < |kids0| && x == |kids0| && Fits(kids0[n], place)
    ensures (kids0 + [[]])[n] == kids0[n] && Hang(kids0 + [[]], n, place, x)[x] == []
  {
  }

  lemma CopyRoot(infos0: seq<Info>, kids0: Kids, sn: nat, dn: nat, m: map<nat, nat>, infos: seq<Info>, kids: Kids)
    requires IsCopy(infos0, kids0, sn, dn, m, infos, kids)
    ensures sn in m && m[sn] == dn
  {
  }

  // ----- the documents of a pool -----

  lemma {:induction false} HomeAbove(ns: Arena, kids: Kids, infos: seq<Info>, height: seq<nat>, top: nat, x: nat)
    requires Wired(ns, kids) && Climbs(ns, height) && AllProper(ns, infos) && x < |ns|
    requires forall c: nat | c < |ns| :: height[c] <= top
    ensures infos[x].home < |ns| && IsAbove(ns, infos[x].home, x) && infos[infos[x].home].kind.Document?
    decreases top - height[x]
  {
    assert Proper(ns, infos, x);
    AboveStep(ns, infos[x].home, x);
    if !infos[x].kind.Document? { HomeAbove(ns, kids, infos, height, top, ns[x].parent); }
  }

  lemma {:induction false} AboveIsHome(ns: Arena, infos: seq<Info>, d: nat, x: nat, k: nat)
    requires AllProper(ns, infos) && d < |ns| && x < |ns| && ParentChain(ns, x, d, k) && infos[d].kind.Document?
    ensures infos[x].home == d
    decreases k
  {
    assert Proper(ns, infos, x) && Proper(ns, infos, d);
    if k > 0 && !infos[x].kind.Document? { AboveIsHome(ns, infos, d, ns[x].parent, k - 1); }
  }

  /**
    In a valid pool every document is a tree for the XPath axes and for the document order, with exactly the
    nodes allocated in it.
   */
  lemma DocumentsAreTrees(ns: Arena, kids: Kids, infos: seq<Info>, height: seq<nat>, d: nat)
    requires Wired(ns, kids) && Climbs(ns, height) && AllProper(ns, infos) && d < |ns| && infos[d].kind.Document?
    ensures Tall(kids, height) && IsTree(ns, TreeOf(kids, height, d)) && TreeOf(kids, height, d).id == d
    ensures forall x: nat | x < |ns| :: x in Ids(TreeOf(kids, height, d)) <==> infos[x].home == d
  {
    hide Linked, Separate, Ids, Grow, IsTree, Tall, TreeOf;
    assert Proper(ns, infos, d);
    DocumentIsTree(ns, kids, height, d);
    var top := Highest(height);
    forall x: nat | x < |ns| ensures IsAbove(ns, d, x) <==> infos[x].home == d {
      forall c: nat | c < |ns| ensures height[c] <= top { assert height[c] in height; }
      HomeAbove(ns, kids, infos, height, top, x);
      if IsAbove(ns, d, x) {
        var k := ChainOf(ns, d, x);
        AboveIsHome(ns, infos, d, x, k);
      }
    }
  }
}
