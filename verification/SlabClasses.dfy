/**
  What the chunk layer of Memory/ncx_slab.c does to the descriptor of a page that is cut into chunks: it changes
  its bitmap, puts it on the list of its size class or takes it off.  All of it keeps the pages in order.
*/
module SlabClasses {
  import opened Common
  import opened SlabLists
  import opened SlabPages

  /** A page that is cut into chunks. */
  ghost predicate IsSlab(m: Memory, L: Layout, x: nat) {
    Inv(m, L) && x < |m.pages| == |L.use| == |L.size| && L.use[x] == Slab && L.size[x] == 1
  }

  lemma SlabIsOnePage(m: Memory, L: Layout, x: nat)
    requires Inv(m, L) && x < |m.pages| && |L.use| == |m.pages| && L.use[x] == Slab
    ensures IsSlab(m, L, x) && m.pages[x].slab > 0
  {
    hide Chain;
    DescribedAt(m, L, x);
  }

  // ----- another bitmap -----

  lemma SetSlabKeepsInv(m: Memory, L: Layout, x: nat, slab: nat)
    requires IsSlab(m, L, x) && slab > 0
    ensures Inv(SetSlab(m, x, slab), L)
  {
    hide Inv, Chain, Tiled, Listed;
    var m' := SetSlab(m, x, slab);
    ListsExist(m, L);
    InvParts(m, L, 0);
    forall k: nat | k < |L.lists| ensures Chain(m', k, L.lists[k], L.tags[k]) {
      InvParts(m, L, k);
      ChainFrame(m, m', k, L.lists[k], L.tags[k]);
    }
    forall i: nat | i < |m'.pages| ensures Described(m', L, i) {
      DescribedAt(m, L, i);
    }
    ItIsInv(m', L);
  }

  // ----- off the list -----

  /** `page->next = NULL; page->prev = type`, after the page was unlinked. */
  function TakenOff(m: Memory, x: nat, tag: nat): (m': Memory)
    requires x < |m.pages| && Valid(m, m.pages[x].prev) && Valid(m, m.pages[x].next)
    ensures |m'.heads| == |m.heads| && |m'.pages| == |m.pages|
  {
    SetPrev(SetNext(Unlinked(m, x), Page(x), Null), Page(x), Null, tag)
  }

  ghost function OffList(L: Layout, k: nat, x: nat): Layout
    requires k < |L.lists|
  {
    L.(lists := L.lists[k := Drop(L.lists[k], x)])
  }

  lemma SameTiles(L: Layout, L': Layout)
    requires Tiled(L) && L'.size == L.size && L'.use == L.use
    ensures Tiled(L')
  {
    forall i: nat | i < |L'.size| && L'.size[i] > 0 ensures Run(L', i) {
      RunAt(L, i);
      assert Run(L, i);
    }
  }

  lemma OffListed(L: Layout, k: nat, x: nat)
    requires Listed(L) && k < |L.lists| && Distinct(L.lists[k])
    ensures Listed(OffList(L, k, x))
  {
    hide Drop, Listed, Distinct;
    var L' := OffList(L, k, x);
    ListedAt(L, k);
    DropIs(L.lists[k], x);
    forall j: nat | j < |L'.lists| ensures RightUse(L', j) { ListedAt(L, j); }
    ListedFrom(L, L');
  }

  lemma TakenOffKeepsInv(m: Memory, L: Layout, k: nat, x: nat)
    requires IsSlab(m, L, x) && 0 < k < |L.lists| == |L.tags| && x in L.lists[k]
    ensures Valid(m, m.pages[x].prev) && Valid(m, m.pages[x].next)
    ensures Inv(TakenOff(m, x, L.tags[k]), OffList(L, k, x))
    ensures forall j: nat | j < |m.pages| :: TakenOff(m, x, L.tags[k]).pages[j].slab == m.pages[j].slab
    ensures forall j: nat | j < |m.pages| :: TakenOff(m, x, L.tags[k]).pages[j].tag == m.pages[j].tag
  {
    hide Inv, Chain, Tiled, Listed, Distinct, Drop, Unlinked, Described;
    var l, tag := L.lists[k], L.tags[k];
    InvParts(m, L, k);
    var i: nat :| i < |l| && l[i] == x;
    ChainAt(m, k, l, tag, i);
    ChainUnlinked(m, k, l, tag, i);
    UnlinkedTags(m, k, l, tag, i);
    DropIs(l, x);
    OffListed(L, k, x);
    var m1, m', L' := Unlinked(m, x), TakenOff(m, x, tag), OffList(L, k, x);
    forall j: nat | j < |L'.lists| ensures Chain(m', j, L'.lists[j], L'.tags[j]) {
      InvParts(m, L, j);
      if j == k {
        ChainFrame(m1, m', k, L'.lists[k], tag);
      } else {
        NotThere(L, j, k, x);
        OtherChain(m, L, m', L', j);
      }
    }
    ListedAt(L, k);
    forall j: nat | j < |m'.pages| ensures Described(m', L', j) {
      OffDescribed(m, L, k, x, m', j);
    }
    SameTiles(L, L');
    ItIsInv(m', L');
  }

  /** Unlinking changes no type. */
  lemma UnlinkedTags(m: Memory, k: nat, l: seq<nat>, tag: nat, i: nat)
    requires Chain(m, k, l, tag) && i < |l|
    ensures l[i] < |m.pages| && Valid(m, m.pages[l[i]].prev) && Valid(m, m.pages[l[i]].next)
    ensures forall j: nat | j < |m.pages| :: Unlinked(m, l[i]).pages[j].tag == m.pages[j].tag
  {
    ChainAt(m, k, l, tag, i);
    if i + 1 < |l| { ChainAt(m, k, l, tag, i + 1); }
    hide Chain;
  }

  lemma OffDescribed(m: Memory, L: Layout, k: nat, x: nat, m': Memory, j: nat)
    requires IsSlab(m, L, x) && 0 < k < |L.lists| && j < |m.pages| == |m'.pages| && x in L.lists[k] && k < |L.tags|
    requires m'.pages[x] == m.pages[x].(next := Null, prev := Null, tag := L.tags[k])
    requires m'.pages[j].slab == m.pages[j].slab && (j != x && j !in L.lists[k] ==> m'.pages[j] == m.pages[j])
    ensures Described(m', OffList(L, k, x), j)
  {
    hide Inv, Chain, Tiled, Drop, Distinct;
    InvParts(m, L, k);
    DropIs(L.lists[k], x);
    DescribedAt(m, L, j);
    if j != x {
      OtherDescribed(m, L, m', OffList(L, k, x), j);
    } else {
      ListedAt(L, k);
    }
  }

  // ----- onto the list -----

  ghost function OnList(L: Layout, k: nat, x: nat): Layout
    requires k < |L.lists|
  {
    L.(lists := L.lists[k := [x] + L.lists[k]])
  }

  ghost predicate Unlisted(L: Layout, x: nat) {
    forall k: nat | k < |L.lists| :: x !in L.lists[k]
  }

  lemma OnListed(L: Layout, k: nat, x: nat)
    requires Listed(L) && 0 < k < |L.lists| && Unlisted(L, x) && x < |L.size| == |L.use| && L.size[x] > 0 && L.use[x] == Slab
    ensures Listed(OnList(L, k, x))
  {
    hide Listed;
    var L' := OnList(L, k, x);
    ListedAt(L, 0);
    forall j: nat | j < |L'.lists| ensures RightUse(L', j) { ListedAt(L, j); }
    forall i: nat, j: nat, y: nat | i < j < |L'.lists| && y in L'.lists[i] ensures y !in L'.lists[j] {
      ListsDiffer(L, i, j, y);
    }
    ItIsListed(L, L');
  }

  lemma ListsDiffer(L: Layout, i: nat, j: nat, y: nat)
    requires Listed(L) && i < j < |L.lists|
    ensures y in L.lists[i] ==> y !in L.lists[j]
  {
  }

  lemma ItIsListed(L: Layout, L': Layout)
    requires Listed(L) && |L'.lists| == |L.lists| && L'.tags == L.tags && |L'.use| == |L'.size|
    requires forall k: nat | k < |L'.lists| :: RightUse(L', k)
    requires forall i: nat, j: nat, y: nat | i < j < |L'.lists| && y in L'.lists[i] :: y !in L'.lists[j]
    ensures Listed(L')
  {
    hide RightUse;
  }

  lemma PutOnKeepsInv(m: Memory, L: Layout, k: nat, x: nat)
    requires IsSlab(m, L, x) && 0 < k < |L.lists| && Unlisted(L, x)
    ensures k < |m.heads| && k < |L.tags| && Valid(m, m.heads[k].next)
    ensures Inv(Pushed(m, k, x, L.tags[k]), OnList(L, k, x))
    ensures forall j: nat | j < |m.pages| :: Pushed(m, k, x, L.tags[k]).pages[j].slab == m.pages[j].slab
    ensures forall j: nat | j < |m.pages| && j != x :: Pushed(m, k, x, L.tags[k]).pages[j].tag == m.pages[j].tag
    ensures Pushed(m, k, x, L.tags[k]).pages[x].tag == L.tags[k]
  {
    hide Inv, Chain, Tiled, Listed, Pushed, Described;
    InvParts(m, L, k);
    var l, tag := L.lists[k], L.tags[k];
    ChainHead(m, k, l, tag);
    ChainPushed(m, k, l, tag, x);
    PushedTags(m, k, l, tag, x);
    OnListed(L, k, x);
    var m', L' := Pushed(m, k, x, tag), OnList(L, k, x);
    forall j: nat | j < |L'.lists| ensures Chain(m', j, L'.lists[j], L'.tags[j]) {
      if j != k {
        InvParts(m, L, j);
        ListsApart(L, j, k);
        OtherChain(m, L, m', L', j);
      }
    }
    forall j: nat | j < |m'.pages| ensures Described(m', L', j) {
      OnDescribed(m, L, k, x, m', j);
    }
    SameTiles(L, L');
    ItIsInv(m', L');
  }

  lemma ListsApart(L: Layout, j: nat, k: nat)
    requires Listed(L) && j < |L.lists| && k < |L.lists| && j != k
    ensures forall y: nat | y in L.lists[j] :: y !in L.lists[k]
  {
  }

  lemma PushedTags(m: Memory, k: nat, l: seq<nat>, tag: nat, x: nat)
    requires Chain(m, k, l, tag) && x < |m.pages| && x !in l
    ensures k < |m.heads| && Valid(m, m.heads[k].next)
    ensures forall j: nat | j < |m.pages| && j != x :: Pushed(m, k, x, tag).pages[j].tag == m.pages[j].tag
    ensures Pushed(m, k, x, tag).pages[x].tag == tag
  {
    hide Pushed;
    if l != [] { ChainAt(m, k, l, tag, 0); }
    ChainHead(m, k, l, tag);
    PushedTouches(m, k, x, tag);
  }

  lemma OnDescribed(m: Memory, L: Layout, k: nat, x: nat, m': Memory, j: nat)
    requires IsSlab(m, L, x) && 0 < k < |L.lists| && Unlisted(L, x) && j < |m.pages| == |m'.pages|
    requires m'.pages[j].slab == m.pages[j].slab && (j != x && j !in L.lists[k] ==> m'.pages[j] == m.pages[j])
    ensures Described(m', OnList(L, k, x), j)
  {
    hide Inv, Chain, Tiled;
    InvParts(m, L, k);
    DescribedAt(m, L, j);
    var L' := OnList(L, k, x);
    if j != x {
      OtherDescribed(m, L, m', L', j);
    } else {
      assert x in L'.lists[k];
    }
  }

  // ----- a page of its own -----

  /** A whole page becomes the only page on the list of a class. */
  function MadeSlab(m: Memory, k: nat, x: nat, slab: nat, tag: nat): (m': Memory)
    requires k < |m.heads| && x < |m.pages|
    ensures |m'.heads| == |m.heads| && |m'.pages| == |m.pages|
  {
    SetNext(SetPrev(SetNext(SetSlab(m, x, slab), Page(x), Head(k)), Page(x), Head(k), tag), Head(k), Page(x))
  }

  ghost function NewSlab(L: Layout, k: nat, x: nat): Layout
    requires k < |L.lists| && x < |L.use|
  {
    L.(use := L.use[x := Slab], lists := L.lists[k := [x]])
  }

  lemma NewSlabTiled(L: Layout, k: nat, x: nat)
    requires Tiled(L) && k < |L.lists| && x < |L.use| && L.size[x] == 1
    ensures Tiled(NewSlab(L, k, x))
  {
    hide Run;
    var L' := NewSlab(L, k, x);
    forall i: nat | i < |L'.size| && L'.size[i] > 0 ensures Run(L', i) {
      RunAt(L, i);
      NewSlabRun(L, L', x, i);
    }
  }

  lemma NewSlabRun(L: Layout, L': Layout, x: nat, i: nat)
    requires |L.use| == |L.size| && i < |L.size| && Run(L, i) && x < |L.size| && L.size[x] == 1
    requires L'.size == L.size && L'.use == L.use[x := Slab]
    ensures Run(L', i)
  {
  }

  lemma NewSlabListed(L: Layout, k: nat, x: nat)
    requires Listed(L) && 0 < k < |L.lists| && x < |L.use| && L.size[x] == 1 && L.use[x] == Whole && L.lists[k] == []
    ensures Listed(NewSlab(L, k, x)) && Unlisted(L, x)
  {
    hide Listed;
    var L' := NewSlab(L, k, x);
    ListedAt(L, 0);
    forall j: nat | j < |L'.lists| ensures RightUse(L', j) && x !in L.lists[j] { ListedAt(L, j); }
    forall i: nat, j: nat, y: nat | i < j < |L'.lists| && y in L'.lists[i] ensures y !in L'.lists[j] {
      ListsDiffer(L, i, j, y);
    }
    ItIsListed(L, L');
  }

  lemma MadeSlabKeepsInv(m: Memory, L: Layout, k: nat, x: nat, slab: nat)
    requires Inv(m, L) && 0 < k < |L.lists| == |L.tags| && x < |m.pages| == |L.use| == |L.size| && slab > 0
    requires L.use[x] == Whole && L.size[x] == 1 && L.lists[k] == []
    ensures k < |m.heads| && Inv(MadeSlab(m, k, x, slab, L.tags[k]), NewSlab(L, k, x))
  {
    hide Inv, Chain, Tiled, Listed, Described;
    InvParts(m, L, k);
    var tag := L.tags[k];
    NewSlabTiled(L, k, x);
    NewSlabListed(L, k, x);
    var m', L' := MadeSlab(m, k, x, slab, tag), NewSlab(L, k, x);
    forall j: nat | j < |L'.lists| ensures Chain(m', j, L'.lists[j], L'.tags[j]) {
      if j == k {
        OneChain(m', k, x, tag);
      } else {
        InvParts(m, L, j);
        OtherChain(m, L, m', L', j);
      }
    }
    forall j: nat | j < |m'.pages| ensures Described(m', L', j) {
      NewDescribed(m, L, k, x, m', j);
    }
    ItIsInv(m', L');
  }

  lemma OneChain(m: Memory, k: nat, x: nat, tag: nat)
    requires k < |m.heads| && x < |m.pages| && m.heads[k].next == Page(x)
    requires m.pages[x].next == Head(k) && m.pages[x].prev == Head(k) && m.pages[x].tag == tag
    ensures Chain(m, k, [x], tag)
  {
  }

  lemma NewDescribed(m: Memory, L: Layout, k: nat, x: nat, m': Memory, j: nat)
    requires Inv(m, L) && 0 < k < |L.lists| && x < |m.pages| == |L.use| == |L.size| == |m'.pages| && j < |m.pages|
    requires L.size[x] == 1 && L.lists[k] == [] && m'.pages[x].slab > 0 && (j != x ==> m'.pages[j] == m.pages[j]) && Unlisted(L, x)
    ensures Described(m', NewSlab(L, k, x), j)
  {
    hide Inv, Chain, Tiled;
    InvParts(m, L, k);
    DescribedAt(m, L, j);
    var L' := NewSlab(L, k, x);
    if j != x {
      OtherDescribed(m, L, m', L', j);
    } else {
      assert x in L'.lists[k];
    }
  }
}
