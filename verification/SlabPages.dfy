/**
  The page layer of Memory/ncx_slab.c: runs of pages on a first-fit free list, split on allocation and, if the
  program is built with PAGE_MERGE, joined with free neighbours when freed.
*/
module SlabPages {
  import opened Common
  import opened SlabLists

  const START: nat := 0x8000_0000_0000_0000
  const BUSY: nat := 0xffff_ffff_ffff_ffff

  /** A page is free, part of a run of whole pages, or cut into chunks. */
  datatype Use = Free | Whole | Slab

  /**
    How the pages are divided: `size` is the length of the run that begins at a page, or 0 within a run.
    `lists[0]` is the free list, the others hold the slab pages with a free chunk of one size class.
   */
  datatype Layout = Layout(size: seq<nat>, use: seq<Use>, lists: seq<seq<nat>>, tags: seq<nat>)

  // ----- runs tile the pages -----

  ghost predicate Run(L: Layout, i: nat)
    requires |L.use| == |L.size| && i < |L.size|
  {
    && i + L.size[i] <= |L.size|
    && (forall j: nat | i < j < i + L.size[i] :: L.size[j] == 0 && L.use[j] == L.use[i])
    && (i + L.size[i] < |L.size| ==> L.size[i + L.size[i]] > 0)
  }

  ghost predicate Tiled(L: Layout) {
    && |L.use| == |L.size| > 0 && L.size[0] > 0
    && forall i: nat | i < |L.size| && L.size[i] > 0 :: Run(L, i)
  }

  /** The run a page belongs to. */
  lemma {:induction false} RunOf(L: Layout, j: nat) returns (h: nat)
    requires Tiled(L) && j < |L.size|
    ensures h <= j < h + L.size[h] <= |L.size| && L.use[j] == L.use[h]
    ensures forall i: nat | h < i <= j :: L.size[i] == 0
  {
    if L.size[j] > 0 {
      h := j;
      assert Run(L, h);
    } else {
      h := RunOf(L, j - 1);
      assert Run(L, h);
    }
  }

  lemma RunsApart(L: Layout, i: nat, k: nat)
    requires Tiled(L) && i < k < |L.size| && L.size[i] > 0 && L.size[k] > 0
    ensures i + L.size[i] <= k
  {
    assert Run(L, i);
  }

  // ----- descriptors -----

  /** The pages of list `k` begin runs of the right use. */
  ghost predicate RightUse(L: Layout, k: nat)
    requires |L.use| == |L.size| && k < |L.lists|
  {
    forall y: nat | y in L.lists[k] :: y < |L.size| && L.size[y] > 0 && L.use[y] == if k == 0 then Free else Slab
  }

  /** Who is on which list. */
  ghost predicate Listed(L: Layout) {
    && |L.lists| == |L.tags| > 0 && L.tags[0] == 0 && |L.use| == |L.size|
    && (forall k: nat | k < |L.lists| :: RightUse(L, k))
    && (forall j: nat, k: nat, x: nat | j < k < |L.lists| && x in L.lists[j] :: x !in L.lists[k])
    && (forall k: nat | 0 < k < |L.tags| :: L.tags[k] > 0)
  }

  /** The page is on one of the lists of a size class. */
  ghost predicate OnClassList(L: Layout, i: nat) {
    exists k: nat :: 0 < k < |L.lists| && i in L.lists[k]
  }

  ghost predicate Described(m: Memory, L: Layout, i: nat)
    requires |L.use| == |L.size| == |m.pages| && i < |m.pages| && |L.lists| > 0
  {
    var d := m.pages[i];
    if L.size[i] == 0 then L.use[i] != Slab && d == if L.use[i] == Free then ZERO else Desc(BUSY, Null, Null, 0)
    else match L.use[i]
      case Free => d.slab == L.size[i] && i in L.lists[0]
      case Whole => d == Desc(L.size[i] + START, Null, Null, 0)
      case Slab => L.size[i] == 1 && d.slab > 0 && (OnClassList(L, i) || (d.next == Null && d.prev == Null && d.tag > 0))
  }

  ghost predicate Chained(m: Memory, L: Layout) {
    |m.heads| == |L.lists| == |L.tags| && forall k: nat | k < |L.lists| :: Chain(m, k, L.lists[k], L.tags[k])
  }

  ghost predicate AllDescribed(m: Memory, L: Layout) {
    && |L.use| == |L.size| == |m.pages| && |L.lists| > 0
    && forall i: nat | i < |m.pages| :: Described(m, L, i)
  }

  ghost predicate Inv(m: Memory, L: Layout) {
    Tiled(L) && Listed(L) && Chained(m, L) && AllDescribed(m, L)
  }

  /** No two free runs are neighbours. */
  ghost predicate Merged(L: Layout)
    requires |L.use| == |L.size|
  {
    forall i: nat | i < |L.size| && L.size[i] > 0 && L.use[i] == Free && i + L.size[i] < |L.size| ::
      L.use[i + L.size[i]] != Free
  }

  // ----- the three changes of the layout -----

  ghost function Fill(use: seq<Use>, from: nat, to: nat, u: Use): (r: seq<Use>)
    requires from <= to <= |use|
    ensures |r| == |use| && forall j: nat | j < |use| :: r[j] == if from <= j < to then u else use[j]
  {
    use[..from] + seq(to - from, _ => u) + use[to..]
  }

  /** Place `i` of the free list holds a run that is long enough. */
  ghost predicate Fitting(L: Layout, i: nat, pages: nat) {
    && Tiled(L) && Listed(L) && i < |L.lists[0]| && pages > 0
    && var x := L.lists[0][i]; x < |L.size| && pages <= L.size[x] && L.use[x] == Free && Run(L, x)
  }

  /** The first `pages` pages of the free run at place `i` of the free list become a run of whole pages. */
  ghost function Carved(L: Layout, i: nat, pages: nat): Layout
    requires Fitting(L, i, pages)
  {
    var x := L.lists[0][i];
    var rest: nat, y: nat := L.size[x] - pages, x + pages;
    var free: seq<nat> := if rest == 0 then Cut(L.lists[0], i) else L.lists[0][i := y];
    if rest == 0 then L.(use := Fill(L.use, x, x + pages, Whole), lists := L.lists[0 := free])
    else L.(size := L.size[x := pages][y := rest], use := Fill(L.use, x, x + pages, Whole),
            lists := L.lists[0 := free])
  }

  lemma CarvedTiled(L: Layout, i: nat, pages: nat)
    requires Fitting(L, i, pages)
    ensures Tiled(Carved(L, i, pages))
  {
    hide Tiled, Listed, Fitting, Run, Carved;
    CarvedIs(L, i, pages);
    var L' := Carved(L, i, pages);
    forall h: nat | h < |L'.size| && L'.size[h] > 0 ensures Run(L', h) {
      CarvedRun(L, i, pages, h);
    }
    ItIsTiled(L');
  }

  lemma ItIsTiled(L: Layout)
    requires |L.use| == |L.size| > 0 && L.size[0] > 0
    requires forall i: nat | i < |L.size| && L.size[i] > 0 :: Run(L, i)
    ensures Tiled(L)
  {
  }

  lemma CarvedIs(L: Layout, i: nat, pages: nat)
    requires Fitting(L, i, pages)
    ensures |L.lists| > 0 && i < |L.lists[0]|
    ensures var x, L' := L.lists[0][i], Carved(L, i, pages);
            && Tiled(L) && |L'.use| == |L'.size| == |L.size| == |L.use| > 0 && x + L.size[x] <= |L.size| && L'.size[0] > 0
            && Run(L, x) && 0 < pages <= L.size[x] && L.use[x] == Free && Listed(L)
            && L'.tags == L.tags && |L'.lists| == |L.lists| && Parts(L, L', x, pages)
  {
  }

  lemma CarvedRun(L: Layout, i: nat, pages: nat, h: nat)
    requires Fitting(L, i, pages)
    requires var L' := Carved(L, i, pages); h < |L'.size| == |L'.use| && L'.size[h] > 0
    ensures Run(Carved(L, i, pages), h)
  {
    hide Tiled, Listed, Fitting, Carved, Run;
    CarvedIs(L, i, pages);
    var x := L.lists[0][i];
    var L' := Carved(L, i, pages);
    if h != x && !(h == x + pages && pages < L.size[x]) {
      assert L.size[h] == L'.size[h];
      hide Parts;
      RunAt(L, h);
      if h < x { RunsApart(L, h, x); } else { RunsApart(L, x, h); }
      CarvedOther(L, L', x, pages, h);
    } else {
      hide Parts;
      CarvedParts(L, L', x, pages);
    }
  }

  /** What carving does to sizes and uses. */
  ghost predicate Parts(L: Layout, L': Layout, x: nat, pages: nat) {
    && |L'.use| == |L'.size| == |L.size| == |L.use| && x < |L.size| && 0 < pages <= L.size[x] && x + L.size[x] <= |L.size|
    && (forall j: nat | j < |L.size| && j != x && j != x + pages :: L'.size[j] == L.size[j])
    && L'.size[x] == pages
    && (x + pages < |L.size| ==>
          L'.size[x + pages] == if pages < L.size[x] then L.size[x] - pages else L.size[x + pages])
    && (forall j: nat | j < |L.size| :: L'.use[j] == if x <= j < x + pages then Whole else L.use[j])
  }

  lemma CarvedOther(L: Layout, L': Layout, x: nat, pages: nat, h: nat)
    requires Parts(L, L', x, pages) && Run(L, x) && h < |L.size| && h != x && L.size[h] > 0 && Run(L, h)
    requires if h < x then h + L.size[h] <= x else x + L.size[x] <= h
    ensures L'.size[h] > 0 && Run(L', h)
  {
    assert L'.size[h] == L.size[h];
  }

  lemma CarvedParts(L: Layout, L': Layout, x: nat, pages: nat)
    requires Parts(L, L', x, pages) && Run(L, x)
    ensures Run(L', x) && (pages < L.size[x] ==> Run(L', x + pages))
  {
  }

  lemma RunAt(L: Layout, i: nat)
    requires Tiled(L) && i < |L.size| && L.size[i] > 0
    ensures |L.use| == |L.size| && Run(L, i)
  {
  }

  lemma CarvedListed(L: Layout, i: nat, pages: nat)
    requires Fitting(L, i, pages) && Distinct(L.lists[0])
    ensures Listed(Carved(L, i, pages))
  {
    var l, x, L' := L.lists[0], L.lists[0][i], Carved(L, i, pages);
    hide Tiled, Fitting, Carved, Distinct, Run, Listed;
    CarvedIs(L, i, pages);
    CarvedFree(L, i, pages);
    forall k: nat | k < |L'.lists| ensures RightUse(L', k) {
      ListedAt(L, k);
      forall y: nat | y in L'.lists[k] && y in L.lists[k] && y != x ensures y + L.size[y] <= x || x + L.size[x] <= y {
        if y < x { RunsApart(L, y, x); } else { RunsApart(L, x, y); }
      }
    }
    ListedFrom(L, L');
  }

  lemma ListedFrom(L: Layout, L': Layout)
    requires Listed(L) && |L'.lists| == |L.lists| && L'.tags == L.tags && |L'.use| == |L'.size|
    requires forall k: nat | 0 < k < |L.lists| :: forall y: nat | y in L'.lists[k] :: y in L.lists[k]
    requires forall k: nat | k < |L'.lists| :: RightUse(L', k)
    ensures Listed(L')
  {
    forall k: nat, x: nat | k < |L'.lists| && x in L'.lists[k]
      ensures x < |L'.size| && L'.size[x] > 0 && L'.use[x] == if k == 0 then Free else Slab
    {
      assert RightUse(L', k);
    }
    forall j: nat, k: nat, y: nat | j < k < |L'.lists| && y in L'.lists[j] ensures y !in L'.lists[k] {
      assert RightUse(L', j) && RightUse(L', k);
      if j > 0 { assert y in L.lists[j]; }
    }
  }

  lemma CarvedFree(L: Layout, i: nat, pages: nat)
    requires Fitting(L, i, pages) && Distinct(L.lists[0])
    ensures var x, L' := L.lists[0][i], Carved(L, i, pages);
            && (forall k: nat | 0 < k < |L.lists| :: L'.lists[k] == L.lists[k])
            && L'.lists[0] == (if pages < L.size[x] then L.lists[0][i := x + pages] else Cut(L.lists[0], i))
            && (forall y: nat :: y in L'.lists[0] <==> (y in L.lists[0] && y != x) || (y == x + pages && pages < L.size[x]))
  {
    hide Tiled, Run;
    var l, x := L.lists[0], L.lists[0][i];
    CutIs(l, i);
    if pages < L.size[x] {
      var r := l[i := x + pages];
      assert r[i] == x + pages;
      forall y: nat | y in l && y != x ensures y in r {
        var j: nat :| j < |l| && l[j] == y;
        assert r[j] == y;
      }
    }
  }

  ghost function Drop(l: seq<nat>, x: nat): (r: seq<nat>)
  {
    if x in l then
      var i: nat :| i < |l| && l[i] == x;
      Cut(l, i)
    else l
  }

  lemma DropIs(l: seq<nat>, x: nat)
    requires Distinct(l)
    ensures Distinct(Drop(l, x)) && forall y: nat :: y in Drop(l, x) <==> y in l && y != x
    ensures forall i: nat | i < |l| && l[i] == x :: Drop(l, x) == Cut(l, i)
  {
    if x in l {
      var i: nat :| i < |l| && l[i] == x && Drop(l, x) == Cut(l, i);
      CutIs(l, i);
    }
  }

  /** The run at `x` becomes free. */
  ghost function Released(L: Layout, x: nat): Layout
    requires |L.use| == |L.size| && x < |L.size| && x + L.size[x] <= |L.size| && |L.lists| > 0
  {
    L.(use := Fill(L.use, x, x + L.size[x], Free),
       lists := seq(|L.lists|, k requires 0 <= k < |L.lists| => if k == 0 then [x] + L.lists[0] else Drop(L.lists[k], x)))
  }

  lemma ReleasedTiled(L: Layout, x: nat)
    requires Tiled(L) && |L.lists| > 0 && x < |L.size| && L.size[x] > 0
    ensures x + L.size[x] <= |L.size| && Tiled(Released(L, x))
  {
    RunAt(L, x);
    var L' := Released(L, x);
    forall h: nat | h < |L'.size| && L'.size[h] > 0 ensures Run(L', h) {
      ReleasedRun(L, x, h);
    }
  }

  lemma ReleasedRun(L: Layout, x: nat, h: nat)
    requires Tiled(L) && |L.lists| > 0 && x < |L.size| && L.size[x] > 0 && x + L.size[x] <= |L.size|
    requires h < |L.size| && L.size[h] > 0
    ensures Run(Released(L, x), h)
  {
    hide Tiled;
    RunAt(L, x);
    RunAt(L, h);
    if h < x { RunsApart(L, h, x); } else if x < h { RunsApart(L, x, h); }
  }

  lemma ReleasedListed(L: Layout, x: nat)
    requires Tiled(L) && Listed(L) && x < |L.size| && L.size[x] > 0 && L.use[x] != Free && x + L.size[x] <= |L.size|
    requires forall k: nat | k < |L.lists| :: Distinct(L.lists[k])
    ensures Listed(Released(L, x))
  {
    var L' := Released(L, x);
    hide Tiled, Run, Drop, Listed, Distinct, RightUse;
    ListedAt(L, 0);
    forall k: nat | k < |L'.lists| ensures RightUse(L', k) && (k > 0 ==> forall y: nat | y in L'.lists[k] :: y in L.lists[k]) {
      ReleasedUse(L, x, k);
    }
    ListedFrom(L, L');
  }

  lemma ReleasedUse(L: Layout, x: nat, k: nat)
    requires Tiled(L) && Listed(L) && x < |L.size| && L.size[x] > 0 && L.use[x] != Free && x + L.size[x] <= |L.size|
    requires k < |L.lists| && Distinct(L.lists[k])
    ensures var L' := Released(L, x); RightUse(L', k) && (k > 0 ==> forall y: nat | y in L'.lists[k] :: y in L.lists[k])
  {
    var L' := Released(L, x);
    hide Tiled, Run, Drop, Listed, Distinct;
    RunAt(L, x);
    DropIs(L.lists[k], x);
    ListedAt(L, k);
    forall y: nat | y in L'.lists[k] && y in L.lists[k] && y != x ensures y + L.size[y] <= x || x + L.size[x] <= y {
      if y < x { RunsApart(L, y, x); } else { RunsApart(L, x, y); }
    }
  }

  /** The free run at `b`, which begins where the one at `a` ends, becomes part of it. */
  ghost function Joined(L: Layout, a: nat, b: nat): Layout
    requires a < |L.size| && b < |L.size| && |L.lists| > 0
  {
    var both: nat := L.size[a] + L.size[b];
    L.(size := L.size[b := 0][a := both], lists := L.lists[0 := Drop(L.lists[0], b)])
  }

  /** Two free runs that are neighbours. */
  ghost predicate Neighbours(L: Layout, a: nat, b: nat) {
    && |L.use| == |L.size| && a < |L.size| && b < |L.size| && L.size[a] > 0 && L.size[b] > 0 && b == a + L.size[a]
    && L.use[a] == Free && L.use[b] == Free
  }

  lemma JoinedTiled(L: Layout, a: nat, b: nat)
    requires Tiled(L) && |L.lists| > 0 && Neighbours(L, a, b)
    ensures Tiled(Joined(L, a, b))
  {
    var L' := Joined(L, a, b);
    forall h: nat | h < |L'.size| && L'.size[h] > 0 ensures Run(L', h) {
      JoinedRun(L, a, b, h);
    }
  }

  lemma JoinedRun(L: Layout, a: nat, b: nat, h: nat)
    requires Tiled(L) && |L.lists| > 0 && Neighbours(L, a, b) && h < |L.size| && h != b && L.size[h] > 0
    ensures Run(Joined(L, a, b), h)
  {
    hide Tiled, Drop;
    RunAt(L, a);
    RunAt(L, b);
    RunAt(L, h);
    if h < a { RunsApart(L, h, a); } else if b < h { RunsApart(L, b, h); }
  }

  lemma JoinedListed(L: Layout, a: nat, b: nat)
    requires Tiled(L) && Listed(L) && Neighbours(L, a, b) && Distinct(L.lists[0])
    ensures Listed(Joined(L, a, b))
  {
    var L', l := Joined(L, a, b), L.lists[0];
    hide Tiled, Drop, Listed, Distinct;
    DropIs(l, b);
    forall k: nat | k < |L'.lists| ensures RightUse(L', k) { ListedAt(L, k); }
    ListedFrom(L, L');
  }

  // ----- free runs that are neighbours -----

  /** Only the run at `a` may have a free run behind it. */
  ghost predicate AlmostMerged(L: Layout, a: nat)
    requires |L.use| == |L.size|
  {
    forall i: nat | i < |L.size| && i != a && L.size[i] > 0 && L.use[i] == Free && i + L.size[i] < |L.size| ::
      L.use[i + L.size[i]] != Free
  }

  lemma LastOfRun(L: Layout, i: nat)
    requires Tiled(L) && i < |L.size| && L.size[i] > 0
    ensures i + L.size[i] <= |L.size| && L.use[i + L.size[i] - 1] == L.use[i]
  {
    RunAt(L, i);
  }

  lemma ReleasedAlmostMerged(L: Layout, x: nat)
    requires Tiled(L) && |L.lists| > 0 && |L.use| == |L.size| && x < |L.size| && L.size[x] > 0 && x + L.size[x] <= |L.size|
    requires Merged(L) && (x == 0 || L.use[x - 1] != Free)
    ensures AlmostMerged(Released(L, x), x)
  {
    hide Drop, Tiled, Run;
    var L' := Released(L, x);
    forall i: nat | i < |L'.size| && i != x && L'.size[i] > 0 && L'.use[i] == Free && i + L'.size[i] < |L'.size|
      ensures L'.use[i + L'.size[i]] != Free
    {
      LastOfRun(L, i);
      if i < x { RunsApart(L, i, x); } else { RunsApart(L, x, i); }
    }
  }

  lemma JoinedAlmostMerged(L: Layout, h: nat, x: nat)
    requires Tiled(L) && |L.lists| > 0 && x < |L.size| && L.size[x] > 0 && x + L.size[x] <= |L.size| && Merged(L)
    requires h < x && L.size[h] > 0 && L.use[h] == Free && h + L.size[h] == x && L.use[x] != Free
    ensures AlmostMerged(Joined(Released(L, x), h, x), h)
  {
    hide Drop;
    var L' := Joined(Released(L, x), h, x);
    forall i: nat | i < |L'.size| && i != h && L'.size[i] > 0 && L'.use[i] == Free && i + L'.size[i] < |L'.size|
      ensures L'.use[i + L'.size[i]] != Free
    {
      RunAt(L, i);
      if i < h { RunsApart(L, i, h); } else { RunsApart(L, h, i); RunsApart(L, x, i); }
    }
  }

  lemma JoinedMerged(L: Layout, a: nat, b: nat)
    requires Tiled(L) && |L.lists| > 0 && Neighbours(L, a, b) && AlmostMerged(L, a)
    ensures Merged(Joined(L, a, b))
  {
    hide Drop;
    var L' := Joined(L, a, b);
    forall i: nat | i < |L'.size| && L'.size[i] > 0 && L'.use[i] == Free && i + L'.size[i] < |L'.size|
      ensures L'.use[i + L'.size[i]] != Free
    {
      RunAt(L, i);
    }
  }

  // ----- the descriptors follow -----

  function SetSlab(m: Memory, i: nat, slab: nat): Memory
    requires i < |m.pages|
  {
    Put(m, Page(i), m.pages[i].(slab := slab))
  }

  /** The pages from `from` up to `to` are given one descriptor. */
  ghost function Marked(m: Memory, from: nat, to: nat, d: Desc): (m': Memory)
    requires from <= to <= |m.pages|
    ensures m'.heads == m.heads && |m'.pages| == |m.pages|
    ensures forall j: nat | j < |m.pages| :: m'.pages[j] == if from <= j < to then d else m.pages[j]
  {
    m.(pages := m.pages[..from] + seq(to - from, _ => d) + m.pages[to..])
  }

  /** A page that an operation has nothing to do with. */
  lemma OtherDescribed(m: Memory, L: Layout, m': Memory, L': Layout, i: nat)
    requires |L.use| == |L.size| == |m.pages| && i < |m.pages| && |L.lists| > 0 && Described(m, L, i) && Listed(L)
    requires |L'.use| == |L'.size| == |m'.pages| == |m.pages| && |L'.lists| == |L.lists|
    requires L'.size[i] == L.size[i] && L'.use[i] == L.use[i] && m'.pages[i].slab == m.pages[i].slab
    requires forall k: nat | k < |L.lists| :: i in L.lists[k] <==> i in L'.lists[k]
    requires (forall k: nat | k < |L.lists| :: i !in L.lists[k]) ==> m'.pages[i] == m.pages[i]
    ensures Described(m', L', i)
  {
    if k: nat :| k < |L.lists| && i in L.lists[k] {
      assert RightUse(L, k);
    }
    if L.use[i] == Slab && OnClassList(L, i) {
      var k: nat :| 0 < k < |L.lists| && i in L.lists[k];
      assert i in L'.lists[k];
    }
  }

  lemma InvParts(m: Memory, L: Layout, k: nat)
    requires Inv(m, L) && k < |L.lists|
    ensures Tiled(L) && Listed(L) && |L.use| == |L.size| == |m.pages| > 0 && |m.heads| == |L.lists| == |L.tags|
    ensures Chain(m, k, L.lists[k], L.tags[k]) && Distinct(L.lists[k]) && L.tags[0] == 0
  {
    ChainHead(m, k, L.lists[k], L.tags[k]);
  }

  lemma DescribedAt(m: Memory, L: Layout, i: nat)
    requires Inv(m, L) && i < |m.pages|
    ensures |L.use| == |L.size| == |m.pages| && |L.lists| > 0 && Described(m, L, i)
  {
  }

  lemma ItIsInv(m: Memory, L: Layout)
    requires Tiled(L) && Listed(L) && |m.heads| == |L.lists| == |L.tags| && |L.use| == |L.size| == |m.pages|
    requires forall k: nat | k < |L.lists| :: Chain(m, k, L.lists[k], L.tags[k])
    requires forall i: nat | i < |m.pages| :: Described(m, L, i)
    ensures Inv(m, L)
  {
  }

  /** Chains of other lists stay, if their pages do. */
  lemma OtherChain(m: Memory, L: Layout, m': Memory, L': Layout, k: nat)
    requires k < |L.lists| == |L'.lists| == |L.tags| && L'.tags == L.tags && L'.lists[k] == L.lists[k]
    requires Chain(m, k, L.lists[k], L.tags[k])
    requires k < |m.heads| == |m'.heads| && m'.heads[k] == m.heads[k] && |m'.pages| == |m.pages|
    requires forall j: nat | j < |m.pages| && j in L.lists[k] :: m'.pages[j] == m.pages[j]
    ensures Chain(m', k, L'.lists[k], L'.tags[k])
  {
    ChainFrame(m, m', k, L.lists[k], L.tags[k]);
  }

  /** Pages that are cut into chunks keep what describes the chunks. */
  ghost predicate SlabsKept(m: Memory, m': Memory, L': Layout) {
    && |m'.pages| == |m.pages| == |L'.use|
    && forall j: nat | j < |m.pages| && L'.use[j] == Slab ::
         m'.pages[j].slab == m.pages[j].slab && m'.pages[j].tag == m.pages[j].tag
  }

  // allocation

  /** The free list after `ncx_slab_alloc_pages` took the run at place `i` out, or left its rest there. */
  ghost function CarvedLinks(m: Memory, x: nat, n: nat, pages: nat): Memory
    requires x + n <= |m.pages| && 0 < pages <= n && Valid(m, m.pages[x].prev) && Valid(m, m.pages[x].next)
  {
    if pages < n then Swapped(SetSlab(m, x + pages, n - pages), x, x + pages) else Unlinked(m, x)
  }

  ghost function CarvedMemory(m: Memory, x: nat, n: nat, pages: nat): Memory
    requires x + n <= |m.pages| && 0 < pages <= n && Valid(m, m.pages[x].prev) && Valid(m, m.pages[x].next)
    requires |CarvedLinks(m, x, n, pages).pages| == |m.pages|
  {
    Marked(Marked(CarvedLinks(m, x, n, pages), x, x + 1, Desc(pages + START, Null, Null, 0)),
           x + 1, x + pages, Desc(BUSY, Null, Null, 0))
  }

  lemma CarvedChain(m: Memory, L: Layout, i: nat, pages: nat)
    requires Inv(m, L) && Fitting(L, i, pages)
    ensures var x, n, L' := L.lists[0][i], L.size[L.lists[0][i]], Carved(L, i, pages);
            && x + n <= |m.pages| && Valid(m, m.pages[x].prev) && Valid(m, m.pages[x].next)
            && var m1 := CarvedLinks(m, x, n, pages);
               && Chain(m1, 0, L'.lists[0], 0) && |m1.heads| == |m.heads| && |m1.pages| == |m.pages|
               && (forall j: nat | 0 < j < |m.heads| :: m1.heads[j] == m.heads[j])
               && (forall j: nat | j < |m.pages| && j !in L'.lists[0] :: m1.pages[j] == m.pages[j])
               && (forall j: nat | j < |m.pages| :: m1.pages[j].slab == if pages < n && j == x + pages then n - pages else m.pages[j].slab)
  {
    hide Inv, Chain, Unlinked, Swapped, Distinct, Tiled, Listed, Cut, Carved, Fitting, Run, Parts, Valid, SetSlab, RightUse, Fill, CarvedLinks;
    CarvedFirst(L, i, pages);
    InvParts(m, L, 0);
    var x := L.lists[0][i];
    if pages < L.size[x] { NotAHead(L, x, x + pages); }
    LinksCarved(m, L.lists[0], i, x, L.size[x], pages);
  }

  lemma LinksCarved(m: Memory, l: seq<nat>, i: nat, x: nat, n: nat, pages: nat)
    requires Chain(m, 0, l, 0) && i < |l| && l[i] == x && 0 < pages <= n && x + n <= |m.pages| && (pages < n ==> x + pages !in l)
    ensures Valid(m, m.pages[x].prev) && Valid(m, m.pages[x].next)
    ensures var l', m1 := if pages < n then l[i := x + pages] else Cut(l, i), CarvedLinks(m, x, n, pages);
            && Chain(m1, 0, l', 0) && |m1.heads| == |m.heads| && |m1.pages| == |m.pages|
            && (forall j: nat | 0 < j < |m.heads| :: m1.heads[j] == m.heads[j])
            && (forall j: nat | j < |m.pages| && j !in l' :: m1.pages[j] == m.pages[j])
            && (forall j: nat | j < |m.pages| :: m1.pages[j].slab == if pages < n && j == x + pages then n - pages else m.pages[j].slab)
  {
    hide Chain, Unlinked, Swapped, Cut, Valid, SetSlab;
    if pages < n { SplitChain(m, l, i, n, pages); } else { WholeChain(m, l, i); }
  }

  lemma WholeChain(m: Memory, l: seq<nat>, i: nat)
    requires Chain(m, 0, l, 0) && i < |l|
    ensures l[i] < |m.pages| && Valid(m, m.pages[l[i]].prev) && Valid(m, m.pages[l[i]].next)
    ensures var m1 := Unlinked(m, l[i]);
            && Chain(m1, 0, Cut(l, i), 0) && |m1.heads| == |m.heads| && |m1.pages| == |m.pages|
            && (forall j: nat | 0 < j < |m.heads| :: m1.heads[j] == m.heads[j])
            && (forall j: nat | j < |m.pages| && j !in Cut(l, i) :: m1.pages[j] == m.pages[j])
            && (forall j: nat | j < |m.pages| :: m1.pages[j].slab == m.pages[j].slab)
  {
    hide Chain, Unlinked, Cut;
    ChainUnlinked(m, 0, l, 0, i);
  }

  lemma CarvedFirst(L: Layout, i: nat, pages: nat)
    requires Fitting(L, i, pages)
    ensures |L.lists| > 0 && i < |L.lists[0]| && Listed(L) && Tiled(L)
    ensures var l, x, L' := L.lists[0], L.lists[0][i], Carved(L, i, pages);
            && x < |L.size| && x + L.size[x] <= |L.size| && 0 < pages <= L.size[x] && |L'.lists| > 0
            && L'.lists[0] == if pages < L.size[x] then l[i := x + pages] else Cut(l, i)
  {
    hide Tiled, Listed, Cut;
    CarvedIs(L, i, pages);
    hide Parts;
  }

  lemma SplitChain(m: Memory, l: seq<nat>, i: nat, n: nat, pages: nat)
    requires Chain(m, 0, l, 0) && i < |l| && 0 < pages < n && l[i] + n <= |m.pages| && l[i] + pages !in l
    ensures var x, l' := l[i], l[i := l[i] + pages];
            && Valid(m, m.pages[x].prev) && Valid(m, m.pages[x].next)
            && var m1 := Swapped(SetSlab(m, x + pages, n - pages), x, x + pages);
               && Chain(m1, 0, l', 0) && |m1.heads| == |m.heads| && |m1.pages| == |m.pages|
               && (forall j: nat | 0 < j < |m.heads| :: m1.heads[j] == m.heads[j])
               && (forall j: nat | j < |m.pages| && j !in l' :: m1.pages[j] == m.pages[j])
               && (forall j: nat | j < |m.pages| :: m1.pages[j].slab == if j == x + pages then n - pages else m.pages[j].slab)
  {
    hide Chain, Swapped, Distinct;
    ChainAt(m, 0, l, 0, i);
    var y := l[i] + pages;
    var m0 := SetSlab(m, y, n - pages);
    ChainFrame(m, m0, 0, l, 0);
    ChainSwapped(m0, 0, l, 0, i, y);
    InList(l, i, y);
  }

  lemma InList(l: seq<nat>, i: nat, y: nat)
    requires i < |l|
    ensures y in l[i := y]
  {
    assert l[i := y][i] == y;
  }

  /** Within a run no page begins another one, so none is on a list. */
  lemma NotAHead(L: Layout, x: nat, y: nat)
    requires Tiled(L) && Listed(L) && x < |L.size| && x < y < x + L.size[x]
    ensures y < |L.size| && L.size[y] == 0 && forall k: nat | k < |L.lists| :: y !in L.lists[k]
  {
    RunAt(L, x);
    forall k: nat | k < |L.lists| ensures y !in L.lists[k] { assert RightUse(L, k); }
  }

  lemma CarvedKeepsInv(m: Memory, L: Layout, i: nat, pages: nat)
    requires Inv(m, L) && Fitting(L, i, pages)
    ensures var x := L.lists[0][i];
            && x < |m.pages| && x + L.size[x] <= |m.pages| && Valid(m, m.pages[x].prev) && Valid(m, m.pages[x].next)
            && |CarvedLinks(m, x, L.size[x], pages).pages| == |m.pages|
            && Inv(CarvedMemory(m, x, L.size[x], pages), Carved(L, i, pages))
  {
    hide Inv, Chain, Unlinked, Swapped, Distinct, Tiled, Listed, Cut, CarvedLinks, Carved, Described, Fitting, Run;
    CarvedIs(L, i, pages);
    InvParts(m, L, 0);
    CarvedFree(L, i, pages);
    CarvedTiled(L, i, pages);
    CarvedListed(L, i, pages);
    CarvedChain(m, L, i, pages);
    var l, x := L.lists[0], L.lists[0][i];
    var L', m' := Carved(L, i, pages), CarvedMemory(m, x, L.size[x], pages);
    forall k: nat | k < |L'.lists| ensures Chain(m', k, L'.lists[k], L'.tags[k]) {
      ListedAt(L', k);
      if k == 0 {
        ChainFrame(CarvedLinks(m, x, L.size[x], pages), m', 0, L'.lists[0], 0);
      } else {
        InvParts(m, L, k);
        ListedAt(L', 0);
        OtherChain(m, L, m', L', k);
      }
    }
    forall j: nat | j < |m'.pages| ensures Described(m', L', j) {
      CarvedDescribed(m, L, i, pages, j);
    }
    ItIsInv(m', L');
  }

  lemma CarvedKeepsSlabs(m: Memory, L: Layout, i: nat, pages: nat)
    requires Inv(m, L) && Fitting(L, i, pages)
    requires var x := L.lists[0][i];
             && x < |m.pages| && x + L.size[x] <= |m.pages| && Valid(m, m.pages[x].prev) && Valid(m, m.pages[x].next)
             && |CarvedLinks(m, x, L.size[x], pages).pages| == |m.pages|
    ensures SlabsKept(m, CarvedMemory(m, L.lists[0][i], L.size[L.lists[0][i]], pages), Carved(L, i, pages))
  {
    hide Inv, Chain, Unlinked, Swapped, Distinct, Tiled, Listed, Cut, CarvedLinks, Carved, Described, Fitting, Run;
    CarvedIs(L, i, pages);
    InvParts(m, L, 0);
    CarvedListed(L, i, pages);
    CarvedChain(m, L, i, pages);
    ListedAt(Carved(L, i, pages), 0);
  }

  lemma ListedAt(L: Layout, k: nat)
    requires Listed(L) && k < |L.lists|
    ensures |L.lists| == |L.tags| > 0 && L.tags[0] == 0 && |L.use| == |L.size|
    ensures forall x: nat | x in L.lists[k] :: x < |L.size| && L.size[x] > 0 && L.use[x] == if k == 0 then Free else Slab
    ensures k > 0 ==> L.tags[k] > 0
  {
    assert RightUse(L, k);
  }

  lemma CarvedDescribed(m: Memory, L: Layout, i: nat, pages: nat, j: nat)
    requires Inv(m, L) && Fitting(L, i, pages) && j < |m.pages|
    requires var x := L.lists[0][i];
             && x < |m.pages| && x + L.size[x] <= |m.pages| && Valid(m, m.pages[x].prev) && Valid(m, m.pages[x].next)
             && |CarvedLinks(m, x, L.size[x], pages).pages| == |m.pages|
    ensures var x, L' := L.lists[0][i], Carved(L, i, pages);
            && |L'.use| == |L'.size| == |m.pages| && |L'.lists| > 0
            && Described(CarvedMemory(m, x, L.size[x], pages), L', j)
  {
    hide Inv, Chain, Unlinked, Swapped, Distinct, Tiled, Listed, Cut, CarvedLinks, Carved, Fitting, Run, RightUse, CarvedMemory, Marked,
         Valid, Described;
    CarvedIs(L, i, pages);
    InvParts(m, L, 0);
    CarvedFree(L, i, pages);
    CarvedChain(m, L, i, pages);
    var x := L.lists[0][i];
    var n, L', m' := L.size[x], Carved(L, i, pages), CarvedMemory(m, x, L.size[x], pages);
    CarvedPage(m, x, n, pages, j);
    DescribedAt(m, L, j);
    if x <= j < x + n {
      if j != x { NotAHead(L, x, j); }
      InteriorUse(L, x, j);
      InsideDescribed(m, L, m', L', x, pages, j);
    } else {
      CarvedOutside(L, L', x, pages, j);
      OtherDescribed(m, L, m', L', j);
    }
  }

  lemma CarvedOutside(L: Layout, L': Layout, x: nat, pages: nat, j: nat)
    requires Parts(L, L', x, pages) && j < |L.size| && !(x <= j < x + L.size[x])
    ensures L'.size[j] == L.size[j] && L'.use[j] == L.use[j]
  {
  }

  /** The pages of the run that was split. */
  lemma InsideDescribed(m: Memory, L: Layout, m': Memory, L': Layout, x: nat, pages: nat, j: nat)
    requires |L.use| == |L.size| == |m.pages| == |m'.pages| && |L.lists| > 0 && |L'.lists| > 0 && Parts(L, L', x, pages)
    requires x <= j < x + L.size[x] && Described(m, L, j) && L.use[j] == Free && (j != x ==> L.size[j] == 0)
    requires j == x ==> m'.pages[j] == Desc(pages + START, Null, Null, 0)
    requires x < j < x + pages ==> m'.pages[j] == Desc(BUSY, Null, Null, 0)
    requires j == x + pages ==> m'.pages[j].slab == L.size[x] - pages && j in L'.lists[0]
    requires x + pages < j ==> m'.pages[j] == m.pages[j]
    ensures |L'.use| == |L'.size| == |m'.pages| && Described(m', L', j)
  {
  }

  lemma CarvedPage(m: Memory, x: nat, n: nat, pages: nat, j: nat)
    requires x + n <= |m.pages| && 0 < pages <= n && Valid(m, m.pages[x].prev) && Valid(m, m.pages[x].next) && j < |m.pages|
    requires |CarvedLinks(m, x, n, pages).pages| == |m.pages|
    ensures var m' := CarvedMemory(m, x, n, pages);
            && |m'.pages| == |m.pages|
            && m'.pages[j] == if j == x then Desc(pages + START, Null, Null, 0)
                              else if x < j < x + pages then Desc(BUSY, Null, Null, 0) else CarvedLinks(m, x, n, pages).pages[j]
  {
    hide CarvedLinks;
  }

  lemma InteriorUse(L: Layout, x: nat, y: nat)
    requires Tiled(L) && x < |L.size| && x <= y < x + L.size[x]
    ensures |L.use| == |L.size| && y < |L.size| && L.use[y] == L.use[x]
  {
    RunAt(L, x);
  }

  // release

  /** A page in use has a successor link exactly if it is on the list of a size class. */
  lemma NextTells(m: Memory, L: Layout, x: nat)
    requires Inv(m, L) && x < |m.pages| && |L.size| == |L.use| == |m.pages| && L.size[x] > 0 && L.use[x] != Free
    ensures m.pages[x].next != Null <==> OnClassList(L, x)
  {
    DescribedAt(m, L, x);
    if OnClassList(L, x) {
      var k: nat :| 0 < k < |L.lists| && x in L.lists[k];
      var i: nat :| i < |L.lists[k]| && L.lists[k][i] == x;
      InvParts(m, L, k);
      ChainAt(m, k, L.lists[k], L.tags[k], i);
    }
  }

  ghost function Loosened(m: Memory, x: nat): (m': Memory)
    requires x < |m.pages| && (m.pages[x].next != Null ==> Valid(m, m.pages[x].prev) && Valid(m, m.pages[x].next))
    ensures |m'.heads| == |m.heads| && |m'.pages| == |m.pages|
  {
    if m.pages[x].next != Null then Unlinked(m, x) else m
  }

  lemma LoosenedChains(m: Memory, L: Layout, x: nat)
    requires Listed(L) && Chained(m, L) && x < |m.pages| == |L.size| && x !in L.lists[0]
    requires m.pages[x].next != Null <==> OnClassList(L, x)
    ensures m.pages[x].next != Null ==> Valid(m, m.pages[x].prev) && Valid(m, m.pages[x].next)
    ensures var m' := Loosened(m, x);
            && Chain(m', 0, L.lists[0], 0)
            && (forall k: nat | 0 < k < |L.lists| :: Chain(m', k, Drop(L.lists[k], x), L.tags[k]))
            && (forall j: nat | j < |m.pages| && (forall k: nat | k < |L.lists| :: j !in L.lists[k]) :: m'.pages[j] == m.pages[j])
            && (forall j: nat | j < |m.pages| :: m'.pages[j].slab == m.pages[j].slab)
  {
    hide Chain, Distinct, Drop, Unlinked;
    if OnClassList(L, x) {
      var kx: nat :| 0 < kx < |L.lists| && x in L.lists[kx];
      var i: nat :| i < |L.lists[kx]| && L.lists[kx][i] == x;
      ChainAt(m, kx, L.lists[kx], L.tags[kx], i);
      ChainHead(m, kx, L.lists[kx], L.tags[kx]);
      ChainUnlinked(m, kx, L.lists[kx], L.tags[kx], i);
      CutIs(L.lists[kx], i);
      DropIs(L.lists[kx], x);
      forall k: nat | k < |L.lists| && k != kx ensures Chain(Loosened(m, x), k, Drop(L.lists[k], x), L.tags[k]) {
        NotThere(L, k, kx, x);
        ChainFrame(m, Loosened(m, x), k, L.lists[k], L.tags[k]);
      }
      NotThere(L, 0, kx, x);
    } else {
      forall k: nat | k < |L.lists| ensures Drop(L.lists[k], x) == L.lists[k] {
        assert k > 0 ==> x !in L.lists[k];
        DropNone(L.lists[k], x);
      }
    }
  }

  lemma DropNone(l: seq<nat>, x: nat)
    requires x !in l
    ensures Drop(l, x) == l
  {
  }

  lemma NotThere(L: Layout, k: nat, kx: nat, x: nat)
    requires Listed(L) && k < |L.lists| && kx < |L.lists| && k != kx && x in L.lists[kx]
    ensures Drop(L.lists[k], x) == L.lists[k] && forall y: nat | y in L.lists[k] :: y !in L.lists[kx]
  {
    forall y: nat | y in L.lists[k] ensures y !in L.lists[kx] {
    }
    DropNone(L.lists[k], x);
  }

  ghost predicate Releasable(m: Memory, L: Layout, x: nat) {
    && Inv(m, L) && x < |L.size| == |L.use| == |m.pages| && L.size[x] > 0 && L.use[x] != Free && x + L.size[x] <= |L.size|
    && |L.lists| > 0
  }

  /** The links that releasing the `n` pages from `x` on follows lead somewhere. */
  ghost predicate Linkable(m: Memory, x: nat, n: nat) {
    && 0 < n && x + n <= |m.pages| && |m.heads| > 0
    && (m.pages[x].next != Null ==> Valid(m, m.pages[x].prev) && Valid(m, m.pages[x].next))
    && var m1 := Loosened(Marked(m, x + 1, x + n, ZERO), x); Valid(m1, m1.heads[0].next)
  }

  ghost function ReleasedMemory(m: Memory, x: nat, n: nat): Memory
    requires Linkable(m, x, n)
  {
    Pushed(SetSlab(Loosened(Marked(m, x + 1, x + n, ZERO), x), x, n), 0, x, 0)
  }

  ghost predicate WellReleased(m: Memory, L: Layout, x: nat, n: nat, m': Memory) {
    && |m'.heads| == |m.heads| == |L.lists| == |L.tags| && |m'.pages| == |m.pages| && |L.lists| > 0 && L.tags[0] == 0
    && Chain(m', 0, [x] + L.lists[0], 0)
    && (forall k: nat | 0 < k < |L.lists| :: Chain(m', k, Drop(L.lists[k], x), L.tags[k]))
    && (forall j: nat | j < |m.pages| && !(x <= j < x + n) && (forall k: nat | k < |L.lists| :: j !in L.lists[k]) ::
          m'.pages[j] == m.pages[j])
    && (forall j: nat | x < j < x + n && j < |m.pages| :: m'.pages[j] == ZERO)
    && (forall j: nat | j < |m.pages| && !(x < j < x + n) :: m'.pages[j].slab == if j == x then n else m.pages[j].slab)
  }

  /** Zeroing the inside of a run, which is on no list. */
  lemma ClearedChains(m: Memory, L: Layout, x: nat)
    requires Releasable(m, L, x)
    ensures var m1 := Marked(m, x + 1, x + L.size[x], ZERO);
            Listed(L) && Chained(m1, L) && x !in L.lists[0] && (m1.pages[x].next != Null <==> OnClassList(L, x))
  {
    hide Chain, Described, Run, Listed, Tiled, OnClassList;
    NextTells(m, L, x);
    var m1 := Marked(m, x + 1, x + L.size[x], ZERO);
    InvParts(m, L, 0);
    ListedAt(L, 0);
    forall k: nat | k < |L.lists| ensures Chain(m1, k, L.lists[k], L.tags[k]) {
      InvParts(m, L, k);
      forall j: nat | j < |m.pages| && j in L.lists[k] ensures m1.pages[j] == m.pages[j] {
        if x < j < x + L.size[x] { NotAHead(L, x, j); }
      }
      OtherChain(m, L, m1, L, k);
    }
  }

  lemma ReleasedChains(m: Memory, L: Layout, x: nat)
    requires Releasable(m, L, x)
    ensures Linkable(m, x, L.size[x]) && WellReleased(m, L, x, L.size[x], ReleasedMemory(m, x, L.size[x]))
  {
    hide Inv, Chain, Described, Run, Listed, Tiled, OnClassList, Drop, Loosened, Pushed, Distinct;
    InvParts(m, L, 0);
    ClearedChains(m, L, x);
    var n := L.size[x];
    var m1 := Marked(m, x + 1, x + n, ZERO);
    LoosenedChains(m1, L, x);
    var m2 := Loosened(m1, x);
    ChainHead(m2, 0, L.lists[0], 0);
    var m2' := SetSlab(m2, x, n);
    forall k: nat | k < |L.lists| ensures Chain(m2', k, if k == 0 then L.lists[0] else Drop(L.lists[k], x), L.tags[k]) {
      ChainFrame(m2, m2', k, if k == 0 then L.lists[0] else Drop(L.lists[k], x), L.tags[k]);
    }
    ChainPushed(m2', 0, L.lists[0], 0, x);
    var m' := Pushed(m2', 0, x, 0);
    forall k: nat | 0 < k < |L.lists| ensures Chain(m', k, Drop(L.lists[k], x), L.tags[k]) {
      InvParts(m, L, k);
      DropIs(L.lists[k], x);
      ListedAt(L, 0);
      ListedAt(L, k);
      ChainFrame(m2', m', k, Drop(L.lists[k], x), L.tags[k]);
    }
    forall j: nat | x < j < x + n ensures m'.pages[j] == ZERO {
      NotAHead(L, x, j);
    }
  }

  lemma ReleasedKeepsInv(m: Memory, L: Layout, x: nat)
    requires Releasable(m, L, x)
    ensures Linkable(m, x, L.size[x]) && Inv(ReleasedMemory(m, x, L.size[x]), Released(L, x))
  {
    hide Inv, Chain, Described, Run, Listed, Tiled, OnClassList, Drop, Distinct, ReleasedMemory, Linkable;
    ReleasedChains(m, L, x);
    InvParts(m, L, 0);
    ReleasedTiled(L, x);
    forall k: nat | k < |L.lists| ensures Distinct(L.lists[k]) { InvParts(m, L, k); }
    ReleasedListed(L, x);
    var m', L' := ReleasedMemory(m, x, L.size[x]), Released(L, x);
    forall j: nat | j < |m'.pages| ensures Described(m', L', j) {
      ReleasedDescribed(m, L, x, m', j);
    }
    ItIsInv(m', L');
  }

  lemma ReleasedKeepsSlabs(m: Memory, L: Layout, x: nat)
    requires Releasable(m, L, x)
    ensures Linkable(m, x, L.size[x]) && SlabsKept(m, ReleasedMemory(m, x, L.size[x]), Released(L, x))
  {
    hide Inv, Chain, Described, Run, Listed, Tiled, OnClassList, Drop, Distinct, ReleasedMemory, Linkable;
    ReleasedChains(m, L, x);
    InvParts(m, L, 0);
    var m', L' := ReleasedMemory(m, x, L.size[x]), Released(L, x);
    forall j: nat | j < |m.pages| && L'.use[j] == Slab
      ensures m'.pages[j].slab == m.pages[j].slab && m'.pages[j].tag == m.pages[j].tag
    {
      if k: nat :| k < |L.lists| && j in L.lists[k] {
        InvParts(m, L, k);
        ListedAt(L, k);
        DropIs(L.lists[k], x);
        TagAt(m, k, L.lists[k], L.tags[k], j);
        TagAt(m', k, Drop(L.lists[k], x), L.tags[k], j);
      }
    }
  }

  lemma TagAt(m: Memory, k: nat, l: seq<nat>, tag: nat, j: nat)
    requires Chain(m, k, l, tag) && j in l
    ensures j < |m.pages| && m.pages[j].tag == tag
  {
    var i: nat :| i < |l| && l[i] == j;
  }

  lemma ReleasedDescribed(m: Memory, L: Layout, x: nat, m': Memory, j: nat)
    requires Releasable(m, L, x) && j < |m.pages| && WellReleased(m, L, x, L.size[x], m')
    ensures var L' := Released(L, x);
            |L'.use| == |L'.size| == |m'.pages| == |m.pages| && |L'.lists| > 0 && Described(m', L', j)
  {
    hide Inv, Chain, Run, Listed, Tiled, OnClassList, Drop, Distinct;
    InvParts(m, L, 0);
    DescribedAt(m, L, j);
    var L' := Released(L, x);
    if x < j < x + L.size[x] {
      NotAHead(L, x, j);
    } else if j != x {
      forall k: nat | k < |L.lists| ensures j in L.lists[k] <==> j in L'.lists[k] {
        InvParts(m, L, k);
        DropIs(L.lists[k], x);
      }
      OtherDescribed(m, L, m', L', j);
    }
  }

  // joining

  /** The run at `b` leaves the free list and counts for the run at `a`. */
  function JoinedMemory(m: Memory, a: nat, b: nat): (m': Memory)
    requires a < |m.pages| && b < |m.pages| && Valid(m, m.pages[b].prev) && Valid(m, m.pages[b].next)
    ensures |m'.heads| == |m.heads| && |m'.pages| == |m.pages|
  {
    Put(SetSlab(Unlinked(m, b), a, m.pages[a].slab + m.pages[b].slab), Page(b), ZERO)
  }

  lemma JoinedKeepsInv(m: Memory, L: Layout, a: nat, b: nat)
    requires Inv(m, L) && Neighbours(L, a, b)
    ensures a < |m.pages| && b < |m.pages| && Valid(m, m.pages[b].prev) && Valid(m, m.pages[b].next) && |L.lists| > 0
    ensures Inv(JoinedMemory(m, a, b), Joined(L, a, b)) && b in L.lists[0] && a in L.lists[0]
    ensures m.pages[a].slab == L.size[a] && m.pages[b].slab == L.size[b]
  {
    hide Inv, Chain, Run, Listed, Tiled, OnClassList, Drop, Distinct, Unlinked;
    ListsExist(m, L);
    InvParts(m, L, 0);
    DescribedAt(m, L, a);
    DescribedAt(m, L, b);
    var l := L.lists[0];
    var i: nat :| i < |l| && l[i] == b;
    ChainAt(m, 0, l, 0, i);
    DropIs(l, b);
    JoinedTiled(L, a, b);
    JoinedListed(L, a, b);
    JoinedLinks(m, L, a, b, i);
    var m', L' := JoinedMemory(m, a, b), Joined(L, a, b);
    forall k: nat | k < |L'.lists| ensures Chain(m', k, L'.lists[k], L'.tags[k]) {
      if k > 0 {
        InvParts(m, L, k);
        ListedAt(L, k);
        ListedAt(L, 0);
        OtherChain(m, L, m', L', k);
      }
    }
    forall j: nat | j < |m'.pages| ensures Described(m', L', j) {
      JoinedDescribed(m, L, a, b, m', j);
    }
    ItIsInv(m', L');
  }

  ghost predicate WellJoined(m: Memory, L: Layout, a: nat, b: nat, m': Memory) {
    && |m'.heads| == |m.heads| && |m'.pages| == |m.pages| && |L.lists| > 0 && a < |m.pages| && b < |m.pages|
    && Chain(m', 0, Drop(L.lists[0], b), 0)
    && (forall k: nat | 0 < k < |m.heads| :: m'.heads[k] == m.heads[k])
    && (forall j: nat | j < |m.pages| && j !in L.lists[0] :: m'.pages[j] == m.pages[j])
    && (forall j: nat | j < |m.pages| && j != b ::
          m'.pages[j].slab == if j == a then m.pages[a].slab + m.pages[b].slab else m.pages[j].slab)
    && m'.pages[b] == ZERO
  }

  lemma JoinedLinks(m: Memory, L: Layout, a: nat, b: nat, i: nat)
    requires |L.lists| > 0 && Chain(m, 0, L.lists[0], 0) && i < |L.lists[0]| && L.lists[0][i] == b && a < |m.pages| && a in L.lists[0]
    ensures b < |m.pages| && Valid(m, m.pages[b].prev) && Valid(m, m.pages[b].next)
    ensures WellJoined(m, L, a, b, JoinedMemory(m, a, b))
  {
    hide Chain, Drop, Distinct, Unlinked;
    var l := L.lists[0];
    ChainHead(m, 0, l, 0);
    ChainAt(m, 0, l, 0, i);
    ChainUnlinked(m, 0, l, 0, i);
    DropIs(l, b);
    ChainFrame(Unlinked(m, b), JoinedMemory(m, a, b), 0, Drop(l, b), 0);
  }

  lemma JoinedKeepsSlabs(m: Memory, L: Layout, a: nat, b: nat)
    requires Inv(m, L) && Neighbours(L, a, b)
    ensures a < |m.pages| && b < |m.pages| && Valid(m, m.pages[b].prev) && Valid(m, m.pages[b].next) && |L.lists| > 0
    ensures SlabsKept(m, JoinedMemory(m, a, b), Joined(L, a, b))
  {
    hide Inv, Chain, Run, Listed, Tiled, Drop, Distinct, Unlinked;
    ListsExist(m, L);
    InvParts(m, L, 0);
    JoinedKeepsInv(m, L, a, b);
    ListedAt(L, 0);
    var i: nat :| i < |L.lists[0]| && L.lists[0][i] == b;
    JoinedLinks(m, L, a, b, i);
  }

  lemma JoinedDescribed(m: Memory, L: Layout, a: nat, b: nat, m': Memory, j: nat)
    requires Inv(m, L) && Neighbours(L, a, b) && j < |m.pages| && WellJoined(m, L, a, b, m')
    ensures var L' := Joined(L, a, b);
            |L'.use| == |L'.size| == |m'.pages| == |m.pages| && |L'.lists| > 0 && Described(m', L', j)
  {
    hide Inv, Chain, Run, Listed, Tiled, OnClassList, Drop, Distinct;
    InvParts(m, L, 0);
    DropIs(L.lists[0], b);
    DescribedAt(m, L, j);
    DescribedAt(m, L, a);
    DescribedAt(m, L, b);
    if j != a && j != b { OtherDescribed(m, L, m', Joined(L, a, b), j); }
  }

  lemma ListsExist(m: Memory, L: Layout)
    requires Inv(m, L)
    ensures |L.lists| > 0
  {
  }

  // ----- the pool -----

  /** What `ncx_slab_init` writes: one free run of all pages, and `classes` empty lists of size classes. */
  function StartMemory(count: nat, classes: nat): Memory
    requires count > 0
  {
    Memory([Desc(0, Page(0), Null, 0)] + seq(classes, (k: nat) => Desc(0, Head(k + 1), Null, 0)),
           [Desc(count, Head(0), Head(0), 0)] + seq(count - 1, _ => ZERO))
  }

  ghost function StartLayout(count: nat, classTags: seq<nat>): Layout
    requires count > 0
  {
    Layout([count] + seq(count - 1, _ => 0), seq(count, _ => Free), [[0]] + seq(|classTags|, _ => []), [0] + classTags)
  }

  lemma StartIsInv(m: Memory, L: Layout, count: nat, classTags: seq<nat>)
    requires count > 0 && forall k: nat | k < |classTags| :: classTags[k] > 0
    requires m == StartMemory(count, |classTags|) && L == StartLayout(count, classTags)
    ensures Inv(m, L) && Merged(L)
  {
    forall k: nat | k < |L.lists| ensures Chain(m, k, L.lists[k], L.tags[k]) {
    }
    forall i: nat | i < |m.pages| ensures Described(m, L, i) {
      assert i == 0 ==> i in L.lists[0];
    }
    ItIsInv(m, L);
  }

  class PagePool {
    const merge: bool
    var mem: Memory
    ghost var layout: Layout

    ghost predicate Valid()
      reads this
    {
      Inv(mem, layout)
    }

    /** The state after `ncx_slab_init`: one free run of all pages, and `classes` empty lists of size classes. */
    constructor (merge: bool, count: nat, classTags: seq<nat>)
      requires count > 0 && forall k: nat | k < |classTags| :: classTags[k] > 0
      ensures Valid() && this.merge == merge && Merged(layout)
      ensures layout == StartLayout(count, classTags)
    {
      this.merge := merge;
      mem := StartMemory(count, |classTags|);
      layout := StartLayout(count, classTags);
      new;
      StartIsInv(mem, layout, count, classTags);
    }

    /** `ncx_slab_empty`: a page is free if it is inside a free run, or its list is the free list. */
    method Empty(page: nat) returns (empty: bool)
      requires Valid() && page < |mem.pages| && |layout.use| == |mem.pages|
      ensures empty <==> layout.use[page] == Free
    {
      hide Inv, Chain, Run, Listed, Tiled, Distinct;
      DescribedAt(mem, layout, page);
      if mem.pages[page].slab == 0 {
        return true;
      }
      if mem.pages[page].next == Null {
        FreeIsLinked(mem, layout, page);
        return false;
      }
      ghost var k: nat, i: nat := OnSomeList(mem, layout, page);
      var prev := mem.pages[page].prev;
      while prev.Page?
        invariant k < |layout.lists| && i < |layout.lists[k]| && prev == Before(k, layout.lists[k], i)
        decreases i
      {
        i := i - 1;
        InvParts(mem, layout, k);
        ChainAt(mem, k, layout.lists[k], layout.tags[k], i);
        prev := mem.pages[prev.i].prev;
      }
      empty := prev == Head(0);
    }

    /** `ncx_slab_alloc_pages`: the first run on the free list that is long enough gives its first pages. */
    method AllocPages(pages: nat) returns (r: Ref, ghost place: nat)
      requires Valid() && pages > 0
      modifies this
      ensures Valid() && (r == Null || r.Page?)
      ensures r == Null ==> mem == old(mem) && layout == old(layout) && TooShort(old(layout), |old(layout).lists[0]|, pages)
      ensures r.Page? ==>
                && Fitting(old(layout), place, pages) && TooShort(old(layout), place, pages)
                && r.i == old(layout).lists[0][place] && layout == Carved(old(layout), place, pages)
      ensures SlabsKept(old(mem), mem, layout)
    {
      hide Inv, Chain, Run, Tiled, Distinct, Carved, Fitting, Unlinked, Swapped, Marked, SlabsKept;
      SameSlabs(mem, layout);
      place := 0;
      ListsExist(mem, layout);
      InvParts(mem, layout, 0);
      ghost var l := layout.lists[0];
      ChainHead(mem, 0, l, 0);
      var page := mem.heads[0].next;
      while page != Head(0)
        invariant mem == old(mem) && layout == old(layout)
        invariant place <= |l| && page == After(0, l, place - 1) && TooShort(layout, place, pages)
        decreases |l| - place
      {
        OnFreeList(mem, layout, place);
        var x := page.i;
        if mem.pages[x].slab >= pages {
          ItFits(mem, layout, place, pages);
          mem := TakePages(mem, x, pages, layout, place);
          layout := Carved(layout, place, pages);
          return Page(x), place;
        }
        place := place + 1;
        page := mem.pages[x].next;
      }
      r := Null;
    }

    /** `ncx_slab_free_pages`. */
    method FreePages(x: nat, pages: nat)
      requires Valid() && Releasable(mem, layout, x) && pages == layout.size[x]
      modifies this
      ensures Valid() && Freed(old(layout), layout, x)
      ensures FreeStep(merge, old(layout), layout, x)
      ensures merge && Merged(old(layout)) ==> Merged(layout)
      ensures SlabsKept(old(mem), mem, layout)
    {
      hide Inv, Chain, Run, Tiled, Distinct, Listed, Released, Joined, Freed, Releasable, Linkable, Merged, AlmostMerged, SlabsKept, JoinedBefore, JoinedBehind;
      ghost var L := layout;
      ReleasedKeepsInv(mem, layout, x);
      ReleasedKeepsSlabs(mem, layout, x);
      ReleasedIsFreed(mem, layout, x);
      mem := ReleaseRun(mem, x, pages);
      layout := Released(layout, x);
      if merge {
        ghost var m1, L1 := mem, layout;
        var page := JoinPrevious(x, L);
        KeptTwice(old(mem), m1, L1, mem, layout, L, x);
        ghost var m2, L2 := mem, layout;
        JoinNext(page, x, L);
        KeptTwice(old(mem), m2, L2, mem, layout, L, x);
      }
    }

    /** The first half of PAGE_MERGE: a freed run joins a free run before it. */
    method JoinPrevious(x: nat, ghost L: Layout) returns (page: nat)
      requires Valid() && Freed(L, layout, x) && layout == Released(L, x) && Tiled(L) && L.use[x] != Free
      requires layout.size == L.size
      modifies this
      ensures Valid() && Freed(L, layout, x)
      ensures page < |mem.pages| == |layout.size| == |layout.use| && layout.size[page] > 0 && layout.use[page] == Free
      ensures JoinedBefore(old(layout), x, page, layout)
      ensures Merged(L) ==> AlmostMerged(layout, page)
      ensures SlabsKept(old(mem), mem, layout)
    {
      hide Inv, Chain, Run, Tiled, Distinct, Listed, Released, Joined, Freed, Merged, AlmostMerged, SlabsKept;
      SameSlabs(mem, layout);
      FreedParts(mem, L, layout, x);
      page := x;
      if x == 0 {
        MergedAfterRelease(L, x);
        return;
      }
      var prev := x - 1;
      var empty := Empty(prev);
      if !empty {
        MergedAfterRelease(L, x);
        return;
      }
      ghost var h: nat := RunOf(layout, prev);
      while mem.pages[prev].slab == 0
        invariant mem == old(mem) && layout == old(layout)
        invariant h <= prev < x && (forall i: nat | h < i < x :: layout.size[i] == 0) && layout.use[prev] == Free
        decreases prev
      {
        HeadHasSlab(mem, layout, prev);
        StepBack(layout, h, prev);
        prev := prev - 1;
      }
      HeadHasSlab(mem, layout, prev);
      MeetsNext(layout, prev, x);
      JoinedKeepsInv(mem, layout, prev, x);
      JoinedKeepsSlabs(mem, layout, prev, x);
      JoinedIsFreed(mem, L, layout, x, prev, x);
      MergedAfterJoin(L, prev, x);
      mem := JoinedMemory(mem, prev, x);
      layout := Joined(layout, prev, x);
      page := prev;
    }

    /** The second half: the run joins a free run behind it. */
    method JoinNext(page: nat, ghost x: nat, ghost L: Layout)
      requires Valid() && Freed(L, layout, x)
      requires page < |mem.pages| == |layout.size| == |layout.use| && layout.size[page] > 0 && layout.use[page] == Free
      modifies this
      ensures Valid() && Freed(L, layout, x)
      ensures JoinedBehind(old(layout), page, layout)
      ensures old(AlmostMerged(layout, page)) ==> Merged(layout)
      ensures SlabsKept(old(mem), mem, layout)
    {
      hide Inv, Chain, Run, Tiled, Distinct, Listed, Released, Joined, Freed, Merged, AlmostMerged, SlabsKept;
      SameSlabs(mem, layout);
      FreedParts(mem, L, layout, x);
      HeadHasSlab(mem, layout, page);
      LastOfRun(layout, page);
      if page + mem.pages[page].slab < |mem.pages| {
        var next := page + mem.pages[page].slab;
        var empty := Empty(next);
        if empty {
          NextBegins(layout, page);
          JoinedKeepsInv(mem, layout, page, next);
          JoinedKeepsSlabs(mem, layout, page, next);
          JoinedIsFreed(mem, L, layout, x, page, next);
          if AlmostMerged(layout, page) { JoinedMerged(layout, page, next); }
          mem := JoinedMemory(mem, page, next);
          layout := Joined(layout, page, next);
          return;
        }
      }
      NothingToJoin(layout, page);
    }
  }

  /** The freed run at `x` has joined the free run at `a` before it, if there is one. */
  ghost predicate JoinedBefore(L: Layout, x: nat, a: nat, L': Layout) {
    if 0 < x <= |L.use| && L.use[x - 1] == Free then |L.lists| > 0 && Neighbours(L, a, x) && L' == Joined(L, a, x)
    else a == x && L' == L
  }

  /** The free run at `a` has been joined by the one behind it, if there is one. */
  ghost predicate JoinedBehind(L: Layout, a: nat, L': Layout) {
    && |L.use| == |L.size| && a < |L.size| && |L.lists| > 0
    && var b: nat := a + L.size[a];
       if b < |L.use| && L.use[b] == Free then L' == Joined(L, a, b) else L' == L
  }

  /** What `ncx_slab_free_pages` does to the layout. */
  ghost predicate FreeStep(merge: bool, L: Layout, L': Layout, x: nat) {
    && |L.use| == |L.size| && x < |L.size| && x + L.size[x] <= |L.size| && |L.lists| > 0
    && if merge then exists a: nat, L1: Layout :: JoinedBefore(Released(L, x), x, a, L1) && JoinedBehind(L1, a, L')
       else L' == Released(L, x)
  }

  /** What freeing promises: exactly the pages of the run become free, and other runs in use stay. */
  ghost predicate Freed(L: Layout, L': Layout, x: nat) {
    && |L.use| == |L.size| == |L'.use| == |L'.size| && |L.lists| == |L'.lists| > 0 && L'.tags == L.tags
    && x < |L.size| && L.size[x] > 0 && x + L.size[x] <= |L.size|
    && L'.use == Fill(L.use, x, x + L.size[x], Free)
    && (forall h: nat | h < |L.size| && L'.use[h] != Free :: L'.size[h] == L.size[h])
    && (forall k: nat | 0 < k < |L.lists| :: L'.lists[k] == Drop(L.lists[k], x))
  }

  lemma SameSlabs(m: Memory, L: Layout)
    requires Inv(m, L)
    ensures SlabsKept(m, m, L)
  {
    hide Tiled, Listed;
  }

  lemma KeptTwice(m0: Memory, m1: Memory, L1: Layout, m2: Memory, L2: Layout, L: Layout, x: nat)
    requires SlabsKept(m0, m1, L1) && SlabsKept(m1, m2, L2) && Freed(L, L1, x) && Freed(L, L2, x)
    ensures SlabsKept(m0, m2, L2)
  {
    hide Fill;
  }

  lemma ReleasedIsFreed(m: Memory, L: Layout, x: nat)
    requires Releasable(m, L, x)
    ensures |L.use| == |L.size| && x < |L.size| && x + L.size[x] <= |L.size| && |L.lists| > 0 && L.use[x] != Free && Tiled(L)
    ensures Freed(L, Released(L, x), x) && Released(L, x).size == L.size
  {
    hide Drop, Run, Listed;
    InvParts(m, L, 0);
  }

  lemma FreedParts(m: Memory, L: Layout, L': Layout, x: nat)
    requires Inv(m, L') && Freed(L, L', x)
    ensures |L.use| == |L.size| == |L'.use| == |L'.size| == |m.pages| && |L'.lists| == |L.lists| > 0 && Tiled(L')
    ensures x < |L.size| && x + L.size[x] <= |L.size| && L.size[x] > 0
    ensures L'.use[x] == Free && forall i: nat | i < x :: L'.use[i] == L.use[i]
  {
    InvParts(m, L', 0);
  }

  /** A free page inside a run has no size, the first one has. */
  lemma HeadHasSlab(m: Memory, L: Layout, i: nat)
    requires Inv(m, L) && i < |m.pages| == |L.size| == |L.use| && L.use[i] == Free
    ensures m.pages[i].slab == L.size[i]
  {
    DescribedAt(m, L, i);
  }

  lemma StepBack(L: Layout, h: nat, i: nat)
    requires Tiled(L) && h <= i < |L.size| && L.size[i] == 0 && |L.use| == |L.size| && L.use[i] == Free
    ensures i > 0 && L.use[i - 1] == Free
    ensures L.size[h] > 0 ==> h < i
  {
    var g := RunOf(L, i);
    RunAt(L, g);
  }

  lemma MeetsNext(L: Layout, h: nat, x: nat)
    requires Tiled(L) && h < x < |L.size| && L.size[h] > 0 && L.size[x] > 0 && forall i: nat | h < i < x :: L.size[i] == 0
    ensures h + L.size[h] == x
  {
    RunAt(L, h);
    RunsApart(L, h, x);
  }

  lemma NextBegins(L: Layout, h: nat)
    requires Tiled(L) && h < |L.size| && L.size[h] > 0 && h + L.size[h] < |L.size|
    ensures L.size[h + L.size[h]] > 0
  {
    RunAt(L, h);
  }

  lemma NothingToJoin(L: Layout, a: nat)
    requires |L.use| == |L.size| && a < |L.size| && a + L.size[a] < |L.size| ==> L.use[a + L.size[a]] != Free
    requires |L.use| == |L.size|
    ensures AlmostMerged(L, a) ==> Merged(L)
  {
  }

  lemma MergedAfterRelease(L: Layout, x: nat)
    requires Tiled(L) && |L.lists| > 0 && |L.use| == |L.size| && x < |L.size| && L.size[x] > 0 && x + L.size[x] <= |L.size|
    requires x == 0 || L.use[x - 1] != Free
    ensures Merged(L) ==> AlmostMerged(Released(L, x), x)
  {
    hide Tiled, Released, AlmostMerged, Merged;
    if Merged(L) { ReleasedAlmostMerged(L, x); }
  }

  lemma MergedAfterJoin(L: Layout, h: nat, x: nat)
    requires Tiled(L) && |L.lists| > 0 && |L.use| == |L.size| && x < |L.size| && L.size[x] > 0 && x + L.size[x] <= |L.size|
    requires h < x && L.size[h] > 0 && L.use[h] == Free && h + L.size[h] == x && L.use[x] != Free
    ensures Merged(L) ==> AlmostMerged(Joined(Released(L, x), h, x), h)
  {
    hide Tiled, Released, AlmostMerged, Merged, Joined;
    if Merged(L) { JoinedAlmostMerged(L, h, x); }
  }

  lemma JoinedIsFreed(m: Memory, L: Layout, L': Layout, x: nat, a: nat, b: nat)
    requires Inv(m, L') && Freed(L, L', x) && Neighbours(L', a, b)
    ensures |L'.lists| > 0 && Freed(L, Joined(L', a, b), x)
    ensures var J := Joined(L', a, b); |J.size| == |J.use| == |L'.size| && J.size[a] > 0 && J.use[a] == Free
  {
    hide Inv, Drop;
  }

  /** Clears the inside of the run, unlinks it from the list of a size class, and puts it first on the free list. */
  method ReleaseRun(m: Memory, x: nat, pages: nat) returns (now: Memory)
    requires Linkable(m, x, pages)
    ensures now == ReleasedMemory(m, x, pages)
  {
    now := ClearInside(m, x, pages);
    if now.pages[x].next != Null {
      var d := now.pages[x];
      now := SetNext(now, d.prev, d.next);
      now := SetPrev(now, d.next, d.prev, d.tag);
    }
    now := SetSlab(now, x, pages);
    now := SetPrev(now, Page(x), Head(0), 0);
    var first := now.heads[0].next;
    now := SetNext(now, Page(x), first);
    now := SetPrev(now, first, Page(x), 0);
    now := SetNext(now, Head(0), Page(x));
  }

  /** `ncx_memzero` of the descriptors behind the first one. */
  method ClearInside(m: Memory, x: nat, pages: nat) returns (now: Memory)
    requires 0 < pages && x + pages <= |m.pages|
    ensures now == Marked(m, x + 1, x + pages, ZERO)
  {
    now := m;
    var p := x + 1;
    while p < x + pages
      invariant x + 1 <= p <= x + pages && now == Marked(m, x + 1, p, ZERO)
    {
      now := Put(now, Page(p), ZERO);
      p := p + 1;
      assert now.pages == Marked(m, x + 1, p, ZERO).pages;
    }
  }

  /** Takes the first pages of a free run; what is left of the run takes its place on the list. */
  method TakePages(m: Memory, x: nat, pages: nat, ghost L: Layout, ghost place: nat) returns (now: Memory)
    requires Inv(m, L) && Fitting(L, place, pages) && x == L.lists[0][place]
    ensures Inv(now, Carved(L, place, pages)) && SlabsKept(m, now, Carved(L, place, pages))
  {
    hide Inv, Chain, Run, Tiled, Distinct, Carved, Unlinked, Swapped, Marked, SlabsKept;
    OnFreeList(m, L, place);
    CarvedKeepsInv(m, L, place, pages);
    CarvedKeepsSlabs(m, L, place, pages);
    hide Fitting, Listed;
    var d := m.pages[x];
    if d.slab > pages {
      var y := x + pages;
      now := SetSlab(m, y, d.slab - pages);
      now := SetNext(now, Page(y), d.next);
      now := SetPrev(now, Page(y), d.prev, d.tag);
      now := SetNext(now, d.prev, Page(y));
      now := SetPrev(now, d.next, Page(y), d.tag);
    } else {
      now := SetNext(m, d.prev, d.next);
      now := SetPrev(now, d.next, d.prev, d.tag);
    }
    CarvedLinksAre(m, x, d.slab, pages, now);
    now := Put(now, Page(x), Desc(pages + START, Null, Null, 0));
    now := MarkBusy(now, x + 1, x + pages);
    CarvedMemoryIs(m, x, d.slab, pages, now);
  }

  /** The first `n` runs on the free list are shorter than `pages`. */
  ghost predicate TooShort(L: Layout, n: nat, pages: nat) {
    |L.lists| > 0 && n <= |L.lists[0]| && forall j: nat | j < n :: L.lists[0][j] < |L.size| && L.size[L.lists[0][j]] < pages
  }

  lemma OnFreeList(m: Memory, L: Layout, i: nat)
    requires Inv(m, L) && |L.lists| > 0 && i < |L.lists[0]|
    ensures var x := L.lists[0][i];
            && x < |L.size| == |L.use| == |m.pages| && L.use[x] == Free && L.size[x] > 0 && m.pages[x].slab == L.size[x]
            && m.pages[x].next == After(0, L.lists[0], i) && Valid(m, m.pages[x].next) && Valid(m, m.pages[x].prev)
            && x + L.size[x] <= |L.size|
  {
    hide Inv, Chain, Run, Tiled, Distinct;
    InvParts(m, L, 0);
    ChainAt(m, 0, L.lists[0], 0, i);
    assert L.lists[0][i] in L.lists[0];
    DescribedAt(m, L, L.lists[0][i]);
    LastOfRun(L, L.lists[0][i]);
  }

  lemma ItFits(m: Memory, L: Layout, i: nat, pages: nat)
    requires Inv(m, L) && |L.lists| > 0 && i < |L.lists[0]| && L.lists[0][i] < |m.pages| && 0 < pages <= m.pages[L.lists[0][i]].slab
    ensures Fitting(L, i, pages)
  {
    hide Inv, Chain, Tiled, Distinct;
    OnFreeList(m, L, i);
    InvParts(m, L, 0);
    RunAt(L, L.lists[0][i]);
  }

  /** The loop that marks the inside of a run. */
  method MarkBusy(m: Memory, from: nat, to: nat) returns (now: Memory)
    requires from <= to <= |m.pages|
    ensures now == Marked(m, from, to, Desc(BUSY, Null, Null, 0))
  {
    now := m;
    var p := from;
    while p < to
      invariant from <= p <= to && now == Marked(m, from, p, Desc(BUSY, Null, Null, 0))
    {
      now := Put(now, Page(p), Desc(BUSY, Null, Null, 0));
      p := p + 1;
      assert now.pages == Marked(m, from, p, Desc(BUSY, Null, Null, 0)).pages;
    }
  }

  lemma CarvedLinksAre(m: Memory, x: nat, n: nat, pages: nat, now: Memory)
    requires x + n <= |m.pages| && 0 < pages <= n && Valid(m, m.pages[x].prev) && Valid(m, m.pages[x].next)
    requires |CarvedLinks(m, x, n, pages).pages| == |m.pages|
    requires now == var d := m.pages[x];
                    if n > pages then
                      var y := Page(x + pages);
                      SetPrev(SetNext(SetPrev(SetNext(SetSlab(m, x + pages, n - pages), y, d.next), y, d.prev, d.tag), d.prev, y), d.next, y, d.tag)
                    else SetPrev(SetNext(m, d.prev, d.next), d.next, d.prev, d.tag)
    ensures now == CarvedLinks(m, x, n, pages)
  {
  }

  lemma CarvedMemoryIs(m: Memory, x: nat, n: nat, pages: nat, now: Memory)
    requires x + n <= |m.pages| && 0 < pages <= n && Valid(m, m.pages[x].prev) && Valid(m, m.pages[x].next)
    requires |CarvedLinks(m, x, n, pages).pages| == |m.pages|
    requires now == Marked(Put(CarvedLinks(m, x, n, pages), Page(x), Desc(pages + START, Null, Null, 0)),
                           x + 1, x + pages, Desc(BUSY, Null, Null, 0))
    ensures now == CarvedMemory(m, x, n, pages)
  {
    var m1 := CarvedLinks(m, x, n, pages);
    hide CarvedLinks;
    assert Put(m1, Page(x), Desc(pages + START, Null, Null, 0)).pages
        == Marked(m1, x, x + 1, Desc(pages + START, Null, Null, 0)).pages;
  }

  lemma FreeIsLinked(m: Memory, L: Layout, x: nat)
    requires Inv(m, L) && x < |m.pages| && |L.use| == |L.size| == |m.pages| && m.pages[x].slab > 0
    ensures L.use[x] == Free ==> m.pages[x].next != Null
  {
    hide Chain, Run, Listed, Tiled, Distinct;
    DescribedAt(m, L, x);
    if L.use[x] == Free {
      var i: nat :| i < |L.lists[0]| && L.lists[0][i] == x;
      InvParts(m, L, 0);
      ChainAt(m, 0, L.lists[0], L.tags[0], i);
    }
  }

  /** A linked page is on a list, on the free list exactly if it is free. */
  lemma OnSomeList(m: Memory, L: Layout, x: nat) returns (k: nat, i: nat)
    requires Inv(m, L) && x < |m.pages| && |L.use| == |L.size| == |m.pages| && m.pages[x].next != Null
    ensures k < |L.lists| && i < |L.lists[k]| && L.lists[k][i] == x && m.pages[x].prev == Before(k, L.lists[k], i)
    ensures k == 0 <==> L.use[x] == Free
  {
    hide Chain, Run, Tiled, Distinct;
    DescribedAt(m, L, x);
    if L.use[x] == Free {
      k := 0;
      i :| i < |L.lists[0]| && L.lists[0][i] == x;
    } else {
      k :| 0 < k < |L.lists| && x in L.lists[k];
      i :| i < |L.lists[k]| && L.lists[k][i] == x;
    }
    InvParts(m, L, k);
    ChainAt(m, k, L.lists[k], L.tags[k], i);
  }

  // ----- what allocating and freeing mean for the pages -----

  ghost function Count(use: seq<Use>, u: Use): nat {
    if use == [] then 0 else (if use[0] == u then 1 else 0) + Count(use[1..], u)
  }

  lemma {:induction false} CountAppend(a: seq<Use>, b: seq<Use>, u: Use)
    ensures Count(a + b, u) == Count(a, u) + Count(b, u)
  {
    if a == [] {
      assert a + b == b;
    } else {
      assert (a + b)[1..] == a[1..] + b;
      CountAppend(a[1..], b, u);
    }
  }

  lemma {:induction false} CountSame(a: seq<Use>, v: Use, u: Use)
    requires forall i | 0 <= i < |a| :: a[i] == v
    ensures Count(a, u) == if u == v then |a| else 0
  {
    if a != [] { CountSame(a[1..], v, u); }
  }

  lemma CountFill(use: seq<Use>, from: nat, to: nat, was: Use, v: Use, u: Use)
    requires from <= to <= |use| && forall j: nat | from <= j < to :: use[j] == was
    ensures Count(Fill(use, from, to, v), u) + (if u == was then to - from else 0) == Count(use, u) + if u == v then to - from else 0
  {
    hide Count, Fill;
    var r := Fill(use, from, to, v);
    var a, b, c, new_ := use[..from], use[from..to], use[to..], r[from..to];
    assert use == a + b + c;
    assert r[..from] == a && r[to..] == c;
    assert r == a + new_ + c;
    CountAppend(a + b, c, u);
    CountAppend(a, b, u);
    CountAppend(a + new_, c, u);
    CountAppend(a, new_, u);
    CountSame(b, was, u);
    CountSame(new_, v, u);
  }

  lemma CountMoved(use: seq<Use>, use': seq<Use>, from: nat, to: nat, was: Use, v: Use)
    requires from <= to <= |use| == |use'| && (forall j: nat | from <= j < to :: use[j] == was) && was != v
    requires forall j: nat | j < |use| :: use'[j] == if from <= j < to then v else use[j]
    ensures Count(use', was) + (to - from) == Count(use, was) && Count(use', v) == Count(use, v) + (to - from)
    ensures forall u: Use | u != was && u != v :: Count(use', u) == Count(use, u)
  {
    assert use' == Fill(use, from, to, v);
    forall u: Use { CountFill(use, from, to, was, v, u); }
  }

  /** An allocated run consists of pages that were free, so it meets no other run in use; nothing else changes use. */
  lemma AllocationIsDisjoint(L: Layout, i: nat, pages: nat)
    requires Fitting(L, i, pages)
    ensures var x, L' := L.lists[0][i], Carved(L, i, pages);
            && x + pages <= |L.size| == |L'.size| == |L.use| == |L'.use| && L'.size[x] == pages
            && (forall j: nat | x <= j < x + pages :: L.use[j] == Free && L'.use[j] == Whole)
            && (forall j: nat | j < |L.use| && !(x <= j < x + pages) :: L'.use[j] == L.use[j])
            && (forall h: nat | h < |L.use| && L.use[h] != Free && L.size[h] > 0 :: L'.size[h] == L.size[h])
            && Count(L'.use, Free) + pages == Count(L.use, Free) && Count(L'.use, Whole) == Count(L.use, Whole) + pages
            && Count(L'.use, Slab) == Count(L.use, Slab)
  {
    hide Tiled, Listed, Carved, Fitting, Run, Count;
    CarvedIs(L, i, pages);
    var x, L' := L.lists[0][i], Carved(L, i, pages);
    NextFree(L, x);
    CountMoved(L.use, L'.use, x, x + pages, Free, Whole);
    if pages == L.size[x] { AfterRun(L, x); }
  }

  /** Runs in use, and the pages inside them, keep their length; the new run is one run. */
  lemma CarvedSizes(L: Layout, i: nat, pages: nat)
    requires Fitting(L, i, pages)
    ensures var x, L' := L.lists[0][i], Carved(L, i, pages);
            && x + pages <= |L.size| == |L'.size| == |L'.use|
            && (forall y: nat | y < |L'.size| && y != x && L'.use[y] == Whole :: L'.size[y] == L.size[y])
            && (forall y: nat | x < y < x + pages :: L'.size[y] == 0)
  {
    hide Tiled, Listed, Carved, Fitting;
    CarvedIs(L, i, pages);
    CarvedInside(L, L.lists[0][i], pages, Carved(L, i, pages));
  }

  lemma CarvedInside(L: Layout, x: nat, pages: nat, L': Layout)
    requires Parts(L, L', x, pages) && Run(L, x) && L.use[x] == Free
    ensures forall y: nat | y < |L'.size| && y != x && L'.use[y] == Whole :: L'.size[y] == L.size[y]
    ensures forall y: nat | x < y < x + pages :: L'.size[y] == 0
  {
  }

  lemma AfterRun(L: Layout, x: nat)
    requires Tiled(L) && x < |L.size| && L.size[x] > 0
    ensures x + L.size[x] <= |L.size| && (x + L.size[x] < |L.size| ==> L.size[x + L.size[x]] > 0)
  {
    RunAt(L, x);
  }

  /** What follows a free run is not inside a run in use. */
  lemma NextFree(L: Layout, x: nat)
    requires Tiled(L) && x < |L.size| && L.size[x] > 0 && L.use[x] == Free
    ensures forall h: nat | x <= h < x + L.size[x] :: h < |L.use| && L.use[h] == Free
  {
    RunAt(L, x);
  }

  /** Splitting a free run makes no new neighbours. */
  lemma AllocationKeepsMerged(L: Layout, i: nat, pages: nat)
    requires Fitting(L, i, pages) && |L.use| == |L.size| && Merged(L)
    ensures var L' := Carved(L, i, pages); |L'.use| == |L'.size| && Merged(L')
  {
    hide Tiled, Listed, Carved;
    CarvedIs(L, i, pages);
    var x, L' := L.lists[0][i], Carved(L, i, pages);
    RunAt(L, x);
    forall h: nat | h < |L'.size| && L'.size[h] > 0 && L'.use[h] == Free && h + L'.size[h] < |L'.size|
      ensures L'.use[h + L'.size[h]] != Free
    {
      if h < x { RunsApart(L, h, x); }
    }
  }

  /** Freeing gives back exactly the pages of the run: the page counts are conserved. */
  lemma FreeingConserves(m: Memory, L: Layout, L': Layout, x: nat)
    requires Releasable(m, L, x) && Freed(L, L', x)
    ensures forall j: nat | j < |L.use| :: L'.use[j] == if x <= j < x + L.size[x] then Free else L.use[j]
    ensures Count(L'.use, Free) == Count(L.use, Free) + L.size[x]
    ensures Count(L'.use, L.use[x]) + L.size[x] == Count(L.use, L.use[x])
  {
    hide Inv, Tiled, Run, Count, Drop;
    InvParts(m, L, 0);
    forall j: nat | x <= j < x + L.size[x] ensures L.use[j] == L.use[x] { InteriorUse(L, x, j); }
    CountMoved(L.use, L'.use, x, x + L.size[x], L.use[x], Free);
  }

  // ----- when allocation fails -----

  /** `pages` free pages in a row. */
  ghost predicate Contiguous(L: Layout, x: nat, pages: nat) {
    x + pages <= |L.use| && forall j: nat | x <= j < x + pages :: L.use[j] == Free
  }

  /** Allocation fails exactly if no free run is long enough. */
  lemma FailsWithoutALongRun(m: Memory, L: Layout, pages: nat)
    requires Inv(m, L) && |L.lists| > 0
    ensures TooShort(L, |L.lists[0]|, pages) <==>
              forall h: nat | h < |L.size| && L.size[h] > 0 && h < |L.use| && L.use[h] == Free :: L.size[h] < pages
  {
    hide Chain, Run, Tiled, Distinct;
    InvParts(m, L, 0);
    ListedAt(L, 0);
    if TooShort(L, |L.lists[0]|, pages) {
      forall h: nat | h < |L.size| && L.size[h] > 0 && h < |L.use| && L.use[h] == Free ensures L.size[h] < pages {
        DescribedAt(m, L, h);
        var j: nat :| j < |L.lists[0]| && L.lists[0][j] == h;
      }
    }
  }

  lemma NextNotFree(L: Layout, h: nat)
    requires |L.use| == |L.size| && Merged(L) && h < |L.size| && L.size[h] > 0 && L.use[h] == Free && h + L.size[h] < |L.size|
    ensures L.use[h + L.size[h]] != Free
  {
  }

  /** In a pool without free neighbours, free pages in a row are in one run. */
  lemma RowInOneRun(L: Layout, h: nat, x: nat, pages: nat)
    requires Tiled(L) && Merged(L) && pages > 0 && Contiguous(L, x, pages)
    requires h <= x < h + L.size[h] && h < |L.size| && L.size[h] > 0
    ensures x + pages <= h + L.size[h]
  {
    RunAt(L, h);
    InteriorUse(L, h, x);
    if h + L.size[h] < |L.size| { NextNotFree(L, h); }
  }

  /** With PAGE_MERGE, allocation fails exactly if there are not `pages` contiguous free pages. */
  lemma FailsExactlyWhenFull(m: Memory, L: Layout, pages: nat)
    requires Inv(m, L) && |L.lists| > 0 && |L.use| == |L.size| && Merged(L) && pages > 0
    ensures TooShort(L, |L.lists[0]|, pages) <==> forall x: nat :: !Contiguous(L, x, pages)
  {
    hide Inv, Chain, Distinct, Merged, TooShort;
    InvParts(m, L, 0);
    FailsWithoutALongRun(m, L, pages);
    if TooShort(L, |L.lists[0]|, pages) {
      forall x: nat ensures !Contiguous(L, x, pages) {
        if Contiguous(L, x, pages) {
          var h := RunOf(L, x);
          RowInOneRun(L, h, x, pages);
        }
      }
    } else {
      var h: nat :| h < |L.size| && L.size[h] > 0 && L.use[h] == Free && pages <= L.size[h];
      NextFree(L, h);
      RunAt(L, h);
      assert Contiguous(L, h, pages);
    }
  }

  /** When everything has been freed again, one run of all pages is left. */
  lemma AllFreeIsOneRun(m: Memory, L: Layout)
    requires Inv(m, L) && |L.lists| > 0 && |L.use| == |L.size| && Merged(L) && forall j: nat | j < |L.use| :: L.use[j] == Free
    ensures L.size[0] == |L.size| && L.lists[0] == [0] && forall k: nat | 0 < k < |L.lists| :: L.lists[k] == []
  {
    hide Chain, Described;
    InvParts(m, L, 0);
    RunAt(L, 0);
    if L.size[0] < |L.size| { NextNotFree(L, 0); }
    DescribedAt(m, L, 0);
    OneElement(m, L);
    forall k: nat | 0 < k < |L.lists| ensures L.lists[k] == [] {
      ListedAt(L, k);
      if L.lists[k] != [] { FirstIsIn(L.lists[k]); }
    }
  }

  lemma FirstIsIn(l: seq<nat>)
    requires l != []
    ensures exists x: nat :: x in l && x == l[0]
  {
    assert l[0] in l;
  }

  lemma SamePlace(l: seq<nat>, i: nat, j: nat)
    requires Distinct(l) && i < |l| && j < |l| && l[i] == l[j]
    ensures i == j
  {
  }

  lemma OneElement(m: Memory, L: Layout)
    requires Inv(m, L) && |L.lists| > 0 && |L.use| == |L.size| && L.size[0] == |L.size| && L.use[0] == Free
    ensures L.lists[0] == [0]
  {
    hide Chain;
    InvParts(m, L, 0);
    DescribedAt(m, L, 0);
    ListedAt(L, 0);
    var l := L.lists[0];
    forall i: nat | i < |l| ensures l[i] == 0 {
      assert l[i] in l;
      RunAt(L, 0);
    }
    assert 0 in l;
    SamePlace(l, 0, |l| - 1);
  }
}
