/**
  Sequences of allocations and releases in Memory/ncx_slab.c, and what PAGE_MERGE is worth: with it, and only with it,
  a request for pages fails exactly if there are not so many free pages in a row.
 */
module SlabRuns {
  import opened Common
  import opened SlabLists
  import opened SlabPages

  datatype State = State(mem: Memory, layout: Layout)

  // ----- one call -----

  /** `ncx_slab_alloc_pages` takes the first pages of the first run on the free list that is long enough. */
  ghost predicate AllocStep(L: Layout, L': Layout) {
    exists i: nat, pages: nat :: Fitting(L, i, pages) && TooShort(L, i, pages) && L' == Carved(L, i, pages)
  }

  /** `ncx_slab_free_pages` of a run in use. */
  ghost predicate ReleaseStep(merge: bool, L: Layout, L': Layout) {
    exists x: nat :: x < |L.size| == |L.use| && L.size[x] > 0 && L.use[x] != Free && FreeStep(merge, L, L', x)
  }

  /** The chunk layer lists pages in use and cuts them, and does not touch what is free. */
  ghost predicate ChunkStep(L: Layout, L': Layout) {
    L'.size == L.size && |L'.use| == |L.use| && forall i: nat | i < |L.use| :: L'.use[i] == Free <==> L.use[i] == Free
  }

  ghost predicate Step(merge: bool, s: State, s': State) {
    Inv(s'.mem, s'.layout) &&
    (AllocStep(s.layout, s'.layout) || ReleaseStep(merge, s.layout, s'.layout) || ChunkStep(s.layout, s'.layout))
  }

  /** States one after the other, from `ncx_slab_init` on. */
  ghost predicate History(merge: bool, t: seq<State>) {
    && |t| > 0
    && (exists count: nat, tags: seq<nat> :: Starts(t[0], count, tags))
    && forall i: nat | i + 1 < |t| :: Step(merge, t[i], t[i + 1])
  }

  ghost predicate Starts(s: State, count: nat, tags: seq<nat>) {
    && count > 0 && (forall k: nat | k < |tags| :: tags[k] > 0)
    && s.mem == StartMemory(count, |tags|) && s.layout == StartLayout(count, tags)
  }

  /** A request is refused exactly if there are not so many free pages in a row. */
  ghost predicate Exact(L: Layout) {
    |L.lists| > 0 && forall pages: nat | pages > 0 :: TooShort(L, |L.lists[0]|, pages) <==> forall x: nat :: !Contiguous(L, x, pages)
  }

  // ----- with PAGE_MERGE -----

  lemma ReleasedThenJoined(m: Memory, L: Layout, x: nat, a: nat, L1: Layout, L': Layout)
    requires Releasable(m, L, x) && Merged(L) && JoinedBefore(Released(L, x), x, a, L1) && JoinedBehind(L1, a, L')
    ensures |L'.use| == |L'.size| && Merged(L')
  {
    hide Inv, Chain, Run, Tiled, Distinct, Listed, Released, Joined, Merged, AlmostMerged;
    InvParts(m, L, 0);
    ReleasedTiled(L, x);
    ReleasedIsFreed(m, L, x);
    var R := Released(L, x);
    if 0 < x && R.use[x - 1] == Free {
      MergedAfterJoin(L, a, x);
      JoinedTiled(R, a, x);
      JoinedSizes(R, a, x);
    } else {
      MergedAfterRelease(L, x);
    }
    assert AlmostMerged(L1, a);
    if a + L1.size[a] < |L1.use| && L1.use[a + L1.size[a]] == Free {
      NextBegins(L1, a);
      JoinedMerged(L1, a, a + L1.size[a]);
      JoinedSizes(L1, a, a + L1.size[a]);
    } else {
      NothingToJoin(L1, a);
    }
  }

  lemma JoinedSizes(L: Layout, a: nat, b: nat)
    requires Neighbours(L, a, b) && |L.lists| > 0
    ensures var J := Joined(L, a, b); |J.lists| == |L.lists| && J.use == L.use && |J.size| == |L.size| && J.size[a] == L.size[a] + L.size[b]
  {
    hide Drop;
  }

  lemma StepKeepsMerged(s: State, s': State)
    requires Inv(s.mem, s.layout) && Merged(s.layout) && Step(true, s, s')
    ensures |s'.layout.use| == |s'.layout.size| && Merged(s'.layout)
  {
    hide Inv, Fitting, Carved, JoinedBefore, JoinedBehind, Merged, TooShort, Run;
    ListsExist(s.mem, s.layout);
    InvParts(s.mem, s.layout, 0);
    var L, L' := s.layout, s'.layout;
    if AllocStep(L, L') {
      var i: nat, pages: nat :| Fitting(L, i, pages) && TooShort(L, i, pages) && L' == Carved(L, i, pages);
      AllocationKeepsMerged(L, i, pages);
    } else if ReleaseStep(true, L, L') {
      var x: nat :| x < |L.size| == |L.use| && L.size[x] > 0 && L.use[x] != Free && FreeStep(true, L, L', x);
      var a: nat, L1: Layout :| JoinedBefore(Released(L, x), x, a, L1) && JoinedBehind(L1, a, L');
      ReleasedThenJoined(s.mem, L, x, a, L1, L');
    } else {
      StaysMerged(L, L');
    }
  }

  lemma StaysMerged(L: Layout, L': Layout)
    requires |L.use| == |L.size| && Merged(L) && ChunkStep(L, L')
    ensures |L'.use| == |L'.size| && Merged(L')
  {
  }

  lemma {:induction false} HistoryKeepsMerged(t: seq<State>)
    requires History(true, t)
    ensures var s := t[|t| - 1]; Inv(s.mem, s.layout) && |s.layout.use| == |s.layout.size| && Merged(s.layout)
    decreases |t|
  {
    hide Inv, Merged, Step, Chain;
    if |t| == 1 {
      var count: nat, tags: seq<nat> :| Starts(t[0], count, tags);
      StartIsInv(t[0].mem, t[0].layout, count, tags);
    } else {
      var n := |t| - 1;
      StepIs(true, t, n - 1);
      HistoryKeepsMerged(t[..n]);
      StepKeepsMerged(t[n - 1], t[n]);
    }
  }

  lemma StepIs(merge: bool, t: seq<State>, i: nat)
    requires History(merge, t) && i + 1 < |t|
    ensures Step(merge, t[i], t[i + 1]) && Inv(t[i + 1].mem, t[i + 1].layout) && History(merge, t[..i + 1])
  {
    hide Inv, Starts, AllocStep, ReleaseStep, ChunkStep;
    var u := t[..i + 1];
    assert u[0] == t[0];
    forall j: nat | j + 1 < |u| ensures Step(merge, u[j], u[j + 1]) {
      assert u[j] == t[j] && u[j + 1] == t[j + 1];
    }
  }

  lemma MergedIsExact(s: State)
    requires Inv(s.mem, s.layout) && |s.layout.use| == |s.layout.size| && Merged(s.layout)
    ensures Exact(s.layout)
  {
    hide Inv, Merged, TooShort, Contiguous;
    ListsExist(s.mem, s.layout);
    forall pages: nat | pages > 0
      ensures TooShort(s.layout, |s.layout.lists[0]|, pages) <==> forall x: nat :: !Contiguous(s.layout, x, pages)
    {
      FailsExactlyWhenFull(s.mem, s.layout, pages);
    }
  }

  // ----- without -----

  /** Two pages: taken one by one, and given back one by one. */
  const TWO: Layout := Layout([2, 0], [Free, Free], [[0]], [0])
  const FIRST: Layout := Layout([1, 1], [Whole, Free], [[1]], [0])
  const BOTH: Layout := Layout([1, 1], [Whole, Whole], [[]], [0])
  const SECOND: Layout := Layout([1, 1], [Free, Whole], [[0]], [0])
  const NONE: Layout := Layout([1, 1], [Free, Free], [[1, 0]], [0])

  lemma TwoPages()
    ensures StartLayout(2, []) == TWO && !TooShort(TWO, 1, 1) && forall i: nat :: Fitting(TWO, i, 1) ==> i == 0
    ensures Fitting(TWO, 0, 1) && TooShort(TWO, 0, 1) && Carved(TWO, 0, 1) == FIRST
  {
    assert TWO.size[TWO.lists[0][0]] == 2;
    var L := Carved(TWO, 0, 1);
    assert L.use[0] == Whole && L.use[1] == TWO.use[1];
    assert L.lists[0] == [1];
  }

  lemma OnePage()
    ensures !TooShort(FIRST, 1, 1) && forall i: nat :: Fitting(FIRST, i, 1) ==> i == 0
    ensures Fitting(FIRST, 0, 1) && TooShort(FIRST, 0, 1) && Carved(FIRST, 0, 1) == BOTH
  {
    assert FIRST.size[FIRST.lists[0][0]] == 1;
    var L := Carved(FIRST, 0, 1);
    assert L.use[0] == FIRST.use[0] && L.use[1] == Whole;
    assert L.lists[0] == [];
    assert L.lists == [[]];
  }

  lemma GiveBackFirst()
    ensures Released(BOTH, 0) == SECOND
  {
    var L := Released(BOTH, 0);
    assert L.use[0] == Free && L.use[1] == BOTH.use[1];
    assert |L.lists| == 1 && L.lists[0] == [0];
    assert L.lists == [[0]];
  }

  lemma GiveBackSecond()
    ensures Released(SECOND, 1) == NONE
  {
    var L := Released(SECOND, 1);
    assert L.use[0] == SECOND.use[0] && L.use[1] == Free;
    assert |L.lists| == 1 && L.lists[0] == [1, 0];
    assert L.lists == [[1, 0]];
  }

  /** Both pages are free, but no request for two can be met. */
  lemma NotExact()
    ensures TooShort(NONE, |NONE.lists[0]|, 2) && Contiguous(NONE, 0, 2) && !Exact(NONE)
    ensures forall i: nat :: !Fitting(NONE, i, 2)
  {
    assert NONE.lists[0] == [1, 0];
    assert NONE.size[1] == 1 && NONE.size[0] == 1;
    forall j: nat | j < 2 ensures NONE.lists[0][j] < |NONE.size| && NONE.size[NONE.lists[0][j]] < 2 {
    }
    assert Contiguous(NONE, 0, 2);
  }

  /** The state after an allocation. */
  lemma TakeRun(s: State, i: nat, pages: nat) returns (s': State)
    requires Inv(s.mem, s.layout) && Fitting(s.layout, i, pages) && TooShort(s.layout, i, pages)
    ensures s'.layout == Carved(s.layout, i, pages) && Step(false, s, s') && Inv(s'.mem, s'.layout)
  {
    hide Inv, Carved, Fitting, TooShort, CarvedMemory, CarvedLinks;
    CarvedIs(s.layout, i, pages);
    CarvedKeepsInv(s.mem, s.layout, i, pages);
    s' := State(CarvedMemory(s.mem, s.layout.lists[0][i], s.layout.size[s.layout.lists[0][i]], pages), Carved(s.layout, i, pages));
    assert AllocStep(s.layout, s'.layout);
  }

  /** The state after a release. */
  lemma ReleaseRunAt(s: State, x: nat) returns (s': State)
    requires Releasable(s.mem, s.layout, x)
    ensures s'.layout == Released(s.layout, x) && Step(false, s, s') && Inv(s'.mem, s'.layout)
  {
    hide Inv, Released, ReleasedMemory;
    ReleasedKeepsInv(s.mem, s.layout, x);
    s' := State(ReleasedMemory(s.mem, x, s.layout.size[x]), Released(s.layout, x));
    assert FreeStep(false, s.layout, s'.layout, x);
  }

  lemma NotExactWithout() returns (t: seq<State>)
    ensures History(false, t) && t[|t| - 1].layout == NONE
  {
    hide Inv, Fitting, Carved, Released, TooShort, Step;
    TwoPages();
    OnePage();
    GiveBackFirst();
    GiveBackSecond();
    var s0 := State(StartMemory(2, 0), TWO);
    StartIsInv(s0.mem, s0.layout, 2, []);
    var s1 := TakeRun(s0, 0, 1);
    var s2 := TakeRun(s1, 0, 1);
    InvParts(s2.mem, s2.layout, 0);
    var s3 := ReleaseRunAt(s2, 0);
    InvParts(s3.mem, s3.layout, 0);
    var s4 := ReleaseRunAt(s3, 1);
    t := [s0, s1, s2, s3, s4];
    assert Starts(t[0], 2, []);
  }

  /** Requests are refused exactly when they must be, whatever has happened before, if and only if runs are joined. */
  lemma ExactExactlyWithMerge(merge: bool)
    ensures (forall t: seq<State> | History(merge, t) :: Exact(t[|t| - 1].layout)) <==> merge
  {
    hide Starts, Step, Exact, Merged, Inv;
    if merge {
      forall t: seq<State> | History(merge, t) ensures Exact(t[|t| - 1].layout) {
        HistoryKeepsMerged(t);
        MergedIsExact(t[|t| - 1]);
      }
    } else {
      var t := NotExactWithout();
      NotExact();
      assert !Exact(t[|t| - 1].layout);
    }
  }

  /** Those five calls on a real pool, built without PAGE_MERGE; the last one fails. */
  method FailsThoughContiguous() returns (pool: PagePool, r: Ref)
    ensures fresh(pool) && pool.Valid() && !pool.merge && pool.layout == NONE
    ensures r == Null && Contiguous(pool.layout, 0, 2)
  {
    hide Inv, Fitting, Carved, Released, TooShort, Freed, SlabsKept;
    TwoPages();
    OnePage();
    GiveBackFirst();
    GiveBackSecond();
    NotExact();
    ghost var place;
    pool := new PagePool(false, 2, []);
    r, place := pool.AllocPages(1);
    r, place := pool.AllocPages(1);
    InvParts(pool.mem, pool.layout, 0);
    pool.FreePages(0, 1);
    InvParts(pool.mem, pool.layout, 0);
    pool.FreePages(1, 1);
    r, place := pool.AllocPages(2);
  }
}
