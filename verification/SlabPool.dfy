/**
  Allocation and release in Memory/ncx_slab.c, over chunks and runs of whole pages.  A pointer is its distance from the
  first page of the pool.
 */
module SlabPool {
  import opened Common
  import opened Bits
  import opened SlabLists
  import opened SlabPages
  import opened SlabBitmaps
  import opened SlabClasses
  import opened SlabChunks

  const MAX_SIZE: nat := 2048

  datatype Pointer = Nowhere | Offset(p: nat)

  // ----- where chunks lie -----

  ghost function Address(h: Heap, x: nat, c: nat): nat
    requires IsPage(h, x)
  {
    x * PAGESIZE + c * Pow2(ShiftAt(h, x))
  }

  /** A chunk in use is aligned to its size, within its page, and behind the page's own bitmap. */
  lemma ChunkIsAligned(h: Heap, x: nat, c: nat)
    requires IsPage(h, x) && Live(h, x, c)
    ensures var s := ShiftAt(h, x);
            && Address(h, x, c) % Pow2(s) == 0 && Address(h, x, c) + Pow2(s) <= (x + 1) * PAGESIZE
            && IsShift(s) && (s < 6 ==> x * PAGESIZE + Chunks(s) / 8 <= Address(h, x, c))
  {
    ChunkInRange(h, x, c);
    hide Pow2, Chunks, Reserved, Live, ShiftOf;
    var s := ShiftAt(h, x);
    Constants(s);
    Aligned(x, c, Chunks(s), Pow2(s));
    Rows(Reserved(s), c, Pow2(s));
  }

  lemma ChunkInRange(h: Heap, x: nat, c: nat)
    requires Live(h, x, c)
    ensures IsPage(h, x) && IsShift(ShiftAt(h, x)) && Reserved(ShiftAt(h, x)) <= c < Chunks(ShiftAt(h, x))
  {
    hide Taken, Words, ShiftOf, Reserved, Chunks;
  }

  lemma Aligned(x: nat, c: nat, chunks: nat, size: nat)
    requires chunks * size == PAGESIZE && c < chunks && size > 0
    ensures (x * PAGESIZE + c * size) % size == 0 && x * PAGESIZE + c * size + size <= (x + 1) * PAGESIZE
  {
    Rows(c, chunks, size);
    Regroup(x, c, chunks, size);
    Place(x * chunks + c, 0, size);
  }

  lemma Regroup(x: nat, c: nat, chunks: nat, size: nat)
    ensures x * (chunks * size) + c * size == (x * chunks + c) * size
  {
  }

  /** Different chunks in use have no byte in common. */
  lemma ChunksAreDisjoint(h: Heap, x: nat, c: nat, y: nat, d: nat)
    requires IsPage(h, x) && IsPage(h, y) && Live(h, x, c) && Live(h, y, d) && (x != y || c != d)
    ensures || Address(h, x, c) + Pow2(ShiftAt(h, x)) <= Address(h, y, d)
            || Address(h, y, d) + Pow2(ShiftAt(h, y)) <= Address(h, x, c)
  {
    hide Pow2, Chunks, Reserved, Taken, Words, ShiftOf, Live;
    ChunkIsAligned(h, x, c);
    ChunkIsAligned(h, y, d);
    Rows(c, d, Pow2(ShiftAt(h, x)));
    Rows(d, c, Pow2(ShiftAt(h, x)));
  }

  /** The page and the chunk of an address. */
  lemma WhereItIs(h: Heap, x: nat, c: nat)
    requires IsPage(h, x) && Live(h, x, c)
    ensures var p := Address(h, x, c); p / PAGESIZE == x && p % PAGESIZE / Pow2(ShiftAt(h, x)) == c
  {
    hide Pow2, Chunks, Reserved, Taken, Words, ShiftOf;
    var s := ShiftAt(h, x);
    Constants(s);
    Rows(c, Chunks(s), Pow2(s));
    Place(x, c * Pow2(s), PAGESIZE);
    Place(c, 0, Pow2(s));
  }

  // ----- the size class -----

  /** The smallest class whose chunks are large enough. */
  ghost predicate Fit(minShift: nat, size: nat, s: nat) {
    minShift <= s <= 11 && size <= Pow2(s) && (s == minShift || Pow2(s - 1) < size)
  }

  method ClassOf(minShift: nat, size: nat) returns (s: nat)
    requires IsShift(minShift) && size < MAX_SIZE
    ensures Fit(minShift, size, s)
  {
    if size <= Pow2(minShift) {
      return minShift;
    }
    hide Pow2;
    PowersGrow(0, minShift);
    s := 1;
    assert Pow2(0) == 1 && Pow2(1) == 2 by { FirstPowers(); }
    var rest := (size - 1) / 2;
    while rest > 0
      invariant s >= 1 && Pow2(s) * rest <= size - 1 < Pow2(s) * rest + Pow2(s) && Pow2(s - 1) <= size - 1
    {
      Halved(s, rest);
      s := s + 1;
      rest := rest / 2;
    }
    NotAbove(s, minShift, size);
  }

  lemma FirstPowers()
    ensures Pow2(0) == 1 && Pow2(1) == 2 && Pow2(11) == MAX_SIZE
  {
    assert Pow2(4) == 16 && Pow2(8) == 256;
  }

  lemma Halved(s: nat, rest: nat)
    requires rest > 0
    ensures Pow2(s) <= Pow2(s) * rest
    ensures Pow2(s + 1) * (rest / 2) <= Pow2(s) * rest && Pow2(s) * rest + Pow2(s) <= Pow2(s + 1) * (rest / 2) + Pow2(s + 1)
  {
    hide Pow2;
    assert Pow2(s + 1) == 2 * Pow2(s) by { NextPower(s); }
    var p, q, r := Pow2(s), rest / 2, rest % 2;
    assert p * rest == 2 * (p * q) + p * r;
    assert 2 * p * q == 2 * (p * q);
  }

  lemma NextPower(s: nat)
    ensures Pow2(s + 1) == 2 * Pow2(s)
  {
  }

  lemma NotAbove(s: nat, minShift: nat, size: nat)
    requires s >= 1 && Pow2(s - 1) < size < MAX_SIZE && Pow2(minShift) < size <= Pow2(s)
    ensures minShift <= s <= 11
  {
    hide Pow2;
    FirstPowers();
    if s > 11 { PowersGrow(11, s - 1); }
    if s < minShift { PowersGrow(s, minShift); }
  }

  // ----- taking a chunk -----

  /** Takes the first free chunk of a page whose bitmap is kept in the page. */
  method MarkSmall(ws: seq<nat>) returns (now: seq<nat>, n: nat, i: nat, full: bool)
    requires Fits(ws, 64) && Room(ws, 64)
    ensures n < |ws| && i < 64 && !Taken(ws, 64, n * 64 + i) && now == ws[n := WithBit(ws[n], i, true)]
    ensures full <==> !Room(now, 64)
  {
    hide Room, Taken, WithBit, Bit, Pow2;
    n, i := FirstClear(ws, 64);
    now := ws[n := WithBit(ws[n], i, true)];
    FitsAfter(ws, 64, n, i, true);
    full := AllFull(now, 64, n);
  }

  /** Takes the first free chunk of a page whose bitmap is one word, or half of it. */
  method MarkWord(w: nat, width: nat) returns (now: nat, i: nat, full: bool)
    requires width > 0 && Fits([w], width) && Room([w], width)
    ensures i < width && !Taken([w], width, i) && now == WithBit(w, i, true)
    ensures full <==> !Room([now], width)
  {
    hide Room, Taken, WithBit, Bit, Pow2;
    FullWords([w], width);
    i := FirstFree(w, width);
    TakenAt([w], width, 0, i);
    assert 0 * width + i == i;
    now := WithBit(w, i, true);
    WithBitFits(w, i, true, width);
    FullWords([now], width);
    full := now == Pow2(width) - 1;
    assert [now][0] == now;
  }

  /** The bitmap of page `x` with the first free chunk taken; `full` says whether it was the last one. */
  method MarkChunk(m: Memory, bitmaps: seq<seq<nat>>, x: nat, s: nat, ghost L: Layout)
    returns (m': Memory, bitmaps': seq<seq<nat>>, c: nat, full: bool)
    requires WellCut(Heap(m, L, bitmaps), x) && HasRoom(Heap(m, L, bitmaps), x) && s == ShiftAt(Heap(m, L, bitmaps), x) && Inv(m, L)
    ensures var h, h' := Heap(m, L, bitmaps), Heap(m', L, bitmaps');
            && Inv(m', L) && Elsewhere(h, h', x) && IsPage(h', x) && WellCut(h', x) && ShiftAt(h', x) == s && OneChunk(h, h', x, c, true)
            && !Live(h, x, c) && Live(h', x, c) && (full <==> !HasRoom(h', x))
  {
    hide Inv, Elsewhere, OneChunk, Live, Room, Taken, WithBit, Bit, Fits, Reserved, Pow2, Chunks;
    ghost var h := Heap(m, L, bitmaps);
    Constants(s);
    var n, i := 0, 0;
    m', bitmaps' := m, bitmaps;
    if s < 6 {
      var row;
      row, n, i, full := MarkSmall(bitmaps[x]);
      bitmaps' := bitmaps[x := row];
    } else if s == 6 {
      var w;
      w, i, full := MarkWord(m.pages[x].slab, 64);
      m' := SetSlab(m, x, w);
    } else {
      var w;
      w, i, full := MarkWord(m.pages[x].slab / MAP, Chunks(s));
      m' := SetSlab(m, x, m.pages[x].slab % MAP + MAP * w);
    }
    c := n * Width(s) + i;
    assert Heap(m', L, bitmaps') == WithWord(h, s, x, n, WithBit(WordsAt(h, x)[n], i, true));
    ChunkMarked(h, s, x, n, i);
  }

  lemma ChunkMarked(h: Heap, s: nat, x: nat, n: nat, i: nat)
    requires WellCut(h, x) && s == ShiftAt(h, x) && n < |WordsAt(h, x)| && i < Width(s) && Inv(h.mem, h.layout)
    requires !Taken(WordsAt(h, x), Width(s), n * Width(s) + i)
    ensures IsShift(s) && (s < 6 ==> n < |h.bitmaps[x]|)
    ensures var h', c := WithWord(h, s, x, n, WithBit(WordsAt(h, x)[n], i, true)), n * Width(s) + i;
            && Inv(h'.mem, h'.layout) && Elsewhere(h, h', x) && h'.layout == h.layout && WellCut(h', x) && ShiftAt(h', x) == s
            && WordsAt(h', x) == WordsAt(h, x)[n := WithBit(WordsAt(h, x)[n], i, true)]
            && OneChunk(h, h', x, c, true) && !Live(h, x, c) && Live(h', x, c)
  {
    hide Inv, Elsewhere, Taken, WithBit, Bit, Fits, Reserved, Width, Chunks, WordCount, WithWord;
    var c := n * Width(s) + i;
    BitChanged(h, s, x, n, i, true);
    WithBitPositive(WordsAt(h, x)[n], i);
    WithWordIs(h, s, x, n, WithBit(WordsAt(h, x)[n], i, true));
  }

  lemma WithBitPositive(w: nat, i: nat)
    ensures WithBit(w, i, true) > 0
  {
    BitOfWithBit(w, i, true, i);
    NoBits(i);
  }

  /** `page` is the first on the list of its class; it leaves the list if it has no free chunk left. */
  method TakeChunk(ghost minShift: nat, m: Memory, bitmaps: seq<seq<nat>>, x: nat, s: nat, ghost L: Layout)
    returns (m': Memory, bitmaps': seq<seq<nat>>, c: nat, ghost L': Layout)
    requires HeapOk(minShift, Heap(m, L, bitmaps)) && minShift <= s <= 11
    requires ListOf(minShift, s) < |L.lists| && x in L.lists[ListOf(minShift, s)]
    ensures var h, h' := Heap(m, L, bitmaps), Heap(m', L', bitmaps');
            && HeapOk(minShift, h') && IsPage(h, x) && IsPage(h', x) && ShiftAt(h', x) == s
            && ShiftAt(h, x) == s && Elsewhere(h, h', x) && !Live(h, x, c) && OneChunk(h, h', x, c, true)
    ensures L'.use == L.use && L'.size == L.size
  {
    hide Inv, Elsewhere, OneChunk, Live, HasRoom, WellCut, ShiftOf, Words, OnlyOn, Classes, Distinct, SlabsOk, TakenOff, Drop,
         Unlinked, ListOf, Occupied;
    ghost var h := Heap(m, L, bitmaps);
    ghost var k := ListOf(minShift, s);
    FirstHasRoom(minShift, h, s, x);
    var full;
    m', bitmaps', c, full := MarkChunk(m, bitmaps, x, s, L);
    L' := L;
    ghost var h1 := Heap(m', L, bitmaps');
    if full {
      TakenOffPage(h1, k, x);
      m' := TakenOff(m', x, Tag(s));
      L' := OffList(L, k, x);
      TakenLeavesList(minShift, h, h1, Heap(m', L', bitmaps'), x, c);
      RelistedIs(h1, Heap(m', L', bitmaps'), x);
      SameLive(h, h1, Heap(m', L', bitmaps'), x, c, true);
      ElsewhereTwice(h, h1, Heap(m', L', bitmaps'), x);
    } else {
      TakenKeepsPlace(minShift, h, h1, x, c);
    }
  }

  lemma SameLive(h: Heap, h1: Heap, h2: Heap, x: nat, c: nat, live: bool)
    requires OneChunk(h, h1, x, c, live) && forall y: nat, d: nat :: Live(h2, y, d) <==> Live(h1, y, d)
    ensures OneChunk(h, h2, x, c, live)
  {
    hide Live;
  }

  /** A page on the list of a class has a free chunk, so the search ends at the first one. */
  lemma FirstHasRoom(minShift: nat, h: Heap, s: nat, x: nat)
    requires HeapOk(minShift, h) && minShift <= s <= 11
    requires ListOf(minShift, s) < |h.layout.lists| && x in h.layout.lists[ListOf(minShift, s)]
    ensures IsPage(h, x) && WellCut(h, x) && ShiftAt(h, x) == s && HasRoom(h, x)
    ensures OnlyOn(h.layout, ListOf(minShift, s), x, true) && IsShift(minShift)
    ensures 0 < ListOf(minShift, s) < |h.layout.lists| == |h.layout.tags| && h.layout.tags[ListOf(minShift, s)] == Tag(s)
  {
    hide Inv, WellCut, HasRoom, ShiftOf, Words, Occupied, SlabsOk;
    ClassesAt(minShift, h, -1, s);
    InvParts(h.mem, h.layout, 0);
    ListedAt(h.layout, ListOf(minShift, s));
    SlabOkAt(minShift, h, -1, x);
  }

  // ----- giving a chunk back -----

  /** What is known of a page with a chunk in use. */
  lemma LivePage(minShift: nat, h: Heap, x: nat, c: nat)
    requires HeapOk(minShift, h) && Live(h, x, c)
    ensures IsPage(h, x) && WellCut(h, x) && IsShift(minShift) && minShift <= ShiftAt(h, x) <= 11 && IsShift(ShiftAt(h, x))
    ensures var s, k := ShiftAt(h, x), ListOf(minShift, ShiftAt(h, x));
            && 0 < k < |h.layout.lists| == |h.layout.tags| && h.layout.tags[k] == Tag(s) == h.mem.pages[x].tag
            && OnlyOn(h.layout, k, x, HasRoom(h, x))
  {
    hide Inv, SlabsOk, HasRoom, Occupied, ShiftOf, Words, Taken, Fits, OnlyOn, ListOf, Reserved, Chunks, Width, WordCount;
    SlabOkAt(minShift, h, -1, x);
    ClassesAt(minShift, h, -1, ShiftAt(h, x));
  }

  /** A full page is known by its missing link, or by its bitmap if that is the `slab` word. */
  method IsFull(ghost minShift: nat, m: Memory, x: nat, s: nat, ghost h: Heap, ghost c: nat) returns (full: bool)
    requires HeapOk(minShift, h) && Live(h, x, c) && s == ShiftAt(h, x) && m == h.mem
    ensures WellCut(h, x) && (full <==> !HasRoom(h, x))
  {
    hide HeapOk, Inv, Live, Room, Taken, Reserved, Chunks, WordCount, Fits, SlabsOk, ListOf, Pow2, OnlyOn;
    LivePage(minShift, h, x, c);
    if s == 6 {
      BusyWord();
      FullWords([m.pages[x].slab], 64);
      full := m.pages[x].slab == BUSY;
      assert [m.pages[x].slab][0] == m.pages[x].slab;
    } else {
      NextTellsRoom(minShift, h, x, c);
      full := m.pages[x].next == Null;
    }
  }

  lemma InvOf(minShift: nat, h: Heap)
    requires HeapOk(minShift, h)
    ensures Inv(h.mem, h.layout) && SlabsOk(minShift, h, -1)
  {
  }

  lemma NextTellsRoom(minShift: nat, h: Heap, x: nat, c: nat)
    requires HeapOk(minShift, h) && Live(h, x, c)
    ensures WellCut(h, x) && (h.mem.pages[x].next != Null <==> HasRoom(h, x))
  {
    LivePage(minShift, h, x, c);
    hide HeapOk, Inv, Live, HasRoom, WellCut, SlabsOk, ListOf;
    InvOf(minShift, h);
    SlabIsOnePage(h.mem, h.layout, x);
    NextTells(h.mem, h.layout, x);
    var k := ListOf(minShift, ShiftAt(h, x));
    assert x in h.layout.lists[k] <==> HasRoom(h, x);
  }

  /** NCX_SLAB_BUSY has all 64 bits set. */
  lemma BusyWord()
    ensures Pow2(64) - 1 == BUSY
  {
    SmallPower();
    hide Pow2;
    PowersMultiply(8, 8);
    PowersMultiply(16, 16);
    PowersMultiply(32, 32);
  }

  lemma SmallPower()
    ensures Pow2(8) == 256
  {
    assert Pow2(4) == 16;
  }

  lemma {:induction false} PowersMultiply(a: nat, b: nat)
    ensures Pow2(a + b) == Pow2(a) * Pow2(b)
  {
    if b > 0 {
      PowersMultiply(a, b - 1);
      assert Pow2(a + b) == 2 * Pow2(a + b - 1);
    }
  }

  /** Puts a page in front of the list of its class. */
  method PushPage(m: Memory, k: nat, x: nat, tag: nat) returns (now: Memory)
    requires k < |m.heads| && x < |m.pages| && Valid(m, m.heads[k].next) && m.heads[k].next != Page(x)
    ensures now == Pushed(m, k, x, tag)
  {
    var first := m.heads[k].next;
    now := SetNext(m, Page(x), first);
    now := SetNext(now, Head(k), Page(x));
    now := SetPrev(now, Page(x), Head(k), tag);
    now := SetPrev(now, first, Page(x), tag);
  }

  lemma NotFirst(h: Heap, k: nat, x: nat)
    requires Inv(h.mem, h.layout) && 0 < k < |h.layout.lists| && OnlyOn(h.layout, k, x, false)
    ensures k < |h.mem.heads| && Valid(h.mem, h.mem.heads[k].next) && h.mem.heads[k].next != Page(x)
  {
    hide Inv, Chain;
    InvParts(h.mem, h.layout, k);
    ChainHead(h.mem, k, h.layout.lists[k], h.layout.tags[k]);
    var l := h.layout.lists[k];
    assert l != [] ==> l[0] in l;
  }

  lemma NothingElsewhere(h: Heap, x: int)
    requires Sized(h)
    ensures Elsewhere(h, h, x)
  {
  }

  lemma ElsewhereTwice(h: Heap, h1: Heap, h2: Heap, x: int)
    requires Elsewhere(h, h1, x) && Elsewhere(h1, h2, x)
    ensures Elsewhere(h, h2, x)
  {
    forall y: nat | y < |h.bitmaps| && y != x && h.layout.use[y] == Slab ensures SameCut(h, h2, y) {
      assert SameCut(h, h1, y) && SameCut(h1, h2, y);
    }
  }

  /** The chunk was the only one in use, if its page is not occupied without it. */
  lemma LastChunk(h: Heap, h': Heap, x: nat, c: nat)
    requires WellCut(h', x) && OneChunk(h, h', x, c, false)
    ensures Occupied(h', x) <==> exists d: nat :: d != c && Live(h, x, d)
  {
    hide WellCut, Live, Occupied;
    if Occupied(h', x) {
      var d := OccupiedByLive(h', x);
      assert Live(h, x, d);
    }
    if d: nat :| d != c && Live(h, x, d) {
      assert Live(h', x, d);
      LiveOccupies(h', x, d);
    }
  }

  /** The bitmap of page `x` without one chunk, before the page is given back if it has no other chunk in use. */
  ghost function Without(h: Heap, s: nat, x: nat, n: nat, i: nat): Heap
    requires IsPage(h, x) && s == ShiftAt(h, x) && n < |WordsAt(h, x)|
  {
    WithWord(h, s, x, n, WithBit(WordsAt(h, x)[n], i, false))
  }

  lemma WithoutIs(h: Heap, x: nat, c: nat, s: nat, n: nat, i: nat)
    requires WellCut(h, x) && Live(h, x, c) && s == ShiftAt(h, x) && n == c / Width(s) && i == c % Width(s)
    ensures n < |WordsAt(h, x)| && i < Width(s) && (s >= 6 ==> n == 0 && i == c)
    ensures var h' := Without(h, s, x, n, i);
            && Elsewhere(h, h', x) && h'.layout == h.layout && WellCut(h', x) && ShiftAt(h', x) == s
            && WordsAt(h', x) == WordsAt(h, x)[n := WithBit(WordsAt(h, x)[n], i, false)]
            && OneChunk(h, h', x, c, false) && !Taken(WordsAt(h', x), Width(s), c)
            && (Inv(h.mem, h.layout) && (s == 6 ==> WordsAt(h', x)[0] > 0) ==> Inv(h'.mem, h.layout))
            && (Occupied(h', x) <==> exists d: nat :: d != c && Live(h, x, d))
  {
    PlaceOfLive(h, x, c, s);
    hide Inv, Elsewhere, WithBit, Bit, Fits, Taken, WithWord, Words, ShiftOf, OneChunk, Reserved, Width, Chunks,
         WordCount, Live, WellCut, Occupied;
    BitChanged(h, s, x, n, i, false);
    TakenAfter(WordsAt(h, x), Width(s), n, i, false);
    WithWordIs(h, s, x, n, WithBit(WordsAt(h, x)[n], i, false));
    LastChunk(h, Without(h, s, x, n, i), x, c);
  }

  /** The word and the bit of a chunk. */
  lemma PlaceOfLive(h: Heap, x: nat, c: nat, s: nat)
    requires WellCut(h, x) && Live(h, x, c) && s == ShiftAt(h, x)
    ensures c / Width(s) < |WordsAt(h, x)| && c % Width(s) < Width(s) && c == (c / Width(s)) * Width(s) + c % Width(s)
    ensures Reserved(s) <= c && IsPage(h, x)
    ensures s >= 6 ==> c / Width(s) == 0 && c % Width(s) == c
  {
    hide Inv, Fits, Taken, Words, ShiftOf, Reserved, Width, Chunks, WordCount, Pow2;
    Constants(s);
    Split(c, Width(s), WordCount(s));
    if s >= 6 { Place(0, c, Width(s)); }
  }

  method ClearBit(m: Memory, bitmaps: seq<seq<nat>>, x: nat, s: nat, c: nat, ghost L: Layout)
    returns (m': Memory, bitmaps': seq<seq<nat>>, used: bool)
    requires Inv(m, L) && WellCut(Heap(m, L, bitmaps), x) && s == ShiftAt(Heap(m, L, bitmaps), x) && Live(Heap(m, L, bitmaps), x, c)
    ensures var h, h' := Heap(m, L, bitmaps), Heap(m', L, bitmaps');
            && Inv(m', L) && Elsewhere(h, h', x) && (used <==> exists d: nat :: d != c && Live(h, x, d))
            && (used ==> && IsPage(h', x) && WellCut(h', x) && ShiftAt(h', x) == s && Occupied(h', x)
                         && OneChunk(h, h', x, c, false) && !Taken(WordsAt(h', x), Width(s), c))
  {
    hide Inv, Elsewhere, OneChunk, Live, Taken, WithBit, Bit, Fits, Reserved, Pow2, Chunks, InUse, WordCount;
    ghost var h := Heap(m, L, bitmaps);
    ghost var n0, i0 := c / Width(s), c % Width(s);
    WithoutIs(h, x, c, s, n0, i0);
    Constants(s);
    ghost var h' := Without(h, s, x, n0, i0);
    m', bitmaps' := m, bitmaps;
    if s < 6 {
      var n, i := c / 64, c % 64;
      var row: seq<nat> := bitmaps[x][n := WithBit(bitmaps[x][n], i, false)];
      bitmaps' := bitmaps[x := row];
      used := AnyUsed(row, 64, Reserved(s));
    } else if s == 6 {
      var w := WithBit(m.pages[x].slab, c, false);
      OneWord(w, 64);
      used := w > 0;
      if used {
        m' := SetSlab(m, x, w);
      } else {
        // the word 0 is not stored: ncx_slab_free_pages overwrites it first
        NothingElsewhere(h, x);
        return;
      }
    } else {
      var w := WithBit(m.pages[x].slab / MAP, c, false);
      OneWord(w, Width(s));
      m' := SetSlab(m, x, m.pages[x].slab % MAP + MAP * w);
      used := w > 0;
    }
    assert Heap(m', L, bitmaps') == h';
  }

  lemma OneWord(w: nat, width: nat)
    requires width > 0
    ensures Fits([w], width) ==> (w > 0 <==> InUse([w], width, 0))
  {
    hide InUse;
    if Fits([w], width) { UsedWords([w], width, 0); }
  }

  /** The page is on its list, whether it was before or was put there. */
  lemma NowListed(minShift: nat, h: Heap, h1: Heap, x: nat, c: nat)
    requires HeapOk(minShift, h) && Live(h, x, c) && IsPage(h, x) && Inv(h1.mem, h1.layout)
    requires Relisted(h, h1, x) && OnlyOn(h1.layout, ListOf(minShift, ShiftAt(h, x)), x, true)
    ensures WellCut(h1, x) && ShiftAt(h1, x) == ShiftAt(h, x) && Live(h1, x, c) && SlabsOk(minShift, h1, x)
    ensures forall y: nat, d: nat :: Live(h1, y, d) <==> Live(h, y, d)
  {
    LivePage(minShift, h, x, c);
    RelistedIs(h, h1, x);
    hide Live, WellCut, SameCut, OnlyOn, Elsewhere, Inv, SlabsOk, ShiftOf;
    SlabsBut(minShift, h, x);
    SlabsElsewhere(minShift, h, h1, x);
  }

  /** Clears the bit of a chunk; `used` says whether others are in use on the page.  A page that was full goes onto the list first. */
  method ClearChunk(ghost minShift: nat, m: Memory, bitmaps: seq<seq<nat>>, x: nat, s: nat, k: nat, c: nat, ghost L: Layout)
    returns (m': Memory, bitmaps': seq<seq<nat>>, used: bool, ghost L': Layout)
    requires HeapOk(minShift, Heap(m, L, bitmaps)) && Live(Heap(m, L, bitmaps), x, c)
    requires s == ShiftAt(Heap(m, L, bitmaps), x) && k == ListOf(minShift, s)
    ensures var h, h' := Heap(m, L, bitmaps), Heap(m', L', bitmaps');
            && Inv(m', L') && Elsewhere(h, h', x) && SlabsOk(minShift, h', x)
            && (used ==> HeapOk(minShift, h') && OneChunk(h, h', x, c, false) && IsPage(h', x) && ShiftAt(h', x) == s)
            && (used <==> exists d: nat :: d != c && Live(h, x, d))
    ensures L'.use == L.use && L'.size == L.size
  {
    hide Inv, OneChunk, Live, HasRoom, WellCut, OnlyOn, Classes, Distinct, SlabsOk, Elsewhere, SameCut,
         Unlinked, ListOf, Occupied, Pushed, ShiftOf, Words;
    ghost var h := Heap(m, L, bitmaps);
    LivePage(minShift, h, x, c);
    m', L' := m, L;
    var full := IsFull(minShift, m, x, s, h, c);
    if full {
      NotFirst(h, k, x);
      PutOnPage(h, k, x);
      m' := PushPage(m, k, x, Tag(s));
      L' := OnList(L, k, x);
    } else {
      RelistedNot(h, x);
    }
    ghost var h1 := Heap(m', L', bitmaps);
    NowListed(minShift, h, h1, x, c);
    m', bitmaps', used := ClearBit(m', bitmaps, x, s, c, L');
    ghost var h2 := Heap(m', L', bitmaps');
    ElsewhereTwice(h, h1, h2, x);
    SlabsElsewhere(minShift, h1, h2, x);
    if used {
      ClearedIsOk(minShift, h, h1, h2, x, c);
    }
  }

  lemma RelistedNot(h: Heap, x: nat)
    requires IsPage(h, x)
    ensures Relisted(h, h, x)
  {
  }

  lemma ClearedIsOk(minShift: nat, h: Heap, h1: Heap, h2: Heap, x: nat, c: nat)
    requires HeapOk(minShift, h) && Live(h, x, c) && IsPage(h, x) && IsPage(h2, x) && WellCut(h2, x) && Occupied(h2, x)
    requires Elsewhere(h, h2, x) && ShiftAt(h2, x) == ShiftAt(h, x) && Inv(h2.mem, h2.layout)
    requires OnlyOn(h2.layout, ListOf(minShift, ShiftAt(h, x)), x, true)
    requires IsShift(ShiftAt(h, x)) && !Taken(WordsAt(h2, x), Width(ShiftAt(h, x)), c)
    requires OneChunk(h1, h2, x, c, false) && forall y: nat, d: nat :: Live(h1, y, d) <==> Live(h, y, d)
    ensures HeapOk(minShift, h2) && OneChunk(h, h2, x, c, false)
  {
    LivePage(minShift, h, x, c);
    ClearedIsListed(minShift, h, h2, x, c);
    hide Live, HeapOk;
  }

  // ----- what allocation and release promise -----

  /** A chunk of the smallest class that is large enough has been taken, and nothing else. */
  ghost predicate ChunkGiven(minShift: nat, h: Heap, h': Heap, size: nat, p: nat, x: nat, c: nat) {
    && IsPage(h', x) && Fit(minShift, size, ShiftAt(h', x)) && p == Address(h', x, c)
    && !Live(h, x, c) && OneChunk(h, h', x, c, true) && SameRuns(h, h', x) && SameClasses(h, h', x)
    && (h.layout.use[x] == Slab || h.layout.use[x] == Free)
  }

  /** A run of as many whole pages as the size needs has been taken from free pages, and nothing else. */
  ghost predicate RunGiven(h: Heap, h': Heap, size: nat, p: nat, x: nat) {
    var n := Needed(size);
    && Sized(h) && Sized(h') && |h'.bitmaps| == |h.bitmaps| && 0 < n && x + n <= |h.bitmaps|
    && p == x * PAGESIZE && h'.layout.size[x] == n
    && (forall y: nat | x <= y < x + n :: h.layout.use[y] == Free && h'.layout.use[y] == Whole)
    && (forall y: nat | x < y < x + n :: h'.layout.size[y] == 0)
    && (forall y: nat | y < |h.bitmaps| && !(x <= y < x + n) :: h'.layout.use[y] == h.layout.use[y])
    && KeptRuns(h, h') && SameClasses(h, h', -1) && forall y: nat, d: nat :: Live(h', y, d) <==> Live(h, y, d)
  }

  /** `(size >> pagesize_shift) + ((size % pagesize) ? 1 : 0)`. */
  function Needed(size: nat): (n: nat)
    ensures size <= n * PAGESIZE && (n > 0 ==> (n - 1) * PAGESIZE < size)
  {
    size / PAGESIZE + if size % PAGESIZE != 0 then 1 else 0
  }

  /** Runs in use keep their length, and no page inside one begins another. */
  ghost predicate KeptRuns(h: Heap, h': Heap)
    requires Sized(h) && Sized(h') && |h'.bitmaps| == |h.bitmaps|
  {
    forall y: nat | y < |h.bitmaps| && h.layout.use[y] == h'.layout.use[y] == Whole :: h'.layout.size[y] == h.layout.size[y]
  }

  /** All pages but `x` are used as before, and runs of whole pages keep their length. */
  ghost predicate SameRuns(h: Heap, h': Heap, x: nat) {
    && Sized(h) && Sized(h') && |h'.bitmaps| == |h.bitmaps| && x < |h.bitmaps|
    && (forall y: nat | y < |h.bitmaps| && y != x :: h'.layout.use[y] == h.layout.use[y])
    && KeptRuns(h, h')
  }

  /** No page is free, and no page of class `s` has a free chunk. */
  ghost predicate Exhausted(h: Heap, s: nat) {
    && Sized(h)
    && (forall x: nat | x < |h.bitmaps| :: h.layout.use[x] != Free)
    && (forall x: nat | IsPage(h, x) && WellCut(h, x) && ShiftAt(h, x) == s :: !HasRoom(h, x))
  }

  lemma NothingLeft(minShift: nat, h: Heap, s: nat)
    requires HeapOk(minShift, h) && minShift <= s <= 11 && ListOf(minShift, s) < |h.layout.lists|
    requires h.layout.lists[ListOf(minShift, s)] == [] && |h.layout.lists| > 0 && TooShort(h.layout, |h.layout.lists[0]|, 1)
    ensures Exhausted(h, s)
  {
    hide Inv, Tiled, Run, HasRoom, WellCut, TooShort, SlabsOk;
    ClassesAt(minShift, h, -1, s);
    InvParts(h.mem, h.layout, 0);
    FailsWithoutALongRun(h.mem, h.layout, 1);
    forall x: nat | x < |h.bitmaps| ensures h.layout.use[x] != Free {
      var y := RunOf(h.layout, x);
    }
    forall x: nat | IsPage(h, x) && WellCut(h, x) && ShiftAt(h, x) == s ensures !HasRoom(h, x) {
      PageOfClass(minShift, h, x);
    }
  }

  lemma PageOfClass(minShift: nat, h: Heap, x: nat)
    requires SlabsOk(minShift, h, -1) && WellCut(h, x)
    ensures IsPage(h, x) && OnlyOn(h.layout, ListOf(minShift, ShiftAt(h, x)), x, HasRoom(h, x))
  {
    SlabOkAt(minShift, h, -1, x);
  }

  /** The list of a class is empty exactly if its head is its own successor. */
  lemma FirstListed(minShift: nat, h: Heap, s: nat)
    requires HeapOk(minShift, h) && minShift <= s <= 11
    ensures Sized(h) && IsShift(minShift) && |h.layout.lists| == |h.layout.tags| == |h.mem.heads| == 13 - minShift
    ensures var k := ListOf(minShift, s);
            && 0 < k < |h.mem.heads| && Valid(h.mem, h.mem.heads[k].next) && h.layout.tags[k] == Tag(s)
            && var page, l := h.mem.heads[k].next, h.layout.lists[k];
               if At(h.mem, page).next == page then l == [] else page.Page? && page.i in l
  {
    hide Inv, Chain, SlabsOk, ListOf;
    ClassesAt(minShift, h, -1, s);
    var k := ListOf(minShift, s);
    InvParts(h.mem, h.layout, k);
    var l := h.layout.lists[k];
    ChainHead(h.mem, k, l, h.layout.tags[k]);
    if l != [] { ChainAt(h.mem, k, l, h.layout.tags[k], 0); }
  }

  lemma GivenFromPage(minShift: nat, h: Heap, h': Heap, size: nat, s: nat, x: nat, c: nat)
    requires IsPage(h, x) && IsPage(h', x) && ShiftAt(h', x) == s && !Live(h, x, c) && OneChunk(h, h', x, c, true)
    requires Elsewhere(h, h', x) && ShiftAt(h, x) == s
    requires h'.layout.use == h.layout.use && h'.layout.size == h.layout.size && Fit(minShift, size, s)
    ensures ChunkGiven(minShift, h, h', size, x * PAGESIZE + c * Pow2(s), x, c) && Sized(h')
  {
    hide Live, OneChunk, Fit, Pow2, Elsewhere, SameClasses, ShiftOf;
    ClassesElsewhere(h, h', x);
  }

  /** A page taken for a class whose list is empty. */
  lemma PageTaken(minShift: nat, h: Heap, h1: Heap, place: nat, s: nat)
    requires HeapOk(minShift, h) && Inv(h1.mem, h1.layout) && Fitting(h.layout, place, 1) && h1.layout == Carved(h.layout, place, 1)
    requires SlabsKept(h.mem, h1.mem, h1.layout) && h1.bitmaps == h.bitmaps && minShift <= s <= 11
    requires ListOf(minShift, s) < |h.layout.lists| && h.layout.lists[ListOf(minShift, s)] == []
    ensures SlabsOk(minShift, h1, -1) && Elsewhere(h, h1, -1) && Sized(h1) && SameClasses(h, h1, -1)
    ensures ListOf(minShift, s) < |h1.layout.lists| && h1.layout.lists[ListOf(minShift, s)] == []
    ensures var x := h.layout.lists[0][place];
            x < |h1.bitmaps| && h1.layout.use[x] == Whole && h1.layout.size[x] == 1 && h.layout.use[x] == Free && SameRuns(h, h1, x)
  {
    hide Inv, Fitting, Carved, SlabsOk, Tiled, Listed, Parts, Count, SlabsKept, Elsewhere;
    CarvedKeepsRuns(minShift, h, h1, place, 1);
    ClassesAt(minShift, h, -1, s);
    CarvedIs(h.layout, place, 1);
    CarvedFree(h.layout, place, 1);
    var x := h.layout.lists[0][place];
    assert x <= x < x + 1 && h1.layout.use[x] == Whole;
    forall y: nat | y < |h.bitmaps| && y != x ensures h1.layout.use[y] == h.layout.use[y] {
      assert !(x <= y < x + 1);
    }
  }

  /** A run taken from the free pages touches nothing else. */
  lemma CarvedKeepsRuns(minShift: nat, h: Heap, h1: Heap, place: nat, pages: nat)
    requires HeapOk(minShift, h) && Inv(h1.mem, h1.layout) && Fitting(h.layout, place, pages)
    requires h1.layout == Carved(h.layout, place, pages) && SlabsKept(h.mem, h1.mem, h1.layout) && h1.bitmaps == h.bitmaps
    ensures SlabsOk(minShift, h1, -1) && Elsewhere(h, h1, -1) && Sized(h) && Sized(h1) && |h1.bitmaps| == |h.bitmaps|
    ensures KeptRuns(h, h1) && SameClasses(h, h1, -1)
    ensures |h.layout.lists| > 0 && Distinct(h.layout.lists[0])
    ensures forall y: nat, d: nat :: Live(h1, y, d) <==> Live(h, y, d)
    ensures var x := h.layout.lists[0][place];
            && x + pages <= |h.bitmaps| && h1.layout.size[x] == pages
            && (forall y: nat | x <= y < x + pages :: h.layout.use[y] == Free && h1.layout.use[y] == Whole)
            && (forall y: nat | x < y < x + pages :: h1.layout.size[y] == 0)
            && (forall y: nat | y < |h.bitmaps| && !(x <= y < x + pages) :: h1.layout.use[y] == h.layout.use[y])
  {
    hide Inv, Fitting, Carved, Tiled, Listed, Parts, Count, SlabsKept, Elsewhere, SlabOk, Classes, Live, SameClasses;
    ListsExist(h.mem, h.layout);
    InvParts(h.mem, h.layout, 0);
    ListsExist(h1.mem, h1.layout);
    InvParts(h1.mem, h1.layout, 0);
    CarvedElsewhere(h, h1, place, pages);
    AllocationIsDisjoint(h.layout, place, pages);
    CarvedSizes(h.layout, place, pages);
    SlabsElsewhere(minShift, h, h1, -1);
    ClassesElsewhere(h, h1, -1);
    forall y: nat, d: nat ensures Live(h1, y, d) <==> Live(h, y, d) { LiveElsewhere(h, h1, -1, y, d); }
  }

  lemma GivenFreshPage(minShift: nat, h: Heap, h1: Heap, h2: Heap, size: nat, s: nat, x: nat, c: nat)
    requires Elsewhere(h, h1, -1) && SameRuns(h, h1, x) && h.layout.use[x] == Free
    requires Elsewhere(h1, h2, x) && SameClasses(h, h1, -1)
    requires IsShift(s) && Fit(minShift, size, s) && !Live(h1, x, c) && OneChunk(h1, h2, x, c, true)
    requires IsPage(h2, x) && ShiftAt(h2, x) == s
    requires h1.layout.use[x] == Whole && h2.layout.use == h1.layout.use[x := Slab]
    requires h2.layout.size == h1.layout.size && |h2.bitmaps| == |h1.bitmaps|
    ensures ChunkGiven(minShift, h, h2, size, x * PAGESIZE + c * Pow2(s), x, c) && Sized(h2)
  {
    hide Live, Fit, Pow2, Elsewhere, ShiftOf;
    assert !IsPage(h1, x) ==> SameClasses(h1, h2, x) by { if !IsPage(h1, x) { ClassesElsewhere(h1, h2, x); } }
    forall y: nat, d: nat ensures Live(h1, y, d) <==> Live(h, y, d) { LiveElsewhere(h, h1, -1, y, d); }
  }

  /** Cuts a page into chunks of class `s`, and takes the first one behind the bitmap. */
  method CutPage(ghost minShift: nat, m: Memory, bitmaps: seq<seq<nat>>, x: nat, s: nat, k: nat, ghost L: Layout)
    returns (m': Memory, bitmaps': seq<seq<nat>>, c: nat, ghost L': Layout)
    requires Inv(m, L) && SlabsOk(minShift, Heap(m, L, bitmaps), -1) && minShift <= s <= 11 && x < |bitmaps| && k == ListOf(minShift, s)
    requires |L.use| == |L.size| == |m.pages| == |bitmaps| && L.use[x] == Whole && L.size[x] == 1
    requires k < |L.lists| && L.lists[k] == []
    ensures var h, h' := Heap(m, L, bitmaps), Heap(m', L', bitmaps');
            HeapOk(minShift, h') && !Live(h, x, c) && IsPage(h', x) && ShiftAt(h', x) == s && OneChunk(h, h', x, c, true)
            && Elsewhere(h, h', x)
    ensures L' == NewSlab(L, k, x) && |bitmaps'| == |bitmaps|
  {
    hide Inv, SlabsOk, HeapOk, Live, OneChunk, ShiftOf, ListOf, Pow2, MadeSlab, FreshWords, Elsewhere;
    NewPageIs(minShift, Heap(m, L, bitmaps), x, s);
    L' := NewSlab(L, k, x);
    c := Reserved(s);
    bitmaps' := if s < 6 then bitmaps[x := FreshWords(s)] else bitmaps;
    m' := MadeSlab(m, k, x, FreshSlab(s), Tag(s));
  }

  /** No free run is so long. */
  ghost predicate NoRun(h: Heap, pages: nat) {
    Sized(h) && forall y: nat | y < |h.bitmaps| && h.layout.size[y] > 0 && h.layout.use[y] == Free :: h.layout.size[y] < pages
  }

  lemma NoLongRun(minShift: nat, h: Heap, pages: nat)
    requires HeapOk(minShift, h) && |h.layout.lists| > 0 && TooShort(h.layout, |h.layout.lists[0]|, pages)
    ensures NoRun(h, pages)
  {
    hide Inv, TooShort, SlabOk, Classes;
    FailsWithoutALongRun(h.mem, h.layout, pages);
  }

  /** Exactly one chunk has been given back, and its page with it if it was the last one there. */
  ghost predicate ChunkFreed(h: Heap, h': Heap, x: nat, c: nat) {
    && SameRuns(h, h', x) && SameClasses(h, h', x) && OneChunk(h, h', x, c, false)
    && h'.layout.use[x] == if exists d: nat :: d != c && Live(h, x, d) then Slab else Free
  }

  /** A run of whole pages in use. */
  ghost predicate IsRun(h: Heap, x: nat) {
    Sized(h) && x < |h.bitmaps| && h.layout.use[x] == Whole && h.layout.size[x] > 0
  }

  /** Exactly the pages of a run have been given back. */
  ghost predicate RunFreed(h: Heap, h': Heap, x: nat) {
    && IsRun(h, x) && Sized(h') && |h'.bitmaps| == |h.bitmaps|
    && (forall y: nat | y < |h.bitmaps| ::
          h'.layout.use[y] == if x <= y < x + h.layout.size[x] then Free else h.layout.use[y])
    && KeptRuns(h, h') && SameClasses(h, h', -1) && forall y: nat, d: nat :: Live(h', y, d) <==> Live(h, y, d)
  }

  lemma UsedPageStays(h: Heap, h': Heap, x: nat, c: nat)
    requires Elsewhere(h, h', x) && OneChunk(h, h', x, c, false)
    requires h'.layout.use == h.layout.use && h'.layout.size == h.layout.size && IsPage(h, x)
    requires IsPage(h', x) && ShiftAt(h', x) == ShiftAt(h, x)
    requires exists d: nat :: d != c && Live(h, x, d)
    ensures ChunkFreed(h, h', x, c) && Sized(h) && Sized(h')
  {
    ClassesElsewhere(h, h', x);
    hide Live, OneChunk, SameClasses, ShiftOf;
  }

  lemma PageIsReleasable(minShift: nat, h: Heap, h1: Heap, x: nat, c: nat)
    requires HeapOk(minShift, h) && Live(h, x, c) && Inv(h1.mem, h1.layout) && Elsewhere(h, h1, x)
    requires h1.layout.use == h.layout.use && h1.layout.size == h.layout.size
    ensures Sized(h) && Sized(h1) && |h1.bitmaps| == |h.bitmaps| && Releasable(h1.mem, h1.layout, x) && h1.layout.size[x] == 1 && IsPage(h1, x)
  {
    hide Inv, SlabsOk;
    SlabIsOnePage(h1.mem, h1.layout, x);
    ListsExist(h1.mem, h1.layout);
  }

  lemma PageFreed(minShift: nat, h: Heap, h1: Heap, h2: Heap, x: nat, c: nat)
    requires HeapOk(minShift, h) && Live(h, x, c) && Inv(h1.mem, h1.layout) && Elsewhere(h, h1, x) && IsPage(h1, x)
    requires h1.layout.use == h.layout.use && h1.layout.size == h.layout.size && SlabsOk(minShift, h1, x) && h1.layout.size[x] == 1
    requires Sized(h) && |h1.bitmaps| == |h.bitmaps| && !exists d: nat :: d != c && Live(h, x, d)
    requires Freed(h1.layout, h2.layout, x) && SlabsKept(h1.mem, h2.mem, h2.layout) && h2.bitmaps == h1.bitmaps
    ensures SlabsOk(minShift, h2, -1) && ChunkFreed(h, h2, x, c) && Sized(h2)
  {
    hide Inv, SlabsOk, Live, Elsewhere, Freed, SlabsKept, OneChunk, SameRuns, SameClasses, ShiftOf;
    FreedElsewhere(h1, h2, x);
    PageIsGone(minShift, h1, h2, x);
    assert OneChunk(h, h2, x, c, false) by { LastLiveGone(h, h1, h2, x, c); }
    assert SameRuns(h, h2, x) by { FreedSameRuns(h, h1, h2, x); }
    ElsewhereTwice(h, h1, h2, x);
    ClassesElsewhere(h, h2, x);
    FreedKeepsRuns(h1, h2, x);
  }

  lemma LastLiveGone(h: Heap, h1: Heap, h2: Heap, x: nat, c: nat)
    requires Elsewhere(h, h1, x) && !exists d: nat :: d != c && Live(h, x, d)
    requires forall y: nat, d: nat :: Live(h2, y, d) <==> y != x && Live(h1, y, d)
    ensures OneChunk(h, h2, x, c, false)
  {
    hide Live, Elsewhere;
    forall y: nat, d: nat ensures Live(h2, y, d) <==> if y == x && d == c then false else Live(h, y, d) {
      if y != x { LiveElsewhere(h, h1, x, y, d); }
    }
  }

  lemma FreedSameRuns(h: Heap, h1: Heap, h2: Heap, x: nat)
    requires Sized(h) && Sized(h1) && |h1.bitmaps| == |h.bitmaps| && IsPage(h1, x) && h1.layout.size[x] == 1
    requires h1.layout.use == h.layout.use && h1.layout.size == h.layout.size
    requires Freed(h1.layout, h2.layout, x) && SlabsKept(h1.mem, h2.mem, h2.layout) && h2.bitmaps == h1.bitmaps
    ensures SameRuns(h, h2, x)
  {
    hide Freed, SlabsKept;
    FreedKeepsRuns(h1, h2, x);
  }

  lemma FreedKeepsRuns(h: Heap, h': Heap, x: nat)
    requires Sized(h) && Freed(h.layout, h'.layout, x) && |h'.bitmaps| == |h.bitmaps| && SlabsKept(h.mem, h'.mem, h'.layout)
    ensures Sized(h') && x + h.layout.size[x] <= |h.bitmaps|
    ensures forall y: nat | y < |h.bitmaps| ::
              h'.layout.use[y] == if x <= y < x + h.layout.size[x] then Free else h.layout.use[y]
    ensures forall y: nat | y < |h.bitmaps| && h.layout.use[y] == Whole && !(x <= y < x + h.layout.size[x]) ::
              h'.layout.size[y] == h.layout.size[y]
  {
    hide Drop;
  }

  lemma RunIsReleasable(h: Heap, x: nat)
    requires Inv(h.mem, h.layout) && IsRun(h, x)
    ensures Releasable(h.mem, h.layout, x) && h.mem.pages[x].slab == h.layout.size[x] + START && h.mem.pages[x].tag == 0
  {
    hide Inv;
    ListsExist(h.mem, h.layout);
    InvParts(h.mem, h.layout, 0);
    DescribedAt(h.mem, h.layout, x);
    LastOfRun(h.layout, x);
  }

  lemma WholeRunFreed(minShift: nat, h: Heap, h': Heap, x: nat)
    requires HeapOk(minShift, h) && IsRun(h, x) && Freed(h.layout, h'.layout, x) && SlabsKept(h.mem, h'.mem, h'.layout)
    requires h'.bitmaps == h.bitmaps
    ensures SlabsOk(minShift, h', -1) && RunFreed(h, h', x) && Sized(h')
  {
    FreedKeepsRuns(h, h', x);
    hide Inv, SlabsOk, Live, Elsewhere, Freed, SlabsKept, SameClasses;
    WholeFreedElsewhere(h, h', x);
    SlabsElsewhere(minShift, h, h', -1);
    forall y: nat, d: nat ensures Live(h', y, d) <==> Live(h, y, d) { LiveElsewhere(h, h', -1, y, d); }
    ClassesElsewhere(h, h', -1);
  }

  lemma TypeTells(minShift: nat, h: Heap, x: nat, c: nat)
    requires HeapOk(minShift, h) && (Live(h, x, c) || IsRun(h, x))
    ensures Sized(h) && x < |h.bitmaps| && (h.mem.pages[x].tag == 0 <==> IsRun(h, x)) && (Live(h, x, c) <==> !IsRun(h, x))
  {
    hide Inv, SlabsOk, Taken, Reserved, Chunks, ListOf, OnlyOn, WellCut;
    if Live(h, x, c) { LivePage(minShift, h, x, c); } else { RunIsReleasable(h, x); }
  }

  // ----- the pointers that have been given -----

  /** The pointer is a chunk in use, or the beginning of a run of whole pages. */
  ghost predicate Held(h: Heap, p: nat, c: nat) {
    || (Live(h, p / PAGESIZE, c) && p == Address(h, p / PAGESIZE, c))
    || (IsRun(h, p / PAGESIZE) && p % PAGESIZE == 0 && c == 0)
  }

  /** The number of bytes it was given for. */
  ghost function Extent(h: Heap, p: nat, c: nat): nat
    requires Held(h, p, c)
  {
    if IsRun(h, p / PAGESIZE) then h.layout.size[p / PAGESIZE] * PAGESIZE else Pow2(ShiftAt(h, p / PAGESIZE))
  }

  /** `p` is held in the second heap and not in the first; all other pointers are held in both or none, for the same bytes. */
  ghost predicate OneMore(h: Heap, h': Heap, p: nat, c: nat) {
    && (forall q: nat, d: nat :: Held(h', q, d) <==> Held(h, q, d) || (q == p && d == c))
    && (forall d: nat :: !Held(h, p, d))
    && forall q: nat, d: nat | Held(h, q, d) && Held(h', q, d) :: Extent(h', q, d) == Extent(h, q, d)
  }

  /** Nothing has changed on page `y`. */
  ghost predicate SameOn(h: Heap, h': Heap, y: nat) {
    && (IsRun(h', y) <==> IsRun(h, y)) && (IsRun(h, y) ==> IsRun(h', y) && h'.layout.size[y] == h.layout.size[y])
    && (IsPage(h, y) ==> IsPage(h', y) && ShiftAt(h', y) == ShiftAt(h, y))
    && forall d: nat :: Live(h', y, d) <==> Live(h, y, d)
  }

  lemma SameHeld(h: Heap, h': Heap, q: nat, d: nat)
    requires SameOn(h, h', q / PAGESIZE)
    ensures Held(h', q, d) <==> Held(h, q, d)
    ensures Held(h, q, d) ==> Held(h', q, d) && Extent(h', q, d) == Extent(h, q, d)
  {
    hide IsRun, ShiftOf, Words, Taken, Reserved, Chunks, Pow2, Width;
  }

  /** Pages that are used as before, and cut as before. */
  lemma SameOnOthers(h: Heap, h': Heap, x: int, y: nat)
    requires Sized(h) && Sized(h') && |h'.bitmaps| == |h.bitmaps| && KeptRuns(h, h') && SameClasses(h, h', x)
    requires y < |h.bitmaps| ==> y != x && h'.layout.use[y] == h.layout.use[y]
    requires forall d: nat :: Live(h', y, d) <==> Live(h, y, d)
    ensures SameOn(h, h', y)
  {
    hide Live, ShiftOf;
  }

  lemma HeldOnSlab(h: Heap, q: nat, d: nat)
    requires !IsRun(h, q / PAGESIZE)
    ensures Held(h, q, d) ==> IsPage(h, q / PAGESIZE) && Live(h, q / PAGESIZE, d)
    ensures IsPage(h, q / PAGESIZE) ==>
              (Held(h, q, d) <==> Live(h, q / PAGESIZE, d) && q == Address(h, q / PAGESIZE, d))
  {
    hide IsRun, ShiftOf, Words, Taken, Reserved, Chunks, Pow2, Width;
  }

  /** Of two heaps that differ in one chunk. */
  lemma ChunkHeld(h: Heap, h': Heap, p: nat, x: nat, c: nat, q: nat, d: nat)
    requires IsPage(h', x) && p == Address(h', x, c) && p / PAGESIZE == x && !Live(h, x, c) && OneChunk(h, h', x, c, true)
    requires !IsRun(h, x) && SameRuns(h, h', x) && SameClasses(h, h', x)
    ensures Held(h', q, d) <==> Held(h, q, d) || (q == p && d == c)
    ensures Held(h, q, d) && Held(h', q, d) ==> Extent(h', q, d) == Extent(h, q, d)
  {
    hide Live, ShiftOf, Pow2;
    var y := q / PAGESIZE;
    if y != x {
      SameOnOthers(h, h', x, y);
      SameHeld(h, h', q, d);
    } else {
      HeldOnSlab(h, q, d);
      HeldOnSlab(h', q, d);
      if Live(h, x, d) { LiveOnPage(h, x, d); }
    }
  }

  lemma ChunkIsOneMore(h: Heap, h': Heap, p: nat, x: nat, c: nat)
    requires IsPage(h', x) && p == Address(h', x, c) && !Live(h, x, c) && OneChunk(h, h', x, c, true)
    requires !IsRun(h, x) && SameRuns(h, h', x) && SameClasses(h, h', x)
    ensures OneMore(h, h', p, c) && Held(h', p, c) && Extent(h', p, c) == Pow2(ShiftAt(h', x))
  {
    hide Live, ShiftOf, Pow2, Held, Extent, SameRuns, SameClasses;
    WhereItIs(h', x, c);
    forall q: nat, d: nat
      ensures Held(h', q, d) <==> Held(h, q, d) || (q == p && d == c)
      ensures Held(h, q, d) && Held(h', q, d) ==> Extent(h', q, d) == Extent(h, q, d)
    {
      ChunkHeld(h, h', p, x, c, q, d);
    }
    forall d: nat ensures !Held(h, p, d) {
      ChunkHeld(h, h', p, x, c, p, d);
      HeldOnSlab(h, p, d);
      if Held(h, p, d) { SameChunk(h, h', p, x, c, d); }
    }
    ExtentOfChunk(h', p, x, c);
  }

  lemma ExtentOfChunk(h: Heap, p: nat, x: nat, c: nat)
    requires IsPage(h, x) && Held(h, p, c) && x == p / PAGESIZE
    ensures Extent(h, p, c) == Pow2(ShiftAt(h, x))
  {
    hide Live, ShiftOf, Pow2;
  }

  lemma SameChunk(h: Heap, h': Heap, p: nat, x: nat, c: nat, d: nat)
    requires IsPage(h', x) && p == Address(h', x, c) && Live(h', x, c) && p / PAGESIZE == x
    requires Live(h, x, d) && Live(h', x, d) && Held(h', p, d)
    ensures c == d
  {
    hide Live, ShiftOf, Pow2;
    HeldOnSlab(h', p, d);
    WhereItIs(h', x, c);
    WhereItIs(h', x, d);
  }

  /** Of two heaps that differ in one run. */
  lemma RunHeld(h: Heap, h': Heap, x: nat, n: nat, q: nat, d: nat)
    requires Sized(h) && Sized(h') && |h'.bitmaps| == |h.bitmaps| && 0 < n && x + n <= |h.bitmaps| && h'.layout.size[x] == n
    requires forall y: nat | x <= y < x + n :: h.layout.use[y] == Free && h'.layout.use[y] == Whole
    requires forall y: nat | x < y < x + n :: h'.layout.size[y] == 0
    requires forall y: nat | y < |h.bitmaps| && !(x <= y < x + n) :: h'.layout.use[y] == h.layout.use[y]
    requires KeptRuns(h, h') && SameClasses(h, h', -1) && forall y: nat, d: nat :: Live(h', y, d) <==> Live(h, y, d)
    ensures Held(h', q, d) <==> Held(h, q, d) || (q == x * PAGESIZE && d == 0)
    ensures Held(h, q, d) && Held(h', q, d) ==> Extent(h', q, d) == Extent(h, q, d)
    ensures !Held(h, x * PAGESIZE, d)
  {
    hide Live, ShiftOf, Pow2;
    var y := q / PAGESIZE;
    HeldOnSlab(h, x * PAGESIZE, d);
    if x <= y < x + n {
      HeldOnSlab(h, q, d);
      if Live(h', y, d) { LiveOnPage(h', y, d); }
    } else {
      SameOnOthers(h, h', -1, y);
      SameHeld(h, h', q, d);
    }
  }

  lemma LiveOnPage(h: Heap, y: nat, d: nat)
    requires Live(h, y, d)
    ensures IsPage(h, y)
  {
    hide Taken, Words, ShiftOf, Reserved, Chunks, Width;
  }

  /** Allocation gives exactly one pointer, which was not held, for at least so many bytes. */
  lemma GivenIsOneMore(minShift: nat, h: Heap, h': Heap, size: nat, p: nat, x: nat, c: nat)
    requires if size < MAX_SIZE then ChunkGiven(minShift, h, h', size, p, x, c) else RunGiven(h, h', size, p, x) && c == 0
    ensures OneMore(h, h', p, c) && Held(h', p, c) && size <= Extent(h', p, c)
  {
    hide Live, ShiftOf, Pow2, Held, Extent, KeptRuns, SameClasses;
    if size < MAX_SIZE {
      ChunkIsOneMore(h, h', p, x, c);
    } else {
      RunIsOneMore(h, h', x, Needed(size));
    }
  }

  lemma RunIsOneMore(h: Heap, h': Heap, x: nat, n: nat)
    requires Sized(h) && Sized(h') && |h'.bitmaps| == |h.bitmaps| && 0 < n && x + n <= |h.bitmaps| && h'.layout.size[x] == n
    requires forall y: nat | x <= y < x + n :: h.layout.use[y] == Free && h'.layout.use[y] == Whole
    requires forall y: nat | x < y < x + n :: h'.layout.size[y] == 0
    requires forall y: nat | y < |h.bitmaps| && !(x <= y < x + n) :: h'.layout.use[y] == h.layout.use[y]
    requires KeptRuns(h, h') && SameClasses(h, h', -1) && forall y: nat, d: nat :: Live(h', y, d) <==> Live(h, y, d)
    ensures OneMore(h, h', x * PAGESIZE, 0) && Held(h', x * PAGESIZE, 0) && Extent(h', x * PAGESIZE, 0) == n * PAGESIZE
  {
    hide Live, ShiftOf, Pow2, Held, KeptRuns, SameClasses;
    forall q: nat, d: nat
      ensures Held(h', q, d) <==> Held(h, q, d) || (q == x * PAGESIZE && d == 0)
      ensures Held(h, q, d) && Held(h', q, d) ==> Extent(h', q, d) == Extent(h, q, d)
      ensures !Held(h, x * PAGESIZE, d)
    {
      RunHeld(h, h', x, n, q, d);
    }
    assert Held(h', x * PAGESIZE, 0);
  }

  /** Freeing takes back exactly one pointer. */
  lemma FreedIsOneLess(minShift: nat, h: Heap, h': Heap, p: nat, c: nat)
    requires HeapOk(minShift, h) && Held(h, p, c)
    requires var x := p / PAGESIZE; if Live(h, x, c) then ChunkFreed(h, h', x, c) else RunFreed(h, h', x)
    ensures OneMore(h', h, p, c)
  {
    hide HeapOk, Live, ShiftOf, Pow2, Extent, KeptRuns, SameClasses, OneMore;
    var x := p / PAGESIZE;
    if Live(h, x, c) {
      LiveOnPage(h, x, c);
      ChangeBack(h, h', x);
      ChunkIsOneMore(h', h, p, x, c);
    } else {
      WholeRun(minShift, h, x);
      RunBack(h, h', x);
      RunIsOneMore(h', h, x, h.layout.size[x]);
      assert p == x * PAGESIZE;
    }
  }

  lemma ChangeBack(h: Heap, h': Heap, x: nat)
    requires SameRuns(h, h', x) && SameClasses(h, h', x)
    ensures SameRuns(h', h, x) && SameClasses(h', h, x)
  {
    hide ShiftOf;
  }

  lemma RunBack(h: Heap, h': Heap, x: nat)
    requires RunFreed(h, h', x) && x + h.layout.size[x] <= |h.bitmaps|
    requires forall y: nat | x <= y < x + h.layout.size[x] :: h.layout.use[y] == Whole
    ensures KeptRuns(h', h) && SameClasses(h', h, -1)
  {
    hide Live, ShiftOf;
  }

  /** All pages of a run are in use, and no other run begins inside. */
  lemma WholeRun(minShift: nat, h: Heap, x: nat)
    requires HeapOk(minShift, h) && IsRun(h, x)
    ensures x + h.layout.size[x] <= |h.bitmaps|
    ensures forall y: nat | x <= y < x + h.layout.size[x] :: h.layout.use[y] == Whole && (y != x ==> h.layout.size[y] == 0)
  {
    hide SlabsOk, Listed, Chained, AllDescribed;
    ListsExist(h.mem, h.layout);
    RunAt(h.layout, x);
  }

  /** Giving back what was just given restores how every page is used, the runs, and the chunks with their sizes. */
  lemma AllocThenFree(minShift: nat, h: Heap, h1: Heap, h2: Heap, size: nat, p: nat, x: nat, c: nat)
    requires HeapOk(minShift, h)
    requires size < MAX_SIZE ==> ChunkGiven(minShift, h, h1, size, p, x, c) && ChunkFreed(h1, h2, x, c)
    requires size >= MAX_SIZE ==> RunGiven(h, h1, size, p, x) && RunFreed(h1, h2, x)
    ensures Sized(h) && Sized(h2) && h2.layout.use == h.layout.use && KeptRuns(h, h2) && SameClasses(h, h2, -1)
    ensures forall y: nat, d: nat :: Live(h2, y, d) <==> Live(h, y, d)
  {
    hide HeapOk, Live, ShiftOf, Fit;
    if size < MAX_SIZE {
      if IsPage(h, x) {
        var d := SomeLive(minShift, h, x);
        assert d != c && Live(h1, x, d);
      } else {
        forall d: nat | d != c ensures !Live(h1, x, d) {
          if Live(h, x, d) { LiveOnPage(h, x, d); }
        }
      }
    }
  }

  lemma SomeLive(minShift: nat, h: Heap, x: nat) returns (d: nat)
    requires HeapOk(minShift, h) && IsPage(h, x)
    ensures Live(h, x, d)
  {
    hide Inv, WellCut, Live, ShiftOf, SlabsOk;
    SlabOkAt(minShift, h, -1, x);
    d := OccupiedByLive(h, x);
  }

  // ----- bytes -----

  /** Pointers that are held do not share a byte. */
  lemma HeldApart(minShift: nat, h: Heap, p: nat, c: nat, q: nat, d: nat)
    requires HeapOk(minShift, h) && Held(h, p, c) && Held(h, q, d) && p != q
    ensures p + Extent(h, p, c) <= q || q + Extent(h, q, d) <= p
  {
    hide HeapOk, Live, ShiftOf, Pow2;
    var x, y := p / PAGESIZE, q / PAGESIZE;
    if IsRun(h, x) || IsRun(h, y) {
      if IsRun(h, x) { BehindRun(minShift, h, x, q, d); }
      if IsRun(h, y) { BehindRun(minShift, h, y, p, c); }
      WithinPages(h, p, c);
      WithinPages(h, q, d);
    } else {
      HeldOnSlab(h, p, c);
      HeldOnSlab(h, q, d);
      ChunksAreDisjoint(h, x, c, y, d);
    }
  }

  /** A pointer that is held elsewhere is not on the pages of a run. */
  lemma BehindRun(minShift: nat, h: Heap, x: nat, q: nat, d: nat)
    requires HeapOk(minShift, h) && IsRun(h, x) && Held(h, q, d)
    ensures q / PAGESIZE <= x || x + h.layout.size[x] <= q / PAGESIZE
    ensures q / PAGESIZE == x ==> q == x * PAGESIZE
  {
    hide HeapOk, Live, ShiftOf, Pow2;
    WholeRun(minShift, h, x);
    var y := q / PAGESIZE;
    if Live(h, y, d) { LiveOnPage(h, y, d); }
  }

  lemma WithinPages(h: Heap, p: nat, c: nat)
    requires Held(h, p, c)
    ensures p + Extent(h, p, c) <= (p / PAGESIZE + if IsRun(h, p / PAGESIZE) then h.layout.size[p / PAGESIZE] else 1) * PAGESIZE
  {
    hide Live, ShiftOf, Pow2;
    var x := p / PAGESIZE;
    if Live(h, x, c) {
      LiveOnPage(h, x, c);
      ChunkIsAligned(h, x, c);
    }
  }

  // ----- with PAGE_MERGE -----

  /** No two free runs are neighbours. */
  ghost predicate Compact(h: Heap) {
    Sized(h) && Merged(h.layout)
  }

  lemma CompactIs(h: Heap)
    requires Sized(h)
    ensures |h.layout.use| == |h.layout.size| && (Compact(h) <==> Merged(h.layout))
  {
    hide Merged;
  }

  lemma SamePagesCompact(h: Heap, h': Heap)
    requires Compact(h) && |h'.mem.pages| == |h'.bitmaps| == |h'.layout.use|
    requires h'.layout.use == h.layout.use && h'.layout.size == h.layout.size
    ensures Compact(h')
  {
  }

  lemma CarvedCompact(h: Heap, h': Heap, place: nat, pages: nat)
    requires Compact(h) && Sized(h') && Fitting(h.layout, place, pages) && h'.layout == Carved(h.layout, place, pages)
    ensures Compact(h')
  {
    hide Fitting, Carved;
    AllocationKeepsMerged(h.layout, place, pages);
  }

  lemma CutCompact(h: Heap, h': Heap, x: nat)
    requires Compact(h) && Sized(h') && x < |h.bitmaps| && h.layout.use[x] == Whole
    requires h'.layout.use == h.layout.use[x := Slab] && h'.layout.size == h.layout.size
    ensures Compact(h')
  {
  }

  /** A page is free as soon as nothing on it is in use; so when nothing is, all pages are, and make one run if runs are joined. */
  lemma NothingInUse(minShift: nat, h: Heap)
    requires HeapOk(minShift, h) && (forall x: nat, c: nat :: !Live(h, x, c)) && forall x: nat :: !IsRun(h, x)
    ensures Sized(h) && forall x: nat | x < |h.bitmaps| :: h.layout.use[x] == Free
    ensures Compact(h) ==> |h.bitmaps| > 0 && h.layout.size[0] == |h.bitmaps| && h.layout.lists[0] == [0]
  {
    hide Inv, SlabsOk, Live, Tiled, Run, WellCut, HasRoom, Merged;
    ShiftIs(minShift, h);
    ClassesAt(minShift, h, -1, 11);
    InvParts(h.mem, h.layout, 0);
    forall x: nat | x < |h.bitmaps| ensures h.layout.use[x] == Free {
      var y := RunOf(h.layout, x);
      assert !IsRun(h, y);
      if h.layout.use[x] == Slab {
        SlabOkAt(minShift, h, -1, x);
        var c := OccupiedByLive(h, x);
        assert false;
      }
    }
    if Compact(h) { AllFreeIsOneRun(h.mem, h.layout); }
  }

  /** The page types of the size classes from `s` on. */
  function Tags(s: nat): (tags: seq<nat>)
    requires s <= 12
    ensures |tags| == 12 - s && forall k: nat | k < |tags| :: tags[k] == Tag(s + k)
    decreases 12 - s
  {
    if s == 12 then [] else [Tag(s)] + Tags(s + 1)
  }

  lemma PoolIsReady(minShift: nat, h: Heap, count: nat)
    requires IsShift(minShift) && count > 0 && Inv(h.mem, h.layout) && |h.bitmaps| == count
    requires h.layout == StartLayout(count, Tags(minShift))
    ensures HeapOk(minShift, h) && Compact(h) && (forall x: nat, c: nat :: !Live(h, x, c))
    ensures Sized(h) && forall x: nat | x < count :: h.layout.use[x] == Free
  {
    hide Inv, Tags;
    ListsExist(h.mem, h.layout);
    InvParts(h.mem, h.layout, 0);
    assert |Tags(minShift)| == 12 - minShift;
  }

  // ----- the pool -----

  class Pool {
    const pages: PagePool
    const minShift: nat
    var bitmaps: seq<seq<nat>>

    ghost function Now(): Heap
      reads this, pages
    {
      Heap(pages.mem, pages.layout, bitmaps)
    }

    ghost predicate Valid()
      reads this, pages
    {
      HeapOk(minShift, Now()) && (pages.merge ==> Compact(Now()))
    }

    /** All pages are free, and nothing is in use. */
    constructor (merge: bool, minShift: nat, count: nat, bitmaps: seq<seq<nat>>)
      requires IsShift(minShift) && count > 0 && |bitmaps| == count
      ensures Valid() && this.minShift == minShift && fresh(pages) && pages.merge == merge
      ensures forall x: nat, c: nat :: !Live(Now(), x, c)
      ensures forall x: nat | x < count :: x < |Now().layout.use| && Now().layout.use[x] == Free
    {
      this.minShift := minShift;
      this.bitmaps := bitmaps;
      pages := new PagePool(merge, count, Tags(minShift));
      new;
      hide *;
      PoolIsReady(minShift, Now(), count);
    }

    /** `ncx_slab_alloc_locked` for sizes below half a page. */
    method AllocChunk(size: nat) returns (r: Pointer, ghost x: nat, ghost c: nat)
      requires Valid() && size < MAX_SIZE
      modifies this, pages
      ensures Valid()
      ensures r == Nowhere ==> Now() == old(Now()) && exists s: nat :: Fit(minShift, size, s) && Exhausted(old(Now()), s)
      ensures r.Offset? ==> ChunkGiven(minShift, old(Now()), Now(), size, r.p, x, c)
    {
      hide Inv, SlabsOk, Live, OneChunk, ChunkGiven, Exhausted, Fit, Pow2, ListOf, Elsewhere, SameRuns, Carved, Fitting,
           TooShort, SlabsKept, IsPage, ShiftOf, Compact;
      ghost var h := Now();
      ShiftIs(minShift, h);
      var s := ClassOf(minShift, size);
      FitIs(minShift, size, s);
      FirstListed(minShift, h, s);
      var k := ListOf(minShift, s);
      var page := pages.mem.heads[k].next;
      x, c := 0, 0;
      var m, b, chunk;
      ghost var L;
      if At(pages.mem, page).next != page {
        m, b, chunk, L := TakeChunk(minShift, pages.mem, bitmaps, page.i, s, pages.layout);
        pages.mem, pages.layout, bitmaps := m, L, b;
        GivenFromPage(minShift, h, Now(), size, s, page.i, chunk);
        if pages.merge { SamePagesCompact(h, Now()); }
        return Offset(page.i * PAGESIZE + chunk * Pow2(s)), page.i, chunk;
      }
      var run;
      ghost var place;
      run, place := pages.AllocPages(1);
      if run == Null {
        NothingLeft(minShift, h, s);
        return Nowhere, x, c;
      }
      ghost var h1 := Now();
      PageTaken(minShift, h, h1, place, s);
      if pages.merge { CarvedCompact(h, h1, place, 1); }
      m, b, chunk, L := CutPage(minShift, pages.mem, bitmaps, run.i, s, k, pages.layout);
      pages.mem, pages.layout, bitmaps := m, L, b;
      GivenFreshPage(minShift, h, h1, Now(), size, s, run.i, chunk);
      if pages.merge { CutCompact(h1, Now(), run.i); }
      return Offset(run.i * PAGESIZE + chunk * Pow2(s)), run.i, chunk;
    }

    /** `ncx_slab_alloc_locked` for other sizes: whole pages. */
    method AllocRun(size: nat) returns (r: Pointer, ghost x: nat)
      requires Valid() && size >= MAX_SIZE
      modifies this, pages
      ensures Valid()
      ensures r == Nowhere ==> Now() == old(Now()) && NoRun(old(Now()), Needed(size))
      ensures r.Offset? ==> RunGiven(old(Now()), Now(), size, r.p, x)
    {
      hide Inv, SlabsOk, Live, Elsewhere, Carved, Fitting, TooShort, SlabsKept, NoRun, Compact;
      ghost var h := Now();
      ListsExist(h.mem, h.layout);
      x := 0;
      var run;
      ghost var place;
      run, place := pages.AllocPages(Needed(size));
      if run == Null {
        NoLongRun(minShift, h, Needed(size));
        return Nowhere, x;
      }
      CarvedKeepsRuns(minShift, h, Now(), place, Needed(size));
      if pages.merge { CarvedCompact(h, Now(), place, Needed(size)); }
      return Offset(run.i * PAGESIZE), run.i;
    }

    /** `ncx_slab_alloc_locked`. */
    method AllocLocked(size: nat) returns (r: Pointer, ghost x: nat, ghost c: nat)
      requires Valid()
      modifies this, pages
      ensures Valid()
      ensures r == Nowhere ==> Now() == old(Now())
      ensures r == Nowhere && size < 2048 ==> exists s: nat :: Fit(minShift, size, s) && Exhausted(old(Now()), s)
      ensures r == Nowhere && size >= 2048 ==> NoRun(old(Now()), Needed(size))
      ensures r.Offset? && size < 2048 ==> ChunkGiven(minShift, old(Now()), Now(), size, r.p, x, c)
      ensures r.Offset? && size >= 2048 ==> RunGiven(old(Now()), Now(), size, r.p, x)
      ensures r.Offset? ==> OneMore(old(Now()), Now(), r.p, c) && Held(Now(), r.p, c) && size <= Extent(Now(), r.p, c)
    {
      hide HeapOk, Live, Compact, Exhausted, ChunkGiven, RunGiven, NoRun, Fit, OneMore, Held, Extent;
      ghost var h := Now();
      if size >= MAX_SIZE {
        r, x := AllocRun(size);
        c := 0;
      } else {
        r, x, c := AllocChunk(size);
      }
      if r.Offset? { GivenIsOneMore(minShift, h, Now(), size, r.p, x, c); }
    }

    /** `ncx_slab_free_locked` for a chunk in use. */
    method FreeChunk(p: nat, ghost c: nat)
      requires Valid() && Live(Now(), p / PAGESIZE, c) && p == Address(Now(), p / PAGESIZE, c)
      modifies this, pages
      ensures Valid() && ChunkFreed(old(Now()), Now(), p / PAGESIZE, c)
    {
      hide Inv, SlabsOk, Live, OneChunk, ChunkFreed, Pow2, ListOf, Elsewhere, SlabsKept, Freed, Releasable, WellCut, Compact, Merged;
      ghost var h := Now();
      var x := p / PAGESIZE;
      LivePage(minShift, h, x, c);
      WhereItIs(h, x, c);
      var s := ShiftOf(pages.mem.pages[x]);
      var chunk := p % PAGESIZE / Pow2(s);
      var m, b, used;
      ghost var L;
      m, b, used, L := ClearChunk(minShift, pages.mem, bitmaps, x, s, ListOf(minShift, s), chunk, pages.layout);
      pages.mem, pages.layout, bitmaps := m, L, b;
      ghost var h1 := Now();
      if used {
        UsedPageStays(h, h1, x, c);
        if pages.merge { SamePagesCompact(h, h1); }
        return;
      }
      PageIsReleasable(minShift, h, h1, x, c);
      if pages.merge { SamePagesCompact(h, h1); }
      CompactIs(h1);
      pages.FreePages(x, 1);
      PageFreed(minShift, h, h1, Now(), x, c);
      CompactIs(Now());
    }

    /** `ncx_slab_free_locked` for a run of whole pages. */
    method FreeRun(p: nat)
      requires Valid() && IsRun(Now(), p / PAGESIZE) && p % PAGESIZE == 0
      modifies this, pages
      ensures Valid() && RunFreed(old(Now()), Now(), p / PAGESIZE)
    {
      hide Inv, SlabsOk, Live, RunFreed, Elsewhere, SlabsKept, Freed, Releasable, Compact, Merged;
      ghost var h := Now();
      var x := p / PAGESIZE;
      CompactIs(h);
      RunIsReleasable(h, x);
      pages.FreePages(x, pages.mem.pages[x].slab - START);
      WholeRunFreed(minShift, h, Now(), x);
      CompactIs(Now());
    }

    /** `ncx_slab_free_locked`: the page type in the descriptor tells what is freed. */
    method FreeLocked(p: nat, ghost c: nat)
      requires Valid() && Held(Now(), p, c)
      modifies this, pages
      ensures Valid()
      ensures if old(Live(Now(), p / PAGESIZE, c)) then ChunkFreed(old(Now()), Now(), p / PAGESIZE, c)
              else RunFreed(old(Now()), Now(), p / PAGESIZE)
      ensures OneMore(Now(), old(Now()), p, c)
    {
      hide HeapOk, Live, ChunkFreed, RunFreed, Compact, OneMore;
      ghost var h := Now();
      TypeTells(minShift, Now(), p / PAGESIZE, c);
      if pages.mem.pages[p / PAGESIZE].tag == 0 {
        FreeRun(p);
      } else {
        FreeChunk(p, c);
      }
      FreedIsOneLess(minShift, h, Now(), p, c);
    }
  }

  /**
    Two pointers given and given back in the order in which they were given: the pool holds what it held before,
    for the same bytes.  Only the contracts of the pool are used.
   */
  method GiveTwoBackBoth(pool: Pool, first: nat, second: nat)
    requires pool.Valid()
    modifies pool, pool.pages
    ensures pool.Valid()
    ensures forall q: nat, d: nat :: Held(pool.Now(), q, d) <==> old(Held(pool.Now(), q, d))
    ensures forall q: nat, d: nat | old(Held(pool.Now(), q, d)) && Held(pool.Now(), q, d) ::
              Extent(pool.Now(), q, d) == old(Extent(pool.Now(), q, d))
  {
    hide HeapOk, Live, Compact, Exhausted, ChunkGiven, RunGiven, NoRun, Fit, Held, Extent, ChunkFreed, RunFreed;
    ghost var h := pool.Now();
    ghost var x, c, y, d;
    var p, q;
    p, x, c := pool.AllocLocked(first);
    if p == Nowhere {
      return;
    }
    q, y, d := pool.AllocLocked(second);
    if q.Offset? {
      HeldApart(pool.minShift, pool.Now(), p.p, c, q.p, d);
    }
    pool.FreeLocked(p.p, c);
    if q.Offset? {
      pool.FreeLocked(q.p, d);
    }
  }

  lemma ShiftIs(minShift: nat, h: Heap)
    requires HeapOk(minShift, h)
    ensures IsShift(minShift) && Inv(h.mem, h.layout)
  {
    hide Inv;
  }

  lemma FitIs(minShift: nat, size: nat, s: nat)
    requires Fit(minShift, size, s)
    ensures minShift <= s <= 11
  {
  }
}
