/**
  The chunk layer of Memory/ncx_slab.c: pages cut into chunks of a power of two, with three encodings of the bitmap
  that says which chunks are taken.  The bitmap of small chunks is kept in the first chunks of the page itself, that of
  chunks of the exact size is the `slab` word of the descriptor, and that of big chunks the upper half of this word.
 */
module SlabChunks {
  import opened Common
  import opened Bits
  import opened SlabLists
  import opened SlabPages
  import opened SlabBitmaps
  import opened SlabClasses

  const PAGESIZE: nat := 4096
  const MAP: nat := 0x1_0000_0000

  const BIG: nat := 1
  const EXACT: nat := 2
  const SMALL: nat := 3

  /** `shift` of a size class: chunks of 8 up to 2048 bytes. */
  predicate IsShift(s: nat) {
    3 <= s <= 11
  }

  function Chunks(s: nat): nat
    requires IsShift(s)
  {
    Pow2(12 - s)
  }

  function WordCount(s: nat): nat
    requires IsShift(s)
  {
    if s < 6 then Chunks(s) / 64 else 1
  }

  function Width(s: nat): (w: nat)
    requires IsShift(s)
    ensures w > 0
  {
    if s <= 6 then 64 else Chunks(s)
  }

  /** Chunks at the beginning of the page that hold its bitmap. */
  function Reserved(s: nat): nat
    requires IsShift(s)
  {
    if s < 6 then
      var n := Chunks(s) / 8 / Pow2(s);
      if n == 0 then 1 else n
    else 0
  }

  function Tag(s: nat): (tag: nat)
    ensures tag > 0
  {
    if s < 6 then SMALL else if s == 6 then EXACT else BIG
  }

  /** The bitmap has a bit for each chunk, the reserved chunks have room for it, and are not all there is. */
  lemma Constants(s: nat)
    requires IsShift(s)
    ensures WordCount(s) > 0 && WordCount(s) * Width(s) == Chunks(s) && Reserved(s) + 1 < Width(s) <= 64 <= 64 * WordCount(s)
    ensures Chunks(s) * Pow2(s) == PAGESIZE && Reserved(s) + 1 < Chunks(s)
    ensures if s < 6 then Chunks(s) <= 8 * Reserved(s) * Pow2(s) else Reserved(s) == 0 && WordCount(s) == 1
  {
    assert Pow2(0) == 1 && Pow2(1) == 2 && Pow2(2) == 4 && Pow2(3) == 8;
    assert Pow2(4) == 16 && Pow2(5) == 32 && Pow2(6) == 64 && Pow2(7) == 128;
    assert Pow2(8) == 256 && Pow2(9) == 512 && Pow2(10) == 1024 && Pow2(11) == 2048;
    assert s == 3 || s == 4 || s == 5 || s == 6 || s == 7 || s == 8 || s == 9 || s == 10 || s == 11;
  }

  // ----- what a descriptor and a bitmap say -----

  /** The descriptors, how the pages are used, and the words at the beginning of each page. */
  datatype Heap = Heap(mem: Memory, layout: Layout, bitmaps: seq<seq<nat>>)

  function ShiftOf(d: Desc): nat {
    if d.tag == EXACT then 6 else d.slab % 16
  }

  function Words(s: nat, d: Desc, bitmap: seq<nat>): seq<nat> {
    if s < 6 then bitmap else if s == 6 then [d.slab] else [d.slab / MAP]
  }

  ghost predicate Sized(h: Heap) {
    |h.mem.pages| == |h.layout.use| == |h.layout.size| == |h.bitmaps|
  }

  ghost predicate IsPage(h: Heap, x: nat) {
    Sized(h) && x < |h.bitmaps| && h.layout.use[x] == Slab
  }

  ghost function ShiftAt(h: Heap, x: nat): nat
    requires IsPage(h, x)
  {
    ShiftOf(h.mem.pages[x])
  }

  ghost function WordsAt(h: Heap, x: nat): seq<nat>
    requires IsPage(h, x)
  {
    Words(ShiftAt(h, x), h.mem.pages[x], h.bitmaps[x])
  }

  /** The descriptor and the bitmap of a page fit together, and the reserved chunks are taken. */
  ghost predicate WellCut(h: Heap, x: nat) {
    && IsPage(h, x)
    && var d, s, ws := h.mem.pages[x], ShiftAt(h, x), WordsAt(h, x);
    && IsShift(s) && d.tag == Tag(s) && (s < 6 ==> d.slab == s) && (s > 6 ==> d.slab % MAP == s)
    && |ws| == WordCount(s) && Fits(ws, Width(s)) && forall c: nat | c < Reserved(s) :: Taken(ws, Width(s), c)
  }

  ghost predicate HasRoom(h: Heap, x: nat)
    requires WellCut(h, x)
  {
    Room(WordsAt(h, x), Width(ShiftAt(h, x)))
  }

  /** Some chunk is in use. */
  ghost predicate Occupied(h: Heap, x: nat)
    requires WellCut(h, x)
  {
    InUse(WordsAt(h, x), Width(ShiftAt(h, x)), Reserved(ShiftAt(h, x)))
  }

  /** The page is on the list of its own class, if at all. */
  ghost predicate OnlyOn(L: Layout, k: nat, x: nat, on: bool) {
    forall j: nat | 0 < j < |L.lists| :: x in L.lists[j] <==> (j == k && on)
  }

  /** A page is on the list of its class exactly if it has a free chunk. */
  ghost predicate SlabOk(minShift: nat, h: Heap, x: nat) {
    WellCut(h, x) && minShift <= ShiftAt(h, x) && Occupied(h, x)
    && OnlyOn(h.layout, ListOf(minShift, ShiftAt(h, x)), x, HasRoom(h, x))
  }

  /** List number 0 is the free list. */
  function ListOf(minShift: nat, s: nat): nat {
    if s < minShift then 0 else s - minShift + 1
  }

  ghost predicate Classes(minShift: nat, L: Layout) {
    && IsShift(minShift) && |L.lists| == |L.tags| == 13 - minShift
    && forall s: nat | minShift <= s <= 11 :: L.tags[ListOf(minShift, s)] == Tag(s)
  }

  /** All pages, but perhaps one, that are cut into chunks are in order. */
  ghost predicate SlabsOk(minShift: nat, h: Heap, but: int) {
    && Sized(h) && Classes(minShift, h.layout)
    && forall x: nat | x < |h.bitmaps| && x != but && h.layout.use[x] == Slab :: SlabOk(minShift, h, x)
  }

  ghost predicate HeapOk(minShift: nat, h: Heap) {
    Inv(h.mem, h.layout) && SlabsOk(minShift, h, -1)
  }

  lemma SlabOkAt(minShift: nat, h: Heap, but: int, x: nat)
    requires SlabsOk(minShift, h, but) && x < |h.bitmaps| && Sized(h) && h.layout.use[x] == Slab && x != but
    ensures SlabOk(minShift, h, x) && IsPage(h, x)
  {
  }

  lemma ClassesAt(minShift: nat, h: Heap, but: int, s: nat)
    requires SlabsOk(minShift, h, but) && minShift <= s <= 11
    ensures Sized(h) && IsShift(minShift) && |h.layout.lists| == |h.layout.tags| == 13 - minShift
    ensures 0 < ListOf(minShift, s) < |h.layout.lists| && h.layout.tags[ListOf(minShift, s)] == Tag(s)
  {
  }

  /** Chunk `c` of page `x` is in use. */
  ghost predicate Live(h: Heap, x: nat, c: nat) {
    && IsPage(h, x) && IsShift(ShiftAt(h, x))
    && var s := ShiftAt(h, x); Reserved(s) <= c < Chunks(s) && Taken(WordsAt(h, x), Width(s), c)
  }

  /** The chunks in use are those before, but for chunk `c` of page `x`. */
  ghost predicate OneChunk(h: Heap, h': Heap, x: nat, c: nat, live: bool) {
    forall y: nat, d: nat :: Live(h', y, d) <==> if y == x && d == c then live else Live(h, y, d)
  }

  // ----- frames -----

  /** The page is described as before. */
  ghost predicate SameCut(h: Heap, h': Heap, x: nat) {
    && IsPage(h, x) && IsPage(h', x) && h'.bitmaps[x] == h.bitmaps[x]
    && h'.mem.pages[x].slab == h.mem.pages[x].slab && h'.mem.pages[x].tag == h.mem.pages[x].tag
  }

  lemma SameCutIs(h: Heap, h': Heap, x: nat)
    requires SameCut(h, h', x)
    ensures IsPage(h, x) && IsPage(h', x)
    ensures ShiftAt(h', x) == ShiftAt(h, x) && WordsAt(h', x) == WordsAt(h, x)
    ensures WellCut(h', x) <==> WellCut(h, x)
    ensures forall c: nat :: Live(h', x, c) <==> Live(h, x, c)
  {
    hide Taken, Fits, Reserved, Chunks, WordCount, Width;
  }

  /** A change that leaves all pages but `x` as they are. */
  ghost predicate Elsewhere(h: Heap, h': Heap, x: int) {
    && Sized(h) && Sized(h') && |h'.bitmaps| == |h.bitmaps|
    && |h'.layout.lists| == |h.layout.lists| && h'.layout.tags == h.layout.tags
    && (forall y: nat | y < |h.bitmaps| && y != x :: h'.layout.use[y] == Slab <==> h.layout.use[y] == Slab)
    && (forall y: nat | y < |h.bitmaps| && y != x && h.layout.use[y] == Slab :: SameCut(h, h', y))
    && (forall k: nat, y: nat | 0 < k < |h.layout.lists| && y != x :: y in h'.layout.lists[k] <==> y in h.layout.lists[k])
  }

  lemma SlabsElsewhere(minShift: nat, h: Heap, h': Heap, x: int)
    requires SlabsOk(minShift, h, x) && Elsewhere(h, h', x)
    ensures SlabsOk(minShift, h', x)
  {
    hide WellCut, HasRoom, Occupied, SameCut, Tag;
    forall y: nat | y < |h'.bitmaps| && y != x && h'.layout.use[y] == Slab ensures SlabOk(minShift, h', y) {
      SlabOkAt(minShift, h, x, y);
      SlabElsewhere(minShift, h, h', x, y);
    }
  }

  lemma SlabElsewhere(minShift: nat, h: Heap, h': Heap, x: int, y: nat)
    requires SlabOk(minShift, h, y) && Elsewhere(h, h', x) && y != x && SameCut(h, h', y)
    ensures SlabOk(minShift, h', y)
  {
    SameCutIs(h, h', y);
    hide WellCut, SameCut, Room, InUse, Words, ShiftOf, Reserved, Width;
  }

  lemma SlabsBut(minShift: nat, h: Heap, x: nat)
    requires SlabsOk(minShift, h, -1)
    ensures SlabsOk(minShift, h, x)
  {
    hide SlabOk, Classes;
  }

  lemma SlabsWith(minShift: nat, h: Heap, x: nat)
    requires SlabsOk(minShift, h, x) && (IsPage(h, x) ==> SlabOk(minShift, h, x))
    ensures SlabsOk(minShift, h, -1)
  {
    hide SlabOk, Classes;
  }

  lemma LiveElsewhere(h: Heap, h': Heap, x: int, y: nat, c: nat)
    requires Elsewhere(h, h', x) && y != x
    ensures Live(h', y, c) <==> Live(h, y, c)
  {
    hide SameCut, Taken, Words, ShiftOf, Reserved, Width, Chunks;
    if IsPage(h, y) { SameCutIs(h, h', y); }
  }

  /** Pages that are cut into chunks keep the size of their chunks, and stay cut, but perhaps for page `x`. */
  ghost predicate SameClasses(h: Heap, h': Heap, x: int) {
    forall y: nat | IsPage(h, y) && (y != x || IsPage(h', y)) :: IsPage(h', y) && ShiftAt(h', y) == ShiftAt(h, y)
  }

  lemma ClassesElsewhere(h: Heap, h': Heap, x: int)
    requires Elsewhere(h, h', x)
    requires x >= 0 && IsPage(h, x) && IsPage(h', x) ==> ShiftAt(h', x) == ShiftAt(h, x)
    ensures SameClasses(h, h', x)
  {
    hide SameCut, Words, ShiftOf;
    forall y: nat | IsPage(h, y) && y != x ensures IsPage(h', y) && ShiftAt(h', y) == ShiftAt(h, y) {
      SameCutIs(h, h', y);
    }
  }

  // ----- another word of the bitmap -----

  /** Stores `w` as word number `n` of the bitmap of page `x`. */
  ghost function WithWord(h: Heap, s: nat, x: nat, n: nat, w: nat): (h': Heap)
    requires x < |h.mem.pages| && x < |h.bitmaps| && (s < 6 ==> n < |h.bitmaps[x]|)
  {
    if s < 6 then
      var row: seq<nat> := h.bitmaps[x][n := w];
      h.(bitmaps := h.bitmaps[x := row])
    else if s == 6 then h.(mem := SetSlab(h.mem, x, w))
    else h.(mem := SetSlab(h.mem, x, h.mem.pages[x].slab % MAP + MAP * w))
  }

  lemma WithWordIs(h: Heap, s: nat, x: nat, n: nat, w: nat)
    requires WellCut(h, x) && s == ShiftAt(h, x) && n < |WordsAt(h, x)|
    ensures IsShift(s) && (s < 6 ==> n < |h.bitmaps[x]|)
    ensures var h' := WithWord(h, s, x, n, w);
            && Elsewhere(h, h', x) && IsPage(h', x) && ShiftAt(h', x) == s && WordsAt(h', x) == WordsAt(h, x)[n := w]
            && h'.layout == h.layout && h'.mem.pages[x].tag == h.mem.pages[x].tag
            && (s < 6 ==> h'.mem.pages[x].slab == s) && (s > 6 ==> h'.mem.pages[x].slab % MAP == s)
    ensures Inv(h.mem, h.layout) && (s == 6 ==> w > 0) ==> Inv(WithWord(h, s, x, n, w).mem, h.layout)
  {
    hide Inv, Fits, Taken, Reserved, WordCount, Width, Chunks, Elsewhere, WithWord;
    WithWordWords(h, s, x, n, w);
    WithWordElsewhere(h, s, x, n, w);
    if Inv(h.mem, h.layout) && (s == 6 ==> w > 0) { WithWordInv(h, s, x, n, w); }
  }

  lemma WithWordWords(h: Heap, s: nat, x: nat, n: nat, w: nat)
    requires WellCut(h, x) && s == ShiftAt(h, x) && n < |WordsAt(h, x)|
    ensures IsShift(s) && (s < 6 ==> n < |h.bitmaps[x]|)
    ensures var h' := WithWord(h, s, x, n, w);
            && IsPage(h', x) && ShiftAt(h', x) == s && WordsAt(h', x) == WordsAt(h, x)[n := w]
            && h'.layout == h.layout && h'.mem.pages[x].tag == h.mem.pages[x].tag
            && (s < 6 ==> h'.mem.pages[x].slab == s) && (s > 6 ==> h'.mem.pages[x].slab % MAP == s)
  {
    DescriptorOf(h, x, s);
    hide WellCut, IsShift;
    if s > 6 { HalfWord(h.mem.pages[x].slab, s, w); }
  }

  lemma DescriptorOf(h: Heap, x: nat, s: nat)
    requires WellCut(h, x) && s == ShiftAt(h, x)
    ensures IsShift(s) && h.mem.pages[x].tag == Tag(s) && (s >= 6 ==> |WordsAt(h, x)| == 1)
    ensures (s < 6 ==> h.mem.pages[x].slab == s) && (s > 6 ==> h.mem.pages[x].slab % MAP == s)
  {
    hide Fits, Taken, Reserved, Width, Chunks, ShiftOf, Words;
  }

  /** Changing the upper half of a word leaves the shift in the lower half. */
  lemma HalfWord(slab: nat, s: nat, w: nat)
    requires slab % MAP == s && s < 16
    ensures var v := slab % MAP + MAP * w; v / MAP == w && v % MAP == s && v % 16 == s
  {
    UpperHalf(s, w);
    LowerBits(s, w);
  }

  lemma UpperHalf(s: nat, w: nat)
    requires s < 16
    ensures (s + MAP * w) / MAP == w && (s + MAP * w) % MAP == s
  {
  }

  lemma LowerBits(s: nat, w: nat)
    requires s < 16
    ensures (s + MAP * w) % 16 == s
  {
    assert MAP * w == 0x1_0000_0000 * w;
    Sixteenth(s, 0x1000_0000 * w);
  }

  lemma Sixteenth(s: nat, k: nat)
    requires s < 16
    ensures (s + 16 * k) % 16 == s
  {
  }

  lemma WithWordElsewhere(h: Heap, s: nat, x: nat, n: nat, w: nat)
    requires IsPage(h, x) && (s < 6 ==> n < |h.bitmaps[x]|)
    ensures Elsewhere(h, WithWord(h, s, x, n, w), x)
  {
  }

  lemma WithWordInv(h: Heap, s: nat, x: nat, n: nat, w: nat)
    requires IsPage(h, x) && s == ShiftAt(h, x) && (s < 6 ==> n < |h.bitmaps[x]|) && Inv(h.mem, h.layout)
    requires if s == 6 then w > 0 else s > 6 ==> h.mem.pages[x].slab % MAP == s
    ensures Inv(WithWord(h, s, x, n, w).mem, h.layout)
  {
    hide Inv;
    SlabIsOnePage(h.mem, h.layout, x);
    if s == 6 {
      SetSlabKeepsInv(h.mem, h.layout, x, w);
    } else if s > 6 {
      SetSlabKeepsInv(h.mem, h.layout, x, h.mem.pages[x].slab % MAP + MAP * w);
    }
  }

  /** Sets or clears one bit of the bitmap, but not of a reserved chunk. */
  lemma BitChanged(h: Heap, s: nat, x: nat, n: nat, i: nat, on: bool)
    requires WellCut(h, x) && s == ShiftAt(h, x) && n < |WordsAt(h, x)| && i < Width(s)
    requires Reserved(s) <= n * Width(s) + i
    ensures IsShift(s) && (s < 6 ==> n < |h.bitmaps[x]|)
    ensures var h' := WithWord(h, s, x, n, WithBit(WordsAt(h, x)[n], i, on));
            && Elsewhere(h, h', x) && h'.layout == h.layout && WellCut(h', x) && ShiftAt(h', x) == s
            && WordsAt(h', x) == WordsAt(h, x)[n := WithBit(WordsAt(h, x)[n], i, on)]
            && OneChunk(h, h', x, n * Width(s) + i, on)
  {
    hide Inv, Fits, Bit, WithBit, Elsewhere, WithWord, Taken, Reserved, Width, Chunks, WordCount;
    var w := WithBit(WordsAt(h, x)[n], i, on);
    WithWordIs(h, s, x, n, w);
    var h', c := WithWord(h, s, x, n, w), n * Width(s) + i;
    TakenAfter(WordsAt(h, x), Width(s), n, i, on);
    FitsAfter(WordsAt(h, x), Width(s), n, i, on);
    TakenAt(WordsAt(h, x), Width(s), n, i);
    Constants(s);
    StillReserved(h, x, s, WordsAt(h', x), c);
    StillCut(h, h', x, s);
    forall y: nat, d: nat ensures Live(h', y, d) <==> if y == x && d == c then on else Live(h, y, d) {
      if y != x { LiveElsewhere(h, h', x, y, d); }
    }
  }

  lemma StillReserved(h: Heap, x: nat, s: nat, ws: seq<nat>, c: nat)
    requires WellCut(h, x) && ShiftAt(h, x) == s && Reserved(s) <= c
    requires forall d: nat | d != c :: Taken(ws, Width(s), d) <==> Taken(WordsAt(h, x), Width(s), d)
    ensures forall d: nat | d < Reserved(s) :: Taken(ws, Width(s), d)
  {
    hide Fits, Taken, Reserved, Width, WordCount;
  }

  lemma StillCut(h: Heap, h': Heap, x: nat, s: nat)
    requires WellCut(h, x) && IsPage(h', x) && ShiftAt(h, x) == s == ShiftAt(h', x)
    requires |WordsAt(h', x)| == |WordsAt(h, x)| && Fits(WordsAt(h', x), Width(s))
    requires forall c: nat | c < Reserved(s) :: Taken(WordsAt(h', x), Width(s), c)
    requires h'.mem.pages[x].tag == h.mem.pages[x].tag
    requires (s < 6 ==> h'.mem.pages[x].slab == s) && (s > 6 ==> h'.mem.pages[x].slab % MAP == s)
    ensures WellCut(h', x)
  {
    hide Fits, Taken, Reserved, Width, WordCount;
  }

  // ----- pages going on and off the lists -----

  /** Only links and lists have changed. */
  ghost predicate Relisted(h: Heap, h': Heap, x: nat) {
    Elsewhere(h, h', x) && SameCut(h, h', x)
  }

  lemma RelistedIs(h: Heap, h': Heap, x: nat)
    requires Relisted(h, h', x) && WellCut(h, x)
    ensures IsPage(h', x) && WellCut(h', x) && ShiftAt(h', x) == ShiftAt(h, x) && WordsAt(h', x) == WordsAt(h, x)
    ensures forall y: nat, c: nat :: Live(h', y, c) <==> Live(h, y, c)
  {
    hide Elsewhere, SameCut, WellCut, Live;
    SameCutIs(h, h', x);
    forall y: nat, c: nat ensures Live(h', y, c) <==> Live(h, y, c) {
      if y != x { LiveElsewhere(h, h', x, y, c); }
    }
  }

  lemma CutIsPage(h: Heap, x: nat)
    requires WellCut(h, x)
    ensures IsPage(h, x)
  {
    hide Fits, Taken, Reserved, WordCount, Width;
  }

  lemma TakenOffPage(h: Heap, k: nat, x: nat)
    requires Inv(h.mem, h.layout) && WellCut(h, x) && 0 < k < |h.layout.lists| == |h.layout.tags| && x in h.layout.lists[k]
    requires OnlyOn(h.layout, k, x, true)
    ensures Valid(h.mem, h.mem.pages[x].prev) && Valid(h.mem, h.mem.pages[x].next)
    ensures var h' := h.(mem := TakenOff(h.mem, x, h.layout.tags[k]), layout := OffList(h.layout, k, x));
            Inv(h'.mem, h'.layout) && Relisted(h, h', x) && OnlyOn(h'.layout, k, x, false)
  {
    CutIsPage(h, x);
    hide Inv, WellCut, TakenOff, Drop, Distinct, Relisted;
    SlabIsOnePage(h.mem, h.layout, x);
    TakenOffKeepsInv(h.mem, h.layout, k, x);
    InvParts(h.mem, h.layout, k);
    DropIs(h.layout.lists[k], x);
    ListChanged(h, h.(mem := TakenOff(h.mem, x, h.layout.tags[k]), layout := OffList(h.layout, k, x)), k, x);
  }

  lemma ListChanged(h: Heap, h': Heap, k: nat, x: nat)
    requires IsPage(h, x) && k < |h.layout.lists| == |h'.layout.lists| && |h'.mem.pages| == |h.mem.pages|
    requires h' == h.(mem := h'.mem, layout := h.layout.(lists := h.layout.lists[k := h'.layout.lists[k]]))
    requires forall y: nat | y != x :: y in h'.layout.lists[k] <==> y in h.layout.lists[k]
    requires forall y: nat | y < |h.mem.pages| ::
               h'.mem.pages[y].slab == h.mem.pages[y].slab && h'.mem.pages[y].tag == h.mem.pages[y].tag
    ensures Relisted(h, h', x)
  {
  }

  lemma PutOnPage(h: Heap, k: nat, x: nat)
    requires Inv(h.mem, h.layout) && WellCut(h, x) && 0 < k < |h.layout.lists| == |h.layout.tags|
    requires OnlyOn(h.layout, k, x, false) && h.layout.tags[k] == h.mem.pages[x].tag
    ensures k < |h.mem.heads| && Valid(h.mem, h.mem.heads[k].next)
    ensures var h' := h.(mem := Pushed(h.mem, k, x, h.layout.tags[k]), layout := OnList(h.layout, k, x));
            Inv(h'.mem, h'.layout) && Relisted(h, h', x) && OnlyOn(h'.layout, k, x, true)
  {
    CutIsPage(h, x);
    hide Inv, WellCut, Pushed, Listed, Relisted;
    SlabIsOnePage(h.mem, h.layout, x);
    InvParts(h.mem, h.layout, 0);
    ListedAt(h.layout, 0);
    assert Unlisted(h.layout, x);
    PutOnKeepsInv(h.mem, h.layout, k, x);
    ListChanged(h, h.(mem := Pushed(h.mem, k, x, h.layout.tags[k]), layout := OnList(h.layout, k, x)), k, x);
  }

  // ----- a chunk is taken -----

  /** A chunk is taken on a page that keeps a free one, and so its place on the list. */
  lemma TakenKeepsPlace(minShift: nat, h: Heap, h1: Heap, x: nat, c: nat)
    requires SlabsOk(minShift, h, -1) && WellCut(h, x) && HasRoom(h, x)
    requires Elsewhere(h, h1, x) && WellCut(h1, x) && ShiftAt(h1, x) == ShiftAt(h, x) && Live(h1, x, c)
    requires OnlyOn(h1.layout, ListOf(minShift, ShiftAt(h, x)), x, true) && HasRoom(h1, x)
    ensures SlabsOk(minShift, h1, -1)
  {
    LiveOccupies(h1, x, c);
    hide Elsewhere, Classes, Live, WellCut, HasRoom, Occupied, ListOf, OnlyOn;
    SlabOkAt(minShift, h, -1, x);
    SlabsBut(minShift, h, x);
    SlabsElsewhere(minShift, h, h1, x);
    SlabsWith(minShift, h1, x);
  }

  /** The last free chunk is taken, and the page leaves the list. */
  lemma TakenLeavesList(minShift: nat, h: Heap, h1: Heap, h2: Heap, x: nat, c: nat)
    requires SlabsOk(minShift, h, -1) && WellCut(h, x)
    requires Elsewhere(h, h1, x) && WellCut(h1, x) && ShiftAt(h1, x) == ShiftAt(h, x) && Live(h1, x, c) && !HasRoom(h1, x)
    requires Relisted(h1, h2, x) && OnlyOn(h2.layout, ListOf(minShift, ShiftAt(h, x)), x, false)
    ensures SlabsOk(minShift, h2, -1)
  {
    RelistedIs(h1, h2, x);
    LiveOccupies(h2, x, c);
    hide Elsewhere, Classes, Live, WellCut, Occupied, ListOf, OnlyOn, SameCut, Room;
    SlabOkAt(minShift, h, -1, x);
    SlabsBut(minShift, h, x);
    SlabsElsewhere(minShift, h, h1, x);
    SlabsElsewhere(minShift, h1, h2, x);
    SlabsWith(minShift, h2, x);
  }

  lemma LiveOccupies(h: Heap, x: nat, c: nat)
    requires WellCut(h, x) && Live(h, x, c)
    ensures Occupied(h, x)
  {
    Constants(ShiftAt(h, x));
    hide Fits, Taken, Reserved, Width, Chunks, WordCount, Words, ShiftOf;
  }

  lemma OccupiedByLive(h: Heap, x: nat) returns (c: nat)
    requires WellCut(h, x) && Occupied(h, x)
    ensures Live(h, x, c)
  {
    Constants(ShiftAt(h, x));
    hide Fits, Taken, Reserved, Width, Chunks, WordCount, Words, ShiftOf;
    var s := ShiftAt(h, x);
    c :| Reserved(s) <= c < |WordsAt(h, x)| * Width(s) && Taken(WordsAt(h, x), Width(s), c);
  }

  // ----- a chunk is given back -----

  /** A chunk is given back on a page where others are in use. */
  lemma ClearedIsListed(minShift: nat, h: Heap, h2: Heap, x: nat, c: nat)
    requires SlabsOk(minShift, h, -1) && WellCut(h, x) && Elsewhere(h, h2, x) && WellCut(h2, x) && ShiftAt(h2, x) == ShiftAt(h, x)
    requires c < Chunks(ShiftAt(h, x)) && !Taken(WordsAt(h2, x), Width(ShiftAt(h, x)), c)
    requires OnlyOn(h2.layout, ListOf(minShift, ShiftAt(h, x)), x, true) && Occupied(h2, x)
    ensures SlabsOk(minShift, h2, -1)
  {
    ClearedHasRoom(h2, x, c);
    hide Elsewhere, Classes, WellCut, Occupied, ListOf, OnlyOn, HasRoom;
    SlabOkAt(minShift, h, -1, x);
    SlabsBut(minShift, h, x);
    SlabsElsewhere(minShift, h, h2, x);
    SlabsWith(minShift, h2, x);
  }

  lemma ClearedHasRoom(h: Heap, x: nat, c: nat)
    requires WellCut(h, x) && c < Chunks(ShiftAt(h, x)) && !Taken(WordsAt(h, x), Width(ShiftAt(h, x)), c)
    ensures HasRoom(h, x)
  {
    Constants(ShiftAt(h, x));
    hide Fits, Taken, Reserved, Width, Chunks, WordCount, Words, ShiftOf;
  }

  /** The last chunk in use is given back, and with it the page. */
  lemma PageIsGone(minShift: nat, h: Heap, h': Heap, x: nat)
    requires SlabsOk(minShift, h, x) && Elsewhere(h, h', x) && x < |h'.layout.use| && h'.layout.use[x] != Slab
    ensures SlabsOk(minShift, h', -1)
    ensures forall y: nat, c: nat :: Live(h', y, c) <==> y != x && Live(h, y, c)
  {
    SlabsElsewhere(minShift, h, h', x);
    hide Elsewhere, Classes, SlabOk;
    SlabsWith(minShift, h', x);
    forall y: nat, c: nat ensures Live(h', y, c) <==> y != x && Live(h, y, c) {
      if y != x { LiveElsewhere(h, h', x, y, c); }
    }
  }

  /** What `ncx_slab_free_pages` does to the other pages. */
  lemma FreedElsewhere(h: Heap, h': Heap, x: nat)
    requires Sized(h) && Inv(h.mem, h.layout) && Freed(h.layout, h'.layout, x) && SlabsKept(h.mem, h'.mem, h'.layout)
    requires h'.bitmaps == h.bitmaps && h.layout.use[x] == Slab
    ensures Elsewhere(h, h', x) && x < |h'.layout.use| && h'.layout.use[x] == Free
  {
    hide Inv, Drop, Distinct;
    SlabIsOnePage(h.mem, h.layout, x);
    forall k: nat | k < |h.layout.lists| ensures forall y: nat :: y in Drop(h.layout.lists[k], x) <==> y in h.layout.lists[k] && y != x {
      InvParts(h.mem, h.layout, k);
      DropIs(h.layout.lists[k], x);
    }
  }

  /** Freeing a run of whole pages does not touch pages that are cut into chunks. */
  lemma WholeFreedElsewhere(h: Heap, h': Heap, x: nat)
    requires Sized(h) && Inv(h.mem, h.layout) && Freed(h.layout, h'.layout, x) && SlabsKept(h.mem, h'.mem, h'.layout)
    requires h'.bitmaps == h.bitmaps && h.layout.use[x] == Whole
    ensures Elsewhere(h, h', -1)
  {
    hide Inv, Drop, Distinct, Tiled, Listed;
    ListsExist(h.mem, h.layout);
    InvParts(h.mem, h.layout, 0);
    forall j: nat | x <= j < x + h.layout.size[x] ensures h.layout.use[j] == Whole { InteriorUse(h.layout, x, j); }
    forall k: nat | 0 < k < |h.layout.lists| ensures h'.layout.lists[k] == h.layout.lists[k] {
      ListedAt(h.layout, k);
      DropNone(h.layout.lists[k], x);
    }
  }

  // ----- a page is cut -----

  /** What `ncx_slab_alloc_pages` does to pages that are cut into chunks: nothing. */
  lemma CarvedElsewhere(h: Heap, h': Heap, i: nat, pages: nat)
    requires Sized(h) && Fitting(h.layout, i, pages) && h'.layout == Carved(h.layout, i, pages) && h'.bitmaps == h.bitmaps
    requires Distinct(h.layout.lists[0]) && SlabsKept(h.mem, h'.mem, h'.layout)
    ensures Elsewhere(h, h', -1)
  {
    hide Fitting, Carved, Distinct, Tiled, Listed, Parts, Count;
    CarvedIs(h.layout, i, pages);
    CarvedFree(h.layout, i, pages);
    AllocationIsDisjoint(h.layout, i, pages);
  }

  function FreshWords(s: nat): seq<nat>
    requires IsShift(s)
  {
    [Pow2(Reserved(s) + 1) - 1] + seq((if WordCount(s) > 0 then WordCount(s) - 1 else 0), _ => 0)
  }

  function FreshSlab(s: nat): nat {
    if s < 6 then s else if s == 6 then 1 else MAP + s
  }

  /** A whole page becomes a page of class `s`, with one chunk taken, alone on its list. */
  ghost function NewPage(h: Heap, k: nat, x: nat, s: nat): Heap
    requires IsShift(s) && k < |h.mem.heads| && k < |h.layout.lists| && x < |h.mem.pages| && x < |h.bitmaps| && x < |h.layout.use|
  {
    Heap(MadeSlab(h.mem, k, x, FreshSlab(s), Tag(s)), NewSlab(h.layout, k, x),
         if s < 6 then h.bitmaps[x := FreshWords(s)] else h.bitmaps)
  }

  lemma FreshBits(s: nat, c: nat)
    requires IsShift(s)
    ensures |FreshWords(s)| == WordCount(s) && Fits(FreshWords(s), Width(s))
    ensures Taken(FreshWords(s), Width(s), c) <==> c <= Reserved(s)
  {
    hide Reserved, Pow2, WordCount, Width, Chunks, Taken, Bit;
    Constants(s);
    PowersGrow(Reserved(s) + 1, Width(s));
    FirstBits(FreshWords(s), Width(s), Reserved(s) + 1, c);
  }

  /** Only the first `n` bits are set. */
  lemma FirstBits(ws: seq<nat>, width: nat, n: nat, c: nat)
    requires n <= width && width > 0 && |ws| > 0 && ws[0] == Pow2(n) - 1 && forall j: nat | 0 < j < |ws| :: ws[j] == 0
    ensures Taken(ws, width, c) <==> c < n
  {
    hide Pow2, Bit;
    if c < width {
      Place(0, c, width);
      LowBits(n, c);
    } else {
      Rows(c / width, 1, width);
      NoBits(c % width);
    }
  }

  lemma {:induction false} PowersGrow(a: nat, b: nat)
    requires a <= b
    ensures Pow2(a) <= Pow2(b)
  {
    if a < b { PowersGrow(a, b - 1); }
  }

  lemma NewPageElsewhere(h: Heap, k: nat, x: nat, s: nat)
    requires Inv(h.mem, h.layout) && Sized(h) && IsShift(s) && 0 < k < |h.layout.lists| == |h.layout.tags| == |h.mem.heads|
    requires x < |h.bitmaps| && h.layout.lists[k] == []
    ensures var h' := NewPage(h, k, x, s); Elsewhere(h, h', x) && IsPage(h', x)
  {
    hide Inv, FreshWords;
  }

  lemma NewPageCut(h: Heap, k: nat, x: nat, s: nat)
    requires Sized(h) && IsShift(s) && 0 < k < |h.layout.lists| == |h.mem.heads| && x < |h.bitmaps|
    ensures var h' := NewPage(h, k, x, s);
            WellCut(h', x) && ShiftAt(h', x) == s && forall c: nat :: Taken(WordsAt(h', x), Width(s), c) <==> c <= Reserved(s)
  {
    hide Taken, WordCount, Reserved, Fits, Width, FreshWords;
    var h' := NewPage(h, k, x, s);
    forall c: nat
      ensures |FreshWords(s)| == WordCount(s) && Fits(FreshWords(s), Width(s))
      ensures Taken(FreshWords(s), Width(s), c) <==> c <= Reserved(s)
    {
      FreshBits(s, c);
    }
    FreshBits(s, 0);
    if s >= 6 { BigWords(s); }
  }

  /** Without a bitmap in the page there is one word, and no chunk is reserved. */
  lemma BigWords(s: nat)
    requires IsShift(s) && s >= 6
    ensures FreshWords(s) == [1]
  {
    assert Pow2(1) == 2 * Pow2(0);
  }

  /** The invariant after a page was cut, and its first free chunk taken. */
  lemma NewPageIs(minShift: nat, h: Heap, x: nat, s: nat)
    requires Inv(h.mem, h.layout) && SlabsOk(minShift, h, -1) && minShift <= s <= 11 && x < |h.bitmaps|
    requires |h.layout.use| == |h.layout.size| == |h.mem.pages| == |h.bitmaps|
    requires h.layout.use[x] == Whole && h.layout.size[x] == 1
    requires ListOf(minShift, s) < |h.layout.lists| && h.layout.lists[ListOf(minShift, s)] == []
    ensures IsShift(s) && ListOf(minShift, s) < |h.mem.heads|
    ensures var h' := NewPage(h, ListOf(minShift, s), x, s);
            HeapOk(minShift, h') && !Live(h, x, Reserved(s)) && IsPage(h', x) && ShiftAt(h', x) == s
            && OneChunk(h, h', x, Reserved(s), true) && Elsewhere(h, h', x)
  {
    hide Inv, SlabsOk, WordCount, Reserved, Taken, MadeSlab, SlabOk, FreshWords, WellCut, Classes, Live, ListOf, Elsewhere, NewPage;
    ClassesAt(minShift, h, -1, s);
    var k := ListOf(minShift, s);
    InvParts(h.mem, h.layout, k);
    var h' := NewPage(h, k, x, s);
    NewPageInv(h, k, x, s);
    NewPageElsewhere(h, k, x, s);
    NewPageCut(h, k, x, s);
    NewPageOk(minShift, h, k, x, s);
    SlabsBut(minShift, h, x);
    SlabsElsewhere(minShift, h, h', x);
    SlabsWith(minShift, h', x);
    forall y: nat, d: nat ensures Live(h', y, d) <==> if y == x && d == Reserved(s) then true else Live(h, y, d) {
      if y != x { LiveElsewhere(h, h', x, y, d); } else { NewPageLive(h, h', x, s, d); }
    }
    NewPageLive(h, h', x, s, Reserved(s));
  }

  lemma NewPageInv(h: Heap, k: nat, x: nat, s: nat)
    requires Inv(h.mem, h.layout) && Sized(h) && IsShift(s) && 0 < k < |h.layout.lists| == |h.layout.tags| == |h.mem.heads|
    requires x < |h.bitmaps| && h.layout.use[x] == Whole && h.layout.size[x] == 1
    requires h.layout.lists[k] == [] && h.layout.tags[k] == Tag(s)
    ensures var h' := NewPage(h, k, x, s); Inv(h'.mem, h'.layout)
  {
    hide Inv, MadeSlab, FreshWords;
    MadeSlabKeepsInv(h.mem, h.layout, k, x, FreshSlab(s));
  }

  lemma NewPageOk(minShift: nat, h: Heap, k: nat, x: nat, s: nat)
    requires Inv(h.mem, h.layout) && Sized(h) && minShift <= s <= 11 && IsShift(s) && 0 < k == ListOf(minShift, s) < |h.layout.lists|
    requires |h.mem.heads| == |h.layout.lists| && x < |h.bitmaps| && h.layout.use[x] == Whole && h.layout.size[x] == 1
    requires h.layout.lists[k] == []
    ensures SlabOk(minShift, NewPage(h, k, x, s), x)
  {
    hide Inv, WordCount, Reserved, Taken, FreshWords, WellCut, MadeSlab, Room, InUse, Words, ShiftOf;
    var h' := NewPage(h, k, x, s);
    NewPageCut(h, k, x, s);
    Constants(s);
    NewPageLive(h, h', x, s, Reserved(s));
    LiveOccupies(h', x, Reserved(s));
    ClearedHasRoom(h', x, Reserved(s) + 1);
    InvParts(h.mem, h.layout, k);
    NewSlabListed(h.layout, k, x);
  }

  lemma NewPageLive(h: Heap, h': Heap, x: nat, s: nat, c: nat)
    requires Sized(h) && x < |h.bitmaps| && h.layout.use[x] == Whole && IsShift(s) && IsPage(h', x) && ShiftAt(h', x) == s
    requires forall d: nat :: Taken(WordsAt(h', x), Width(s), d) <==> d <= Reserved(s)
    ensures !Live(h, x, c) && (Live(h', x, c) <==> c == Reserved(s))
  {
    hide Taken, Words, ShiftOf, Reserved, Width, Chunks;
    Constants(s);
  }
}
