/**
  The bitmaps of Memory/ncx_slab.c: words as numbers, one bit for each chunk.
*/
module SlabBitmaps {
  import opened Bits

  /** `w & (1 << i)`. */
  predicate Bit(w: nat, i: nat) {
    if i == 0 then w % 2 == 1 else Bit(w / 2, i - 1)
  }

  /** `w | (1 << i)`, or `w & ~(1 << i)`. */
  function WithBit(w: nat, i: nat, on: bool): nat {
    if i == 0 then w - w % 2 + (if on then 1 else 0) else w % 2 + 2 * WithBit(w / 2, i - 1, on)
  }

  lemma {:induction false} BitOfWithBit(w: nat, i: nat, on: bool, j: nat)
    ensures Bit(WithBit(w, i, on), j) == if j == i then on else Bit(w, j)
    decreases i
  {
    if i > 0 && j > 0 {
      BitOfWithBit(w / 2, i - 1, on, j - 1);
    }
  }

  lemma {:induction false} WithBitFits(w: nat, i: nat, on: bool, n: nat)
    requires w < Pow2(n) && i < n
    ensures WithBit(w, i, on) < Pow2(n)
    decreases i
  {
    if i > 0 { WithBitFits(w / 2, i - 1, on, n - 1); }
  }

  lemma BitStep(w: nat, i: nat)
    requires i > 0
    ensures Bit(w, i) <==> Bit(w / 2, i - 1)
  {
  }

  /** Some of the bits from `r` up to `n` is set. */
  ghost predicate SomeBit(w: nat, r: nat, n: nat) {
    exists i: nat :: r <= i < n && Bit(w, i)
  }

  /** Some of them is clear. */
  ghost predicate SomeClear(w: nat, r: nat, n: nat) {
    exists i: nat :: r <= i < n && !Bit(w, i)
  }

  lemma SomeBitStep(w: nat, r: nat, n: nat)
    requires 0 < r
    ensures n > 0 ==> (SomeBit(w, r, n) <==> SomeBit(w / 2, r - 1, n - 1))
    ensures n > 0 ==> (SomeClear(w, r, n) <==> SomeClear(w / 2, r - 1, n - 1))
  {
    hide Bit;
    if n > 0 {
      forall i: nat | i > 0 ensures Bit(w, i) <==> Bit(w / 2, i - 1) { BitStep(w, i); }
      forall i: nat ensures Bit(w / 2, i) <==> Bit(w, i + 1) { BitStep(w, i + 1); }
      assert SomeBit(w, r, n) ==> SomeBit(w / 2, r - 1, n - 1);
    }
  }

  lemma SomeBitFirst(w: nat, n: nat)
    requires n > 0
    ensures SomeBit(w, 0, n) <==> w % 2 == 1 || SomeBit(w, 1, n)
    ensures SomeClear(w, 0, n) <==> w % 2 == 0 || SomeClear(w, 1, n)
  {
    assert Bit(w, 0) <==> w % 2 == 1;
  }

  /** All bits set: the comparison with NCX_SLAB_BUSY, or with the mask of a class. */
  lemma {:induction false} FullWord(w: nat, n: nat)
    requires w < Pow2(n)
    ensures w == Pow2(n) - 1 <==> !SomeClear(w, 0, n)
    decreases n
  {
    hide SomeClear;
    if n > 0 {
      SomeBitFirst(w, n);
      SomeBitStep(w, 1, n);
      FullWord(w / 2, n - 1);
    } else {
      NoneAtAll(w);
    }
  }

  lemma NoneAtAll(w: nat)
    ensures !SomeClear(w, 0, 0) && !SomeBit(w, 0, 0)
  {
  }

  lemma {:induction false} AnyBit(w: nat, n: nat)
    requires w < Pow2(n)
    ensures w > 0 <==> SomeBit(w, 0, n)
    decreases n
  {
    hide SomeBit;
    if n > 0 {
      SomeBitFirst(w, n);
      SomeBitStep(w, 1, n);
      AnyBit(w / 2, n - 1);
    } else {
      NoneAtAll(w);
    }
  }

  /** Some bit from `r` on is set exactly if the word is not less than 2 to the `r`: the test with the mask `~((1 << r) - 1)`. */
  lemma {:induction false} HighBits(w: nat, r: nat, n: nat)
    requires w < Pow2(n) && r <= n
    ensures w >= Pow2(r) <==> SomeBit(w, r, n)
    decreases n
  {
    hide SomeBit;
    if r == 0 {
      AnyBit(w, n);
    } else {
      SomeBitStep(w, r, n);
      HighBits(w / 2, r - 1, n - 1);
    }
  }

  /** `(1 << n) - 1`: the first bits. */
  lemma {:induction false} LowBits(n: nat, i: nat)
    ensures Bit(Pow2(n) - 1, i) <==> i < n
    decreases n
  {
    if n > 0 && i > 0 { LowBits(n - 1, i - 1); }
    if n == 0 { NoBits(i); }
  }

  lemma {:induction false} NoBits(i: nat)
    ensures !Bit(0, i)
  {
    if i > 0 { NoBits(i - 1); }
  }

  /** The loop over the bits of a word that is not full. */
  method FirstFree(w: nat, n: nat) returns (i: nat)
    requires w < Pow2(n) && w != Pow2(n) - 1
    ensures i < n && !Bit(w, i) && forall j: nat | j < i :: Bit(w, j)
  {
    FullWord(w, n);
    ghost var free: nat :| free < n && !Bit(w, free);
    i := 0;
    while Bit(w, i)
      invariant i <= free && forall j: nat | j < i :: Bit(w, j)
      decreases free - i
    {
      i := i + 1;
    }
  }

  // ----- several words -----

  /** Bit number `c` of words of `width` bits. */
  predicate Taken(ws: seq<nat>, width: nat, c: nat)
    requires width > 0
  {
    c / width < |ws| && Bit(ws[c / width], c % width)
  }

  ghost predicate Fits(ws: seq<nat>, width: nat) {
    forall n: nat | n < |ws| :: ws[n] < Pow2(width)
  }

  /** Some bit is clear. */
  ghost predicate Room(ws: seq<nat>, width: nat)
    requires width > 0
  {
    exists c: nat :: c < |ws| * width && !Taken(ws, width, c)
  }

  /** Some bit from number `r` on is set. */
  ghost predicate InUse(ws: seq<nat>, width: nat, r: nat)
    requires width > 0
  {
    exists c: nat :: r <= c < |ws| * width && Taken(ws, width, c)
  }

  lemma Rows(a: nat, b: nat, width: nat)
    ensures a < b ==> a * width + width <= b * width
  {
    if a < b {
      RowsApart(a, b - a - 1, width);
    }
  }

  lemma RowsApart(a: nat, d: nat, width: nat)
    ensures (a + d + 1) * width >= a * width + width
  {
    assert (a + d + 1) * width == a * width + d * width + width;
  }

  lemma Place(n: nat, i: nat, width: nat)
    requires i < width
    ensures (n * width + i) / width == n && (n * width + i) % width == i
  {
    var q := (n * width + i) / width;
    assert n * width + i == q * width + (n * width + i) % width;
    Rows(q, n, width);
    Rows(n, q, width);
  }

  lemma TakenAt(ws: seq<nat>, width: nat, n: nat, i: nat)
    requires n < |ws| && i < width
    ensures n * width + i < |ws| * width && (Taken(ws, width, n * width + i) <==> Bit(ws[n], i))
  {
    hide Bit;
    Place(n, i, width);
    Rows(n, |ws|, width);
  }

  /** The word and the bit of a number. */
  lemma Split(c: nat, width: nat, count: nat)
    requires width > 0 && c < count * width
    ensures c / width < count && c % width < width && c == (c / width) * width + c % width
  {
    Rows(c / width, count, width);
    Rows(count, c / width, width);
  }

  lemma TakenAfter(ws: seq<nat>, width: nat, n: nat, i: nat, on: bool)
    requires n < |ws| && i < width
    ensures forall c: nat :: Taken(ws[n := WithBit(ws[n], i, on)], width, c) <==> if c == n * width + i then on else Taken(ws, width, c)
  {
    hide Bit, WithBit;
    Place(n, i, width);
    forall c: nat
      ensures Taken(ws[n := WithBit(ws[n], i, on)], width, c) <==> if c == n * width + i then on else Taken(ws, width, c)
    {
      BitOfWithBit(ws[n], i, on, c % width);
      assert c == (c / width) * width + c % width;
    }
  }

  lemma FitsAfter(ws: seq<nat>, width: nat, n: nat, i: nat, on: bool)
    requires n < |ws| && i < width && Fits(ws, width)
    ensures Fits(ws[n := WithBit(ws[n], i, on)], width)
  {
    WithBitFits(ws[n], i, on, width);
  }

  lemma RoomIn(ws: seq<nat>, width: nat) returns (n: nat)
    requires width > 0 && Room(ws, width)
    ensures n < |ws| && SomeClear(ws[n], 0, width)
  {
    hide Bit, Taken;
    var c: nat :| c < |ws| * width && !Taken(ws, width, c);
    Split(c, width, |ws|);
    n := c / width;
    TakenAt(ws, width, n, c % width);
  }

  lemma RoomFrom(ws: seq<nat>, width: nat, n: nat)
    requires width > 0 && n < |ws| && SomeClear(ws[n], 0, width)
    ensures Room(ws, width)
  {
    hide Bit, Taken;
    var i: nat :| i < width && !Bit(ws[n], i);
    TakenAt(ws, width, n, i);
  }

  /** Some bit is clear exactly if some word is not full. */
  lemma FullWords(ws: seq<nat>, width: nat)
    requires Fits(ws, width) && width > 0
    ensures Room(ws, width) <==> exists n: nat :: n < |ws| && ws[n] != Pow2(width) - 1
  {
    hide SomeClear, Room, Pow2;
    forall n: nat | n < |ws| ensures ws[n] == Pow2(width) - 1 <==> !SomeClear(ws[n], 0, width) {
      FullWord(ws[n], width);
    }
    if n: nat :| n < |ws| && ws[n] != Pow2(width) - 1 {
      RoomFrom(ws, width, n);
    } else if Room(ws, width) {
      var n := RoomIn(ws, width);
    }
  }

  lemma UseIn(ws: seq<nat>, width: nat, r: nat) returns (n: nat)
    requires width > 0 && r <= width && InUse(ws, width, r)
    ensures n < |ws| && SomeBit(ws[n], if n == 0 then r else 0, width)
  {
    hide Bit, Taken;
    var c: nat :| r <= c < |ws| * width && Taken(ws, width, c);
    Split(c, width, |ws|);
    n := c / width;
    TakenAt(ws, width, n, c % width);
  }

  lemma UseFrom(ws: seq<nat>, width: nat, r: nat, n: nat)
    requires width > 0 && r <= width && n < |ws| && SomeBit(ws[n], if n == 0 then r else 0, width)
    ensures InUse(ws, width, r)
  {
    hide Bit, Taken;
    var i: nat :| (if n == 0 then r else 0) <= i < width && Bit(ws[n], i);
    TakenAt(ws, width, n, i);
    Rows(0, n, width);
  }

  /** Some bit from `r` on is set exactly if the first word has one from `r` on, or another word is not zero. */
  lemma UsedWords(ws: seq<nat>, width: nat, r: nat)
    requires Fits(ws, width) && r <= width && width > 0 && |ws| > 0
    ensures InUse(ws, width, r) <==> ws[0] >= Pow2(r) || exists n: nat :: 0 < n < |ws| && ws[n] > 0
  {
    hide SomeBit, InUse, Pow2;
    HighBits(ws[0], r, width);
    forall n: nat | n < |ws| ensures ws[n] > 0 <==> SomeBit(ws[n], 0, width) {
      AnyBit(ws[n], width);
    }
    if ws[0] >= Pow2(r) {
      UseFrom(ws, width, r, 0);
    } else if n: nat :| 0 < n < |ws| && ws[n] > 0 {
      UseFrom(ws, width, r, n);
    } else if InUse(ws, width, r) {
      var n := UseIn(ws, width, r);
    }
  }

  /** The loops over the words and the bits of a word: the first clear bit. */
  method FirstClear(ws: seq<nat>, width: nat) returns (n: nat, i: nat)
    requires Fits(ws, width) && width > 0 && Room(ws, width)
    ensures n < |ws| && i < width && !Taken(ws, width, n * width + i)
    ensures forall j: nat | j < n :: ws[j] == Pow2(width) - 1
  {
    hide Bit, Taken;
    FullWords(ws, width);
    ghost var other: nat :| other < |ws| && ws[other] != Pow2(width) - 1;
    n := 0;
    while ws[n] == Pow2(width) - 1
      invariant n <= other && forall j: nat | j < n :: ws[j] == Pow2(width) - 1
      decreases other - n
    {
      n := n + 1;
    }
    i := FirstFree(ws[n], width);
    TakenAt(ws, width, n, i);
  }

  /** The loop over the words that are left, when word `n` has become full and those before it were. */
  method AllFull(ws: seq<nat>, width: nat, n: nat) returns (full: bool)
    requires Fits(ws, width) && width > 0 && n < |ws| && forall j: nat | j < n :: ws[j] == Pow2(width) - 1
    ensures full <==> !Room(ws, width)
  {
    hide Room;
    FullWords(ws, width);
    if ws[n] != Pow2(width) - 1 {
      return false;
    }
    var j := n + 1;
    while j < |ws|
      invariant n < j <= |ws| && forall k: nat | k < j :: ws[k] == Pow2(width) - 1
    {
      if ws[j] != Pow2(width) - 1 {
        return false;
      }
      j := j + 1;
    }
    full := true;
  }

  /** The tests whether a bit from `r` on is set, of the first word and of the others. */
  method AnyUsed(ws: seq<nat>, width: nat, r: nat) returns (used: bool)
    requires Fits(ws, width) && r <= width && width > 0 && |ws| > 0
    ensures used <==> InUse(ws, width, r)
  {
    hide InUse;
    UsedWords(ws, width, r);
    if ws[0] >= Pow2(r) {
      return true;
    }
    var n := 1;
    while n < |ws|
      invariant 1 <= n <= |ws| && forall k: nat | 0 < k < n :: ws[k] == 0
    {
      if ws[n] > 0 {
        return true;
      }
      n := n + 1;
    }
    used := false;
  }
}
