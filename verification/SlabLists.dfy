/**
  The doubly linked page lists of Memory/ncx_slab.c.  The descriptors of pages and the heads of the lists (the
  free list and one list for each size class) are linked by addresses; the low bits of `prev` carry a page type.
 */
module SlabLists {
  import opened Common

  /** An address: NULL, the head of list number `k`, or the descriptor of page `i`. */
  datatype Ref = Null | Head(k: nat) | Page(i: nat)

  /** `prev` and `tag` are the two parts of one word. */
  datatype Desc = Desc(slab: nat, next: Ref, prev: Ref, tag: nat)

  datatype Memory = Memory(heads: seq<Desc>, pages: seq<Desc>)

  const ZERO := Desc(0, Null, Null, 0)

  predicate Valid(m: Memory, r: Ref) {
    match r
    case Null => false
    case Head(k) => k < |m.heads|
    case Page(i) => i < |m.pages|
  }

  function At(m: Memory, r: Ref): Desc
    requires Valid(m, r)
  {
    if r.Head? then m.heads[r.k] else m.pages[r.i]
  }

  function Put(m: Memory, r: Ref, d: Desc): (m': Memory)
    requires Valid(m, r)
    ensures |m'.heads| == |m.heads| && |m'.pages| == |m.pages|
  {
    if r.Head? then m.(heads := m.heads[r.k := d]) else m.(pages := m.pages[r.i := d])
  }

  function SetNext(m: Memory, r: Ref, to: Ref): (m': Memory)
    requires Valid(m, r)
    ensures |m'.heads| == |m.heads| && |m'.pages| == |m.pages|
  {
    Put(m, r, At(m, r).(next := to))
  }

  function SetPrev(m: Memory, r: Ref, to: Ref, tag: nat): (m': Memory)
    requires Valid(m, r)
    ensures |m'.heads| == |m.heads| && |m'.pages| == |m.pages|
  {
    Put(m, r, At(m, r).(prev := to, tag := tag))
  }

  /** What follows, and what precedes, place `i` of list `k`. */
  function After(k: nat, l: seq<nat>, i: int): Ref
    requires -1 <= i < |l|
  {
    if i + 1 < |l| then Page(l[i + 1]) else Head(k)
  }

  function Before(k: nat, l: seq<nat>, i: nat): Ref
    requires i <= |l|
  {
    if i > 0 then Page(l[i - 1]) else Head(k)
  }

  /** List `k` holds the pages `l`, all of type `tag`. */
  ghost predicate Chain(m: Memory, k: nat, l: seq<nat>, tag: nat) {
    && k < |m.heads| && Distinct(l) && m.heads[k].next == After(k, l, -1)
    && forall i: nat | i < |l| ::
         && l[i] < |m.pages| && m.pages[l[i]].next == After(k, l, i)
         && m.pages[l[i]].prev == Before(k, l, i) && m.pages[l[i]].tag == tag
  }

  /** Only links of the head and of pages of the list have changed. */
  ghost predicate OnlyLinks(m: Memory, m': Memory, k: nat, l: seq<nat>) {
    && |m'.heads| == |m.heads| && |m'.pages| == |m.pages|
    && (forall j: nat | j < |m.heads| && j != k :: m'.heads[j] == m.heads[j])
    && (forall j: nat | j < |m.pages| && j !in l :: m'.pages[j] == m.pages[j])
    && (forall j: nat | j < |m.pages| :: m'.pages[j].slab == m.pages[j].slab)
  }

  lemma ChainAt(m: Memory, k: nat, l: seq<nat>, tag: nat, i: nat)
    requires Chain(m, k, l, tag) && i < |l|
    ensures k < |m.heads| && l[i] < |m.pages| && m.pages[l[i]].next == After(k, l, i)
    ensures m.pages[l[i]].prev == Before(k, l, i) && m.pages[l[i]].tag == tag
    ensures Valid(m, After(k, l, i)) && Valid(m, Before(k, l, i)) && m.pages[l[i]].next != Page(l[i])
    ensures forall j: nat | j < |l| :: l[j] == l[i] <==> j == i
  {
    assert i + 1 < |l| ==> l[i + 1] < |m.pages|;
    assert i > 0 ==> l[i - 1] < |m.pages|;
  }

  lemma ChainHead(m: Memory, k: nat, l: seq<nat>, tag: nat)
    requires Chain(m, k, l, tag)
    ensures k < |m.heads| && Distinct(l) && m.heads[k].next == After(k, l, -1) && Valid(m, m.heads[k].next)
  {
    assert l != [] ==> l[0] < |m.pages|;
  }

  lemma ItIsChain(m: Memory, k: nat, l: seq<nat>, tag: nat)
    requires k < |m.heads| && Distinct(l) && m.heads[k].next == After(k, l, -1)
    requires forall i: nat | i < |l| ::
         && l[i] < |m.pages| && m.pages[l[i]].next == After(k, l, i)
         && m.pages[l[i]].prev == Before(k, l, i) && m.pages[l[i]].tag == tag
    ensures Chain(m, k, l, tag)
  {
  }

  lemma ChainFrame(m: Memory, m': Memory, k: nat, l: seq<nat>, tag: nat)
    requires Chain(m, k, l, tag) && k < |m'.heads| && m'.heads[k].next == m.heads[k].next && |m'.pages| == |m.pages|
    requires forall j: nat | j < |m.pages| && j in l ::
               m'.pages[j].next == m.pages[j].next && m'.pages[j].prev == m.pages[j].prev && m'.pages[j].tag == m.pages[j].tag
    ensures Chain(m', k, l, tag)
  {
    forall i: nat | i < |l|
      ensures l[i] < |m'.pages| && m'.pages[l[i]].next == After(k, l, i)
      ensures m'.pages[l[i]].prev == Before(k, l, i) && m'.pages[l[i]].tag == tag
    {
      assert l[i] < |m.pages| && l[i] in l;
    }
  }

  // ----- taking a page out -----

  function Cut(l: seq<nat>, i: nat): seq<nat>
    requires i < |l|
  {
    l[..i] + l[i + 1..]
  }

  lemma CutIs(l: seq<nat>, i: nat)
    requires Distinct(l) && i < |l|
    ensures var r := Cut(l, i);
            && |r| == |l| - 1 && Distinct(r) && (forall j: nat | j < |r| :: r[j] == l[if j < i then j else j + 1])
            && forall x: nat :: x in r <==> x in l && x != l[i]
  {
    var r := Cut(l, i);
    forall x: nat ensures x in r <==> x in l && x != l[i] {
      if x in l && x != l[i] {
        var j :| 0 <= j < |l| && l[j] == x;
        assert r[if j < i then j else j - 1] == x;
      }
    }
  }

  function Unlinked(m: Memory, x: nat): Memory
    requires x < |m.pages| && Valid(m, m.pages[x].prev) && Valid(m, m.pages[x].next)
  {
    var d := m.pages[x];
    SetPrev(SetNext(m, d.prev, d.next), d.next, d.prev, d.tag)
  }

  lemma ChainUnlinked(m: Memory, k: nat, l: seq<nat>, tag: nat, i: nat)
    requires Chain(m, k, l, tag) && i < |l|
    ensures l[i] < |m.pages| && Valid(m, m.pages[l[i]].prev) && Valid(m, m.pages[l[i]].next)
    ensures Chain(Unlinked(m, l[i]), k, Cut(l, i), tag) && OnlyLinks(m, Unlinked(m, l[i]), k, Cut(l, i))
  {
    hide Chain, Distinct, Cut;
    ChainHead(m, k, l, tag);
    ChainAt(m, k, l, tag, i);
    CutIs(l, i);
    var r, m' := Cut(l, i), Unlinked(m, l[i]);
    UnlinkedElsewhere(m, k, l, tag, i, r);
    forall j: nat | j < |r|
      ensures r[j] < |m'.pages| && m'.pages[r[j]].next == After(k, r, j)
      ensures m'.pages[r[j]].prev == Before(k, r, j) && m'.pages[r[j]].tag == tag
    {
      hide Unlinked;
      UnlinkedAt(m, k, l, tag, i, if j < i then j else j + 1);
    }
    ItIsChain(m', k, r, tag);
  }

  lemma UnlinkedElsewhere(m: Memory, k: nat, l: seq<nat>, tag: nat, i: nat, r: seq<nat>)
    requires Chain(m, k, l, tag) && i < |l| && |r| == |l| - 1
    requires forall j: nat | j < |r| :: r[j] == l[if j < i then j else j + 1]
    ensures l[i] < |m.pages| && Valid(m, m.pages[l[i]].prev) && Valid(m, m.pages[l[i]].next)
    ensures OnlyLinks(m, Unlinked(m, l[i]), k, r) && Unlinked(m, l[i]).heads[k].next == After(k, r, -1)
  {
    hide Chain, Distinct, Unlinked, Valid;
    ChainHead(m, k, l, tag);
    ChainAt(m, k, l, tag, i);
    if i > 0 { assert r[i - 1] == l[i - 1] && r[i - 1] in r; }
    if i + 1 < |l| { assert r[i] == l[i + 1] && r[i] in r; }
    UnlinkedTouches(m, l[i]);
  }

  lemma UnlinkedTouches(m: Memory, x: nat)
    requires x < |m.pages| && Valid(m, m.pages[x].prev) && Valid(m, m.pages[x].next)
    ensures var m', p, n := Unlinked(m, x), m.pages[x].prev, m.pages[x].next;
            && |m'.heads| == |m.heads| && |m'.pages| == |m.pages|
            && (forall j: nat | j < |m.heads| && Head(j) != p && Head(j) != n :: m'.heads[j] == m.heads[j])
            && (forall j: nat | j < |m.heads| :: m'.heads[j].next == if Head(j) == p then n else m.heads[j].next)
            && (forall j: nat | j < |m.pages| && Page(j) != p && Page(j) != n :: m'.pages[j] == m.pages[j])
            && (forall j: nat | j < |m.pages| :: m'.pages[j].slab == m.pages[j].slab)
  {
  }

  lemma UnlinkedAt(m: Memory, k: nat, l: seq<nat>, tag: nat, i: nat, j: nat)
    requires Chain(m, k, l, tag) && i < |l| && j < |l| && j != i
    ensures l[i] < |m.pages| && Valid(m, m.pages[l[i]].prev) && Valid(m, m.pages[l[i]].next) && l[j] < |m.pages|
    ensures var d := Unlinked(m, l[i]).pages[l[j]];
            && d.next == (if j + 1 == i then After(k, l, i) else After(k, l, j))
            && d.prev == (if j == i + 1 then Before(k, l, i) else Before(k, l, j)) && d.tag == tag
  {
    ChainAt(m, k, l, tag, i);
    ChainAt(m, k, l, tag, j);
    hide Chain, Distinct;
  }

  // ----- putting a page in front -----

  function Pushed(m: Memory, k: nat, x: nat, tag: nat): (m': Memory)
    requires k < |m.heads| && x < |m.pages| && Valid(m, m.heads[k].next)
    ensures |m'.heads| == |m.heads| && |m'.pages| == |m.pages|
  {
    var first := m.heads[k].next;
    SetNext(SetPrev(SetNext(SetPrev(m, Page(x), Head(k), tag), Page(x), first), first, Page(x), tag), Head(k), Page(x))
  }

  lemma ChainPushed(m: Memory, k: nat, l: seq<nat>, tag: nat, x: nat)
    requires Chain(m, k, l, tag) && x < |m.pages| && x !in l
    ensures Valid(m, m.heads[k].next)
    ensures Chain(Pushed(m, k, x, tag), k, [x] + l, tag) && OnlyLinks(m, Pushed(m, k, x, tag), k, [x] + l)
  {
    hide Chain, Distinct, Pushed, Valid;
    ChainHead(m, k, l, tag);
    if l != [] { ChainAt(m, k, l, tag, 0); }
    var r, m' := [x] + l, Pushed(m, k, x, tag);
    PushedTouches(m, k, x, tag);
    forall j: nat | j < |r|
      ensures r[j] < |m'.pages| && m'.pages[r[j]].next == After(k, r, j)
      ensures m'.pages[r[j]].prev == Before(k, r, j) && m'.pages[r[j]].tag == tag
    {
      if j > 0 { ChainAt(m, k, l, tag, j - 1); }
    }
    forall j: nat | j < |m.pages| && j !in r ensures m'.pages[j] == m.pages[j] {
      if l != [] { assert l[0] in l; }
    }
    DistinctFront(l, x);
    ItIsChain(m', k, r, tag);
  }

  lemma PushedTouches(m: Memory, k: nat, x: nat, tag: nat)
    requires k < |m.heads| && x < |m.pages| && Valid(m, m.heads[k].next)
    requires m.heads[k].next == Head(k) || (m.heads[k].next.Page? && m.heads[k].next.i != x)
    ensures var m', first := Pushed(m, k, x, tag), m.heads[k].next;
            && |m'.heads| == |m.heads| && |m'.pages| == |m.pages| && m'.heads[k].next == Page(x)
            && (forall j: nat | j < |m.heads| && j != k :: m'.heads[j] == m.heads[j])
            && m'.pages[x] == m.pages[x].(next := first, prev := Head(k), tag := tag)
            && (forall j: nat | j < |m.pages| && j != x ::
                  m'.pages[j] == if Page(j) == first then m.pages[j].(prev := Page(x), tag := tag) else m.pages[j])
  {
  }

  lemma DistinctFront(l: seq<nat>, x: nat)
    requires Distinct(l) && x !in l
    ensures Distinct([x] + l)
  {
  }

  // ----- one page in place of another -----

  function Swapped(m: Memory, x: nat, y: nat): Memory
    requires x < |m.pages| && y < |m.pages| && x != y && Valid(m, m.pages[x].prev) && Valid(m, m.pages[x].next)
  {
    var d := m.pages[x];
    SetPrev(SetNext(SetPrev(SetNext(m, Page(y), d.next), Page(y), d.prev, d.tag), d.prev, Page(y)), d.next, Page(y), d.tag)
  }

  lemma ChainSwapped(m: Memory, k: nat, l: seq<nat>, tag: nat, i: nat, y: nat)
    requires Chain(m, k, l, tag) && i < |l| && y < |m.pages| && y !in l
    ensures l[i] < |m.pages| && Valid(m, m.pages[l[i]].prev) && Valid(m, m.pages[l[i]].next)
    ensures Chain(Swapped(m, l[i], y), k, l[i := y], tag) && OnlyLinks(m, Swapped(m, l[i], y), k, l[i := y])
  {
    hide Chain, Distinct;
    ChainHead(m, k, l, tag);
    ChainAt(m, k, l, tag, i);
    var r, m' := l[i := y], Swapped(m, l[i], y);
    forall j: nat | j < |r|
      ensures r[j] < |m'.pages| && m'.pages[r[j]].next == After(k, r, j)
      ensures m'.pages[r[j]].prev == Before(k, r, j) && m'.pages[r[j]].tag == tag
    {
      ChainAt(m, k, l, tag, j);
    }
    SwappedElsewhere(m, k, l, tag, i, y);
    DistinctSwapped(l, i, y);
    ItIsChain(m', k, r, tag);
  }

  lemma SwappedElsewhere(m: Memory, k: nat, l: seq<nat>, tag: nat, i: nat, y: nat)
    requires Chain(m, k, l, tag) && i < |l| && y < |m.pages| && y !in l
    ensures l[i] < |m.pages| && Valid(m, m.pages[l[i]].prev) && Valid(m, m.pages[l[i]].next)
    ensures var m' := Swapped(m, l[i], y); OnlyLinks(m, m', k, l[i := y]) && m'.heads[k].next == After(k, l[i := y], -1)
  {
    hide Chain, Distinct, Swapped, Valid;
    ChainHead(m, k, l, tag);
    ChainAt(m, k, l, tag, i);
    var r := l[i := y];
    if i > 0 { assert r[i - 1] == l[i - 1] && r[i - 1] in r; }
    if i + 1 < |l| { assert r[i + 1] == l[i + 1] && r[i + 1] in r; }
    assert r[i] in r;
    SwappedTouches(m, l[i], y);
  }

  lemma SwappedTouches(m: Memory, x: nat, y: nat)
    requires x < |m.pages| && y < |m.pages| && x != y && Valid(m, m.pages[x].prev) && Valid(m, m.pages[x].next)
    requires m.pages[x].prev != Page(y) && m.pages[x].next != Page(y)
    ensures var m', p, n := Swapped(m, x, y), m.pages[x].prev, m.pages[x].next;
            && |m'.heads| == |m.heads| && |m'.pages| == |m.pages|
            && (forall j: nat | j < |m.heads| && Head(j) != p && Head(j) != n :: m'.heads[j] == m.heads[j])
            && (forall j: nat | j < |m.heads| :: m'.heads[j].next == if Head(j) == p then Page(y) else m.heads[j].next)
            && (forall j: nat | j < |m.pages| && j != y && Page(j) != p && Page(j) != n :: m'.pages[j] == m.pages[j])
            && (forall j: nat | j < |m.pages| :: m'.pages[j].slab == m.pages[j].slab)
  {
  }

  lemma DistinctSwapped(l: seq<nat>, i: nat, y: nat)
    requires Distinct(l) && i < |l| && y !in l
    ensures Distinct(l[i := y])
  {
  }
}
