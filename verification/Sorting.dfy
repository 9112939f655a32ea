/**
  The sort of xml/pugixml.cpp: a quicksort with a three-way partition that recurses on the smaller side and
  loops on the larger one, an insertion sort for at most sixteen elements, and `unique`, all in place on
  the elements from `begin` up to `end`.
*/
module Sorting {
  import opened Bits

  /** A comparator, given by its graph: the pairs it answers `true` for. */
  type Order<!T(==)> = iset<(T, T)>

  /** `pred(x, y)`. */
  predicate Less<T(==)>(less: Order<T>, x: T, y: T) {
    (x, y) in less
  }

  ghost predicate StrictTotalOrder<T(!new)>(less: Order<T>) {
    && (forall x :: !Less(less, x, x))
    && (forall x, y :: x == y || Less(less, x, y) || Less(less, y, x))
    && (forall x, y, z :: Less(less, x, y) && Less(less, y, z) ==> Less(less, x, z))
  }

  ghost predicate Sorted<T>(s: seq<T>, less: Order<T>) {
    forall i: nat, j: nat | i < j < |s| :: !Less(less, s[j], s[i])
  }

  /** No element of `t` comes before an element of `s`. */
  ghost predicate Before<T>(s: seq<T>, t: seq<T>, less: Order<T>) {
    forall x, y | x in s && y in t :: !Less(less, y, x)
  }

  ghost predicate Permutes<T>(s: seq<T>, t: seq<T>) {
    multiset(s) == multiset(t)
  }

  lemma PermutesSameElements<T>(s: seq<T>, t: seq<T>)
    requires Permutes(s, t)
    ensures |s| == |t| && forall x :: x in s <==> x in t
  {
    assert |multiset(s)| == |multiset(t)|;
    forall x ensures x in s <==> x in t {
      assert x in s <==> x in multiset(s);
      assert x in t <==> x in multiset(t);
    }
  }

  lemma BeforePermuted<T>(s: seq<T>, t: seq<T>, s': seq<T>, t': seq<T>, less: Order<T>)
    requires Before(s, t, less) && Permutes(s, s') && Permutes(t, t')
    ensures Before(s', t', less)
  {
    PermutesSameElements(s, s');
    PermutesSameElements(t, t');
  }

  lemma SortedConcat<T>(s: seq<T>, t: seq<T>, less: Order<T>)
    requires Sorted(s, less) && Sorted(t, less) && Before(s, t, less)
    ensures Sorted(s + t, less)
  {
  }

  lemma BeforeConcat<T>(r: seq<T>, s: seq<T>, t: seq<T>, less: Order<T>)
    ensures Before(r, s + t, less) <==> Before(r, s, less) && Before(r, t, less)
    ensures Before(r + s, t, less) <==> Before(r, t, less) && Before(s, t, less)
  {
    assert forall x :: x in s + t <==> x in s || x in t;
    assert forall x :: x in r + s <==> x in r || x in s;
  }

  lemma PermutesConcat<T>(s: seq<T>, t: seq<T>, s': seq<T>, t': seq<T>)
    requires Permutes(s, s') && Permutes(t, t')
    ensures Permutes(s + t, s' + t')
  {
  }

  // ----- elements of an array -----

  function Swapped<T>(s: seq<T>, i: nat, j: nat): seq<T>
    requires i < |s| && j < |s|
  {
    s[i := s[j]][j := s[i]]
  }

  method Swap<T>(a: array<T>, i: nat, j: nat)
    requires i < a.Length && j < a.Length
    modifies a
    ensures a[..] == Swapped(old(a[..]), i, j)
  {
    a[i], a[j] := a[j], a[i];
  }

  /** `t` holds the elements of `s`, moved about between `begin` and `end` only. */
  ghost predicate Rearranged<T>(s: seq<T>, t: seq<T>, begin: nat, end: nat) {
    && begin <= end <= |s| == |t|
    && Permutes(t[begin..end], s[begin..end]) && t[..begin] == s[..begin] && t[end..] == s[end..]
  }

  lemma SwappedRearranged<T>(s: seq<T>, t: seq<T>, begin: nat, end: nat, i: nat, j: nat)
    requires Rearranged(s, t, begin, end) && begin <= i < end && begin <= j < end
    ensures Rearranged(s, Swapped(t, i, j), begin, end)
  {
    var r, u := t[begin..end], Swapped(t, i, j);
    assert u[begin..end] == Swapped(r, i - begin, j - begin);
  }

  lemma RearrangedInside<T>(s: seq<T>, t: seq<T>, u: seq<T>, begin: nat, b: nat, e: nat, end: nat)
    requires Rearranged(s, t, begin, end) && Rearranged(t, u, b, e) && begin <= b && e <= end
    ensures Rearranged(s, u, begin, end)
  {
    assert forall k: nat | k < b :: u[k] == u[..b][k] == t[..b][k];
    assert forall k: nat | e <= k < |u| :: u[k] == u[e..][k - e] == t[e..][k - e];
    assert u[begin..b] == t[begin..b] && u[e..end] == t[e..end];
    ThreeParts(t, begin, b, e, end);
    ThreeParts(u, begin, b, e, end);
    PermutesConcat(u[begin..b], u[b..e], t[begin..b], t[b..e]);
    PermutesConcat(u[begin..b] + u[b..e], u[e..end], t[begin..b] + t[b..e], t[e..end]);
    assert u[..begin] == t[..begin] && u[end..] == t[end..];
  }

  lemma ThreeParts<T>(t: seq<T>, begin: nat, b: nat, e: nat, end: nat)
    requires begin <= b <= e <= end <= |t|
    ensures t[begin..end] == t[begin..b] + t[b..e] + t[e..end]
  {
  }

  // ----- insertion sort -----

  lemma Asymmetric<T(!new)>(less: Order<T>, x: T, y: T)
    requires StrictTotalOrder(less) && Less(less, x, y)
    ensures !Less(less, y, x)
  {
  }

  lemma NotLessTransitive<T(!new)>(less: Order<T>, x: T, y: T, z: T)
    requires StrictTotalOrder(less) && !Less(less, y, x) && !Less(less, z, y)
    ensures !Less(less, z, x)
  {
  }

  lemma NotBeforeAny<T(!new)>(r: seq<T>, hole: nat, val: T, less: Order<T>)
    requires StrictTotalOrder(less) && Sorted(r, less) && 0 < hole <= |r| && !Less(less, val, r[hole - 1])
    ensures forall k: nat | k < hole :: !Less(less, val, r[k])
  {
    forall k: nat | k < hole ensures !Less(less, val, r[k]) {
      if k < hole - 1 { NotLessTransitive(less, r[k], r[hole - 1], val); }
    }
  }

  /** The sorted run `r` with `val` put in where nothing before is greater and nothing after is less. */
  lemma InsertedRun<T>(r: seq<T>, hole: nat, val: T, less: Order<T>)
    requires Sorted(r, less) && hole <= |r|
    requires forall k: nat | k < hole :: !Less(less, val, r[k])
    requires forall k: nat | hole <= k < |r| :: !Less(less, r[k], val)
    ensures Sorted(r[..hole] + [val] + r[hole..], less)
  {
    var t := r[..hole] + [val] + r[hole..];
    forall i: nat, j: nat | i < j < |t| ensures !Less(less, t[j], t[i]) {
      var i', j' := if i > hole then i - 1 else i, if j > hole then j - 1 else j;
      if i != hole { assert t[i] == r[i']; }
      if j != hole { assert t[j] == r[j']; }
    }
  }

  lemma InsertedPermutes<T>(r: seq<T>, hole: nat, val: T)
    requires hole <= |r|
    ensures Permutes(r[..hole] + [val] + r[hole..], r + [val])
  {
    assert r == r[..hole] + r[hole..];
  }

  lemma InsertedAt<T(!new)>(r: seq<T>, n: nat, val: T, less: Order<T>)
    requires StrictTotalOrder(less) && Sorted(r, less) && n <= |r|
    requires n > 0 ==> !Less(less, val, r[n - 1])
    requires forall k: nat | n <= k < |r| :: Less(less, val, r[k])
    ensures Sorted(r[..n] + [val] + r[n..], less) && Permutes(r[..n] + [val] + r[n..], r + [val])
  {
    if n > 0 {
      NotBeforeAny(r, n, val, less);
    }
    forall k: nat | n <= k < |r| ensures !Less(less, r[k], val) {
      Asymmetric(less, val, r[k]);
    }
    InsertedRun(r, n, val, less);
    InsertedPermutes(r, n, val);
  }

  /** `t` is `s` with the element at `it` moved back to `hole` and the ones between moved up by one. */
  ghost predicate MovedBack<T>(s: seq<T>, t: seq<T>, hole: nat, it: nat) {
    && hole <= it < |s| == |t| && t[hole] == s[it]
    && (forall k: nat | k < hole || it < k < |s| :: t[k] == s[k])
    && (forall k: nat | hole < k <= it :: t[k] == s[k - 1])
  }

  /** One round: the element at `it` moves back over the greater ones before it. */
  method Insert<T(==)>(a: array<T>, begin: nat, it: nat, less: Order<T>) returns (hole: nat)
    requires begin < it < a.Length
    modifies a
    ensures begin <= hole <= it && MovedBack(old(a[..]), a[..], hole, it)
    ensures hole > begin ==> !Less(less, old(a[it]), old(a[hole - 1]))
    ensures forall k: nat | hole <= k < it :: Less(less, old(a[it]), old(a[k]))
  {
    var val := a[it];
    hole := it;
    while hole > begin && Less(less, val, a[hole - 1])
      invariant begin <= hole <= it
      invariant forall k: nat | k < hole || it < k < a.Length :: a[k] == old(a[k])
      invariant forall k: nat | hole < k <= it :: a[k] == old(a[k - 1])
      invariant forall k: nat | hole <= k < it :: Less(less, val, old(a[k]))
    {
      a[hole] := a[hole - 1];
      hole := hole - 1;
    }
    a[hole] := val;
  }

  /** The state between two rounds: the first elements are sorted, the rest is untouched. */
  ghost predicate SortedPart<T>(s: seq<T>, t: seq<T>, begin: nat, it: nat, less: Order<T>) {
    && begin <= it <= |s| == |t|
    && Sorted(t[begin..it], less) && Permutes(t[begin..it], s[begin..it])
    && t[..begin] == s[..begin] && t[it..] == s[it..]
  }

  lemma RoundSorts<T(!new)>(s: seq<T>, t: seq<T>, u: seq<T>, begin: nat, hole: nat, it: nat, less: Order<T>)
    requires StrictTotalOrder(less) && SortedPart(s, t, begin, it, less) && begin <= hole && MovedBack(t, u, hole, it)
    requires hole > begin ==> !Less(less, t[it], t[hole - 1])
    requires forall k: nat | hole <= k < it :: Less(less, t[it], t[k])
    ensures SortedPart(s, u, begin, it + 1, less)
  {
    InsertedAt(t[begin..it], hole - begin, t[it], less);
    RoundShape(s, t, u, begin, hole, it);
    OneMore(s, t, begin, it);
    PermutesConcat(t[begin..it], [t[it]], s[begin..it], [t[it]]);
  }

  lemma OneMore<T>(s: seq<T>, t: seq<T>, begin: nat, it: nat)
    requires begin <= it < |s| == |t| && t[it..] == s[it..]
    ensures s[begin..it + 1] == s[begin..it] + [t[it]]
  {
    assert s[it] == s[it..][0] == t[it..][0];
  }

  lemma RoundShape<T>(s: seq<T>, t: seq<T>, u: seq<T>, begin: nat, hole: nat, it: nat)
    requires begin <= hole && MovedBack(t, u, hole, it) && |s| == |t|
    requires t[..begin] == s[..begin] && t[it..] == s[it..]
    ensures var r, n := t[begin..it], hole - begin; u[begin..it + 1] == r[..n] + [t[it]] + r[n..]
    ensures u[..begin] == s[..begin] && u[it + 1..] == s[it + 1..]
  {
    assert forall k: nat | k < begin :: u[k] == t[..begin][k];
    assert forall k: nat | it < k < |s| :: u[k] == t[it..][k - it] == s[it..][k - it];
  }

  method InsertionSort<T(==, !new)>(a: array<T>, begin: nat, end: nat, less: Order<T>)
    requires begin <= end <= a.Length && StrictTotalOrder(less)
    modifies a
    ensures SortedPart(old(a[..]), a[..], begin, end, less)
  {
    if begin == end { return; }
    var it := begin + 1;
    while it != end
      invariant begin < it <= end && SortedPart(old(a[..]), a[..], begin, it, less)
    {
      ghost var t := a[..];
      var hole := Insert(a, begin, it, less);
      RoundSorts(old(a[..]), t, a[..], begin, hole, it, less);
      it := it + 1;
    }
  }

  // ----- the three-way partition -----

  method Median3<T(==)>(a: array<T>, begin: nat, mid: nat, end: nat, less: Order<T>) returns (median: nat)
    requires begin < a.Length && mid < a.Length && end < a.Length
    ensures median == begin || median == mid || median == end
  {
    var first, middle, last := begin, mid, end;
    if Less(less, a[middle], a[first]) { middle, first := first, middle; }
    if Less(less, a[last], a[middle]) { last, middle := middle, last; }
    if Less(less, a[middle], a[first]) { middle, first := first, middle; }
    median := middle;
  }

  /** The four groups of the scan: equal, less, not looked at yet, greater. */
  ghost predicate Grouped<T>(t: seq<T>, pivot: T, begin: nat, eq: nat, lt: nat, gt: nat, end: nat, less: Order<T>) {
    && begin <= eq <= lt <= gt <= end <= |t|
    && (forall k: nat | begin <= k < eq :: t[k] == pivot)
    && (forall k: nat | eq <= k < lt :: Less(less, t[k], pivot))
    && (forall k: nat | gt <= k < end :: !Less(less, t[k], pivot) && t[k] != pivot)
  }

  /** The result: less, equal, greater. */
  ghost predicate Parted<T>(t: seq<T>, pivot: T, begin: nat, eqbeg: nat, eqend: nat, end: nat, less: Order<T>) {
    && begin <= eqbeg <= eqend <= end <= |t|
    && (forall k: nat | begin <= k < eqbeg :: Less(less, t[k], pivot))
    && (forall k: nat | eqbeg <= k < eqend :: t[k] == pivot)
    && (forall k: nat | eqend <= k < end :: !Less(less, t[k], pivot) && t[k] != pivot)
  }

  /** The first loop of `partition3`. */
  method Scan<T(==)>(a: array<T>, begin: nat, end: nat, pivot: T, less: Order<T>) returns (eq: nat, gt: nat)
    requires begin <= end <= a.Length
    modifies a
    ensures Rearranged(old(a[..]), a[..], begin, end)
    ensures Grouped(a[..], pivot, begin, eq, gt, gt, end, less)
  {
    var lt: nat := begin;
    eq, gt := begin, end;
    while lt < gt
      invariant Rearranged(old(a[..]), a[..], begin, end)
      invariant Grouped(a[..], pivot, begin, eq, lt, gt, end, less)
    {
      ghost var t := a[..];
      if Less(less, a[lt], pivot) {
        lt := lt + 1;
      } else if a[lt] == pivot {
        Swap(a, eq, lt);
        SwappedRearranged(old(a[..]), t, begin, end, eq, lt);
        eq, lt := eq + 1, lt + 1;
      } else {
        gt := gt - 1;
        Swap(a, lt, gt);
        SwappedRearranged(old(a[..]), t, begin, end, lt, gt);
      }
    }
  }

  /** The second loop part-way: `i` equal elements have changed places with the last ones before `gt`. */
  ghost predicate Moving<T>(t: seq<T>, pivot: T, begin: nat, eq: nat, gt: nat, i: nat, less: Order<T>) {
    && begin + i <= eq <= gt <= |t|
    && (forall k: nat | begin <= k < gt :: (k < begin + i && k < begin + (gt - eq)) || eq <= k < gt - i
          ==> Less(less, t[k], pivot))
    && (forall k: nat | begin <= k < gt :: !((k < begin + i && k < begin + (gt - eq)) || eq <= k < gt - i)
          ==> t[k] == pivot)
  }

  method MoveEqual<T(==)>(a: array<T>, begin: nat, eq: nat, gt: nat, ghost end: nat, pivot: T, ghost less: Order<T>)
    returns (eqbeg: nat)
    requires end <= a.Length && Grouped(a[..], pivot, begin, eq, gt, gt, end, less)
    modifies a
    ensures Rearranged(old(a[..]), a[..], begin, gt)
    ensures Parted(a[..], pivot, begin, eqbeg, gt, end, less)
  {
    eqbeg := gt;
    var it := begin;
    while it != eq
      invariant begin <= it <= eq && eqbeg == gt - (it - begin)
      invariant Rearranged(old(a[..]), a[..], begin, gt)
      invariant Moving(a[..], pivot, begin, eq, gt, it - begin, less)
      invariant forall k: nat | gt <= k < a.Length :: a[k] == old(a[k])
    {
      ghost var t := a[..];
      eqbeg := eqbeg - 1;
      Swap(a, it, eqbeg);
      SwappedRearranged(old(a[..]), t, begin, gt, it, eqbeg);
      MoveOne(t, pivot, begin, eq, gt, it - begin, less);
      it := it + 1;
    }
  }

  lemma MoveOne<T>(t: seq<T>, pivot: T, begin: nat, eq: nat, gt: nat, i: nat, less: Order<T>)
    requires Moving(t, pivot, begin, eq, gt, i, less) && begin + i < eq
    ensures Moving(Swapped(t, begin + i, gt - i - 1), pivot, begin, eq, gt, i + 1, less)
  {
  }

  method Partition3<T(==)>(a: array<T>, begin: nat, end: nat, pivot: T, less: Order<T>)
    returns (eqbeg: nat, eqend: nat)
    requires begin <= end <= a.Length
    modifies a
    ensures Rearranged(old(a[..]), a[..], begin, end)
    ensures Parted(a[..], pivot, begin, eqbeg, eqend, end, less)
  {
    var eq, gt := Scan(a, begin, end, pivot, less);
    ghost var t := a[..];
    eqbeg := MoveEqual(a, begin, eq, gt, end, pivot, less);
    eqend := gt;
    RearrangedInside(old(a[..]), t, a[..], begin, begin, gt, end);
  }

  // ----- the sort -----

  /** The state between two rounds: what lies outside the range still to sort is sorted and in its place. */
  ghost predicate Framed<T>(t: seq<T>, begin: nat, b: nat, e: nat, end: nat, less: Order<T>) {
    && begin <= b <= e <= end <= |t|
    && Sorted(t[begin..b], less) && Sorted(t[e..end], less)
    && Before(t[begin..b], t[b..e], less) && Before(t[b..e], t[e..end], less)
    && Before(t[begin..b], t[e..end], less)
  }

  /** The two sides of the pivot are strictly before and after it. */
  ghost predicate Split<T>(lo: seq<T>, mid: seq<T>, hi: seq<T>, pivot: T, less: Order<T>) {
    && (forall x | x in lo :: Less(less, x, pivot))
    && (forall x | x in mid :: x == pivot)
    && (forall x | x in hi :: !Less(less, x, pivot) && x != pivot)
  }

  lemma SplitOrdered<T(!new)>(lo: seq<T>, mid: seq<T>, hi: seq<T>, pivot: T, less: Order<T>)
    requires StrictTotalOrder(less) && Split(lo, mid, hi, pivot, less)
    ensures Before(lo, mid, less) && Before(lo, hi, less) && Before(mid, hi, less) && Sorted(mid, less)
  {
    assert forall i: nat | i < |mid| :: mid[i] in mid;
  }

  lemma PartedSplit<T>(t: seq<T>, pivot: T, b: nat, eqbeg: nat, eqend: nat, e: nat, less: Order<T>)
    requires Parted(t, pivot, b, eqbeg, eqend, e, less)
    ensures Split(t[b..eqbeg], t[eqbeg..eqend], t[eqend..e], pivot, less)
  {
  }

  lemma PivotPresent<T(!new)>(t: seq<T>, pivot: T, b: nat, eqbeg: nat, eqend: nat, e: nat, less: Order<T>)
    requires StrictTotalOrder(less) && Parted(t, pivot, b, eqbeg, eqend, e, less) && pivot in t[b..e]
    ensures eqbeg < eqend
  {
    var k: nat :| b <= k < e && t[k] == pivot;
    assert !Less(less, pivot, pivot);
  }

  /** Rearranging the range still to sort keeps the frame. */
  lemma FramedWhole<T>(t: seq<T>, begin: nat, end: nat, less: Order<T>)
    requires begin <= end <= |t|
    ensures Framed(t, begin, begin, end, end, less) && Rearranged(t, t, begin, end)
  {
  }

  lemma FramedRearranged<T>(t: seq<T>, u: seq<T>, begin: nat, b: nat, e: nat, end: nat, less: Order<T>)
    requires Framed(t, begin, b, e, end, less) && Rearranged(t, u, b, e)
    ensures Framed(u, begin, b, e, end, less)
  {
    assert u[begin..b] == u[..b][begin..] == t[begin..b];
    assert u[e..end] == u[e..][..end - e] == t[e..end];
    BeforePermuted(t[begin..b], t[b..e], u[begin..b], u[b..e], less);
    BeforePermuted(t[b..e], t[e..end], u[b..e], u[e..end], less);
  }

  /** The pieces of a framed range, with the middle parted and its right part sorted: the frame closes in from the right. */
  lemma CloseRight<T(!new)>(l: seq<T>, lo: seq<T>, mid: seq<T>, hi: seq<T>, r: seq<T>, pivot: T, less: Order<T>)
    requires StrictTotalOrder(less) && Split(lo, mid, hi, pivot, less) && Sorted(hi, less) && Sorted(r, less)
    requires Before(l, lo + mid + hi, less) && Before(lo + mid + hi, r, less) && Before(l, r, less)
    ensures Sorted(mid + hi + r, less)
    ensures Before(l, lo, less) && Before(lo, mid + hi + r, less) && Before(l, mid + hi + r, less)
  {
    SplitOrdered(lo, mid, hi, pivot, less);
    PieceFacts(l, lo, mid, hi, r, less);
    BeforeConcat(lo, mid + hi, r, less);
    BeforeConcat(l, mid + hi, r, less);
    SortedConcat(mid, hi, less);
    SortedConcat(mid + hi, r, less);
  }

  lemma CloseLeft<T(!new)>(l: seq<T>, lo: seq<T>, mid: seq<T>, hi: seq<T>, r: seq<T>, pivot: T, less: Order<T>)
    requires StrictTotalOrder(less) && Split(lo, mid, hi, pivot, less) && Sorted(lo, less) && Sorted(l, less)
    requires Before(l, lo + mid + hi, less) && Before(lo + mid + hi, r, less) && Before(l, r, less)
    ensures Sorted(l + lo + mid, less)
    ensures Before(l + lo + mid, hi, less) && Before(hi, r, less) && Before(l + lo + mid, r, less)
  {
    SplitOrdered(lo, mid, hi, pivot, less);
    PieceFacts(l, lo, mid, hi, r, less);
    BeforeConcat(l, lo, mid, less);
    SortedConcat(l, lo, less);
    SortedConcat(l + lo, mid, less);
    BeforeConcat(l, lo, hi, less);
    BeforeConcat(l + lo, mid, hi, less);
    BeforeConcat(l, lo, r, less);
    BeforeConcat(l + lo, mid, r, less);
  }

  lemma PieceFacts<T>(l: seq<T>, lo: seq<T>, mid: seq<T>, hi: seq<T>, r: seq<T>, less: Order<T>)
    requires Before(l, lo + mid + hi, less) && Before(lo + mid + hi, r, less)
    requires Before(lo, mid, less) && Before(lo, hi, less) && Before(mid, hi, less)
    ensures Before(l, lo, less) && Before(l, mid, less) && Before(l, hi, less) && Before(l, mid + hi, less)
    ensures Before(lo, r, less) && Before(mid, r, less) && Before(hi, r, less) && Before(mid + hi, r, less)
    ensures Before(lo, mid + hi, less)
  {
    BeforeConcat(l, lo + mid, hi, less);
    BeforeConcat(l, lo, mid, less);
    BeforeConcat(l, mid, hi, less);
    BeforeConcat(lo + mid, hi, r, less);
    BeforeConcat(lo, mid, r, less);
    BeforeConcat(mid, hi, r, less);
    BeforeConcat(lo, mid, hi, less);
  }

  lemma FrameClosesRight<T(!new)>(t: seq<T>, begin: nat, b: nat, eqbeg: nat, eqend: nat, e: nat, end: nat, pivot: T,
                                  less: Order<T>)
    requires StrictTotalOrder(less) && Framed(t, begin, b, e, end, less)
    requires b <= eqbeg <= eqend <= e && Split(t[b..eqbeg], t[eqbeg..eqend], t[eqend..e], pivot, less)
    requires Sorted(t[eqend..e], less)
    ensures Framed(t, begin, b, eqbeg, end, less)
  {
    ThreeParts(t, b, eqbeg, eqend, e);
    ThreeParts(t, eqbeg, eqend, e, end);
    CloseRight(t[begin..b], t[b..eqbeg], t[eqbeg..eqend], t[eqend..e], t[e..end], pivot, less);
  }

  lemma FrameClosesLeft<T(!new)>(t: seq<T>, begin: nat, b: nat, eqbeg: nat, eqend: nat, e: nat, end: nat, pivot: T,
                                 less: Order<T>)
    requires StrictTotalOrder(less) && Framed(t, begin, b, e, end, less)
    requires b <= eqbeg <= eqend <= e && Split(t[b..eqbeg], t[eqbeg..eqend], t[eqend..e], pivot, less)
    requires Sorted(t[b..eqbeg], less)
    ensures Framed(t, begin, eqend, e, end, less)
  {
    ThreeParts(t, b, eqbeg, eqend, e);
    ThreeParts(t, begin, b, eqbeg, eqend);
    CloseLeft(t[begin..b], t[b..eqbeg], t[eqbeg..eqend], t[eqend..e], t[e..end], pivot, less);
  }

  lemma FramedSorted<T>(t: seq<T>, begin: nat, b: nat, e: nat, end: nat, less: Order<T>)
    requires Framed(t, begin, b, e, end, less) && Sorted(t[b..e], less)
    ensures Sorted(t[begin..end], less)
  {
    BeforeConcat(t[begin..b], t[b..e], t[e..end], less);
    SortedConcat(t[begin..b], t[b..e], less);
    SortedConcat(t[begin..b] + t[b..e], t[e..end], less);
    ThreeParts(t, begin, b, e, end);
  }

  /** Sorting one side of a parted range keeps the other pieces and the parting. */
  lemma SideSorted<T>(t: seq<T>, u: seq<T>, pivot: T, b: nat, eqbeg: nat, eqend: nat, e: nat, right: bool,
                      less: Order<T>)
    requires Parted(t, pivot, b, eqbeg, eqend, e, less)
    requires if right then Rearranged(t, u, eqend, e) else Rearranged(t, u, b, eqbeg)
    ensures Rearranged(t, u, b, e) && Split(u[b..eqbeg], u[eqbeg..eqend], u[eqend..e], pivot, less)
  {
    PartedSplit(t, pivot, b, eqbeg, eqend, e, less);
    assert Rearranged(t, t, b, e);
    if right {
      RearrangedInside(t, t, u, b, eqend, e, e);
      assert forall k: nat | k < eqend :: u[k] == u[..eqend][k] == t[..eqend][k];
      assert u[b..eqbeg] == t[b..eqbeg] && u[eqbeg..eqend] == t[eqbeg..eqend];
      PermutesSameElements(u[eqend..e], t[eqend..e]);
    } else {
      RearrangedInside(t, t, u, b, b, eqbeg, e);
      assert forall k: nat | eqbeg <= k < |u| :: u[k] == u[eqbeg..][k - eqbeg] == t[eqbeg..][k - eqbeg];
      assert u[eqbeg..eqend] == t[eqbeg..eqend] && u[eqend..e] == t[eqend..e];
      PermutesSameElements(u[b..eqbeg], t[b..eqbeg]);
    }
  }

  /** A recursion depth that a range of `n` elements admits: each level more needs twice the elements. */
  predicate DepthOk(depth: nat, n: nat) {
    depth > 0 ==> 17 * Pow2(depth - 1) <= n
  }

  lemma DepthGrows(depth: nat, m: nat, n: nat)
    requires DepthOk(depth, m) && 2 * m < n && n > 16
    ensures DepthOk(depth + 1, n)
  {
  }

  /**
    Sorts the range in place.  `depth` is the number of nested recursive calls this one needed: it stays
    below the logarithm of the number of elements, because only the smaller side is left to a recursive call.
   */
  method Sort<T(==, !new)>(a: array<T>, begin: nat, end: nat, less: Order<T>) returns (ghost depth: nat)
    requires begin <= end <= a.Length && StrictTotalOrder(less)
    modifies a
    ensures Rearranged(old(a[..]), a[..], begin, end) && Sorted(a[begin..end], less)
    ensures DepthOk(depth, end - begin)
    decreases end - begin
  {
    hide StrictTotalOrder, Rearranged, Framed, Parted, Sorted, SortedPart, Pow2;
    var b, e := begin, end;
    depth := 0;
    FramedWhole(a[..], begin, end, less);
    while e - b > 16
      invariant begin <= b <= e <= end
      invariant Rearranged(old(a[..]), a[..], begin, end) && Framed(a[..], begin, b, e, end, less)
      invariant DepthOk(depth, end - begin)
      decreases e - b
    {
      var eqbeg, eqend;
      ghost var pivot;
      eqbeg, eqend, pivot := Part(a, begin, b, e, end, less, old(a[..]));
      ghost var p := a[..];
      ghost var inner: nat;
      if eqbeg - b > e - eqend {
        inner := Sort(a, eqend, e, less);
        RightDone(old(a[..]), p, a[..], begin, b, eqbeg, eqend, e, end, pivot, less);
        DepthGrows(inner, e - eqend, end - begin);
        e := eqbeg;
      } else {
        inner := Sort(a, b, eqbeg, less);
        LeftDone(old(a[..]), p, a[..], begin, b, eqbeg, eqend, e, end, pivot, less);
        DepthGrows(inner, eqbeg - b, end - begin);
        b := eqend;
      }
      depth := if inner + 1 > depth then inner + 1 else depth;
    }
    ghost var t := a[..];
    InsertionSort(a, b, e, less);
    LastRound(old(a[..]), t, a[..], begin, b, e, end, less);
    assert a[begin..end] == a[..][begin..end];
  }

  /** One round: the range from `b` up to `e` is parted by a median of three. */
  method Part<T(==, !new)>(a: array<T>, ghost begin: nat, b: nat, e: nat, ghost end: nat, less: Order<T>, ghost s: seq<T>)
    returns (eqbeg: nat, eqend: nat, ghost pivot: T)
    requires StrictTotalOrder(less) && begin <= b < e <= end <= a.Length
    requires Rearranged(s, a[..], begin, end) && Framed(a[..], begin, b, e, end, less)
    modifies a
    ensures Rearranged(s, a[..], begin, end) && Framed(a[..], begin, b, e, end, less)
    ensures Parted(a[..], pivot, b, eqbeg, eqend, e, less) && b <= eqbeg < eqend <= e
  {
    hide StrictTotalOrder, Rearranged, Framed, Parted;
    ghost var t := a[..];
    var middle := b + (e - b) / 2;
    var median := Median3(a, b, middle, e - 1, less);
    var p := a[median];
    eqbeg, eqend := Partition3(a, b, e, p, less);
    Round(s, t, a[..], begin, b, eqbeg, eqend, e, end, median, less);
    pivot := p;
  }

  lemma Round<T(!new)>(s: seq<T>, t: seq<T>, p: seq<T>, begin: nat, b: nat, eqbeg: nat, eqend: nat, e: nat, end: nat,
                       median: nat, less: Order<T>)
    requires StrictTotalOrder(less) && Rearranged(s, t, begin, end) && Framed(t, begin, b, e, end, less)
    requires Rearranged(t, p, b, e) && b <= median < e && Parted(p, t[median], b, eqbeg, eqend, e, less)
    ensures Rearranged(s, p, begin, end) && Framed(p, begin, b, e, end, less) && b <= eqbeg < eqend <= e
  {
    RearrangedInside(s, t, p, begin, b, e, end);
    FramedRearranged(t, p, begin, b, e, end, less);
    PermutesSameElements(p[b..e], t[b..e]);
    assert t[median] == t[b..e][median - b];
    PivotPresent(p, t[median], b, eqbeg, eqend, e, less);
  }

  lemma RightDone<T(!new)>(s: seq<T>, p: seq<T>, u: seq<T>, begin: nat, b: nat, eqbeg: nat, eqend: nat, e: nat, end: nat,
                           pivot: T, less: Order<T>)
    requires StrictTotalOrder(less) && Rearranged(s, p, begin, end) && Framed(p, begin, b, e, end, less)
    requires Parted(p, pivot, b, eqbeg, eqend, e, less) && Rearranged(p, u, eqend, e) && Sorted(u[eqend..e], less)
    ensures Rearranged(s, u, begin, end) && Framed(u, begin, b, eqbeg, end, less)
  {
    SideSorted(p, u, pivot, b, eqbeg, eqend, e, true, less);
    RearrangedInside(s, p, u, begin, b, e, end);
    FramedRearranged(p, u, begin, b, e, end, less);
    FrameClosesRight(u, begin, b, eqbeg, eqend, e, end, pivot, less);
  }

  lemma LeftDone<T(!new)>(s: seq<T>, p: seq<T>, u: seq<T>, begin: nat, b: nat, eqbeg: nat, eqend: nat, e: nat, end: nat,
                          pivot: T, less: Order<T>)
    requires StrictTotalOrder(less) && Rearranged(s, p, begin, end) && Framed(p, begin, b, e, end, less)
    requires Parted(p, pivot, b, eqbeg, eqend, e, less) && Rearranged(p, u, b, eqbeg) && Sorted(u[b..eqbeg], less)
    ensures Rearranged(s, u, begin, end) && Framed(u, begin, eqend, e, end, less)
  {
    SideSorted(p, u, pivot, b, eqbeg, eqend, e, false, less);
    RearrangedInside(s, p, u, begin, b, e, end);
    FramedRearranged(p, u, begin, b, e, end, less);
    FrameClosesLeft(u, begin, b, eqbeg, eqend, e, end, pivot, less);
  }

  lemma LastRound<T(!new)>(s: seq<T>, t: seq<T>, u: seq<T>, begin: nat, b: nat, e: nat, end: nat, less: Order<T>)
    requires Rearranged(s, t, begin, end) && Framed(t, begin, b, e, end, less) && SortedPart(t, u, b, e, less)
    ensures Rearranged(s, u, begin, end) && Sorted(u[begin..end], less)
  {
    RearrangedInside(s, t, u, begin, b, e, end);
    FramedRearranged(t, u, begin, b, e, end, less);
    FramedSorted(u, begin, b, e, end, less);
  }

  /** The depth bound as a logarithm: 2 to the power of `depth` is less than the number of elements. */
  lemma DepthIsLogarithmic(depth: nat, n: nat)
    requires DepthOk(depth, n) && depth > 0
    ensures Pow2(depth) < n
  {
  }

  /** The order leaves only one sorted arrangement: `Sort` computes the function "sorted". */
  lemma {:induction false} SortedUnique<T(!new)>(s: seq<T>, t: seq<T>, less: Order<T>)
    requires StrictTotalOrder(less) && Sorted(s, less) && Sorted(t, less) && Permutes(s, t)
    ensures s == t
  {
    PermutesSameElements(s, t);
    if s != [] {
      var x, y := s[0], t[0];
      FirstIsLeast(s, y, less);
      FirstIsLeast(t, x, less);
      assert x == y;
      TailsPermute(s, t);
      SortedUnique(s[1..], t[1..], less);
      assert s == [x] + s[1..] && t == [x] + t[1..];
    }
  }

  lemma TailsPermute<T>(s: seq<T>, t: seq<T>)
    requires s != [] && t != [] && s[0] == t[0] && Permutes(s, t)
    ensures Permutes(s[1..], t[1..])
  {
    assert s == [s[0]] + s[1..] && t == [t[0]] + t[1..];
    assert multiset(s[1..]) == multiset(s) - multiset{s[0]} == multiset(t[1..]);
  }

  lemma FirstIsLeast<T>(s: seq<T>, y: T, less: Order<T>)
    requires Sorted(s, less) && y in s
    ensures y == s[0] || !Less(less, y, s[0])
  {
    var k: nat :| k < |s| && s[k] == y;
  }

  // ----- unique -----

  /** The sequence with runs of equal elements shortened to one. */
  function Compressed<T(==)>(s: seq<T>): seq<T> {
    if |s| <= 1 then s
    else if s[|s| - 2] == s[|s| - 1] then Compressed(s[..|s| - 1])
    else Compressed(s[..|s| - 1]) + [s[|s| - 1]]
  }

  lemma {:induction false} CompressedLast<T>(s: seq<T>)
    ensures (s == [] <==> Compressed(s) == []) && |Compressed(s)| <= |s|
    ensures s != [] ==> Compressed(s)[|Compressed(s)| - 1] == s[|s| - 1]
  {
    if |s| > 1 { CompressedLast(s[..|s| - 1]); }
  }

  lemma {:induction false} CompressedSame<T>(s: seq<T>)
    requires forall k: nat | 0 < k < |s| :: s[k - 1] != s[k]
    ensures Compressed(s) == s
  {
    if |s| > 1 {
      CompressedSame(s[..|s| - 1]);
      assert s == s[..|s| - 1] + [s[|s| - 1]];
    }
  }

  /** The scan part-way: the elements before `b` are compressed to `begin` up to and including `write`. */
  ghost predicate Compressing<T>(s: seq<T>, t: seq<T>, begin: nat, write: nat, b: nat) {
    && begin <= write < b <= |s| == |t|
    && t[begin..write + 1] == Compressed(s[begin..b]) && t[write] == s[b - 1]
    && (forall k: nat | k < begin || b <= k < |s| :: t[k] == s[k])
  }

  lemma CompressStep<T>(s: seq<T>, t: seq<T>, begin: nat, write: nat, b: nat)
    requires Compressing(s, t, begin, write, b) && b < |s|
    ensures if t[b] != t[write] then Compressing(s, t[write + 1 := t[b]], begin, write + 1, b + 1)
            else Compressing(s, t, begin, write, b + 1)
  {
    assert s[begin..b + 1][..b - begin] == s[begin..b];
    assert s[begin..b + 1][b - begin] == s[b] && s[begin..b + 1][b - begin - 1] == s[b - 1];
    if t[b] != t[write] {
      var u := t[write + 1 := t[b]];
      assert u[begin..write + 2] == t[begin..write + 1] + [t[b]];
    }
  }

  lemma EmptyCompressed<T>()
    ensures Compressed<T>([]) == []
  {
  }

  lemma CompressedAll<T>(s: seq<T>, t: seq<T>, begin: nat, write: nat, end: nat)
    requires Compressing(s, t, begin, write, end)
    ensures begin <= write < end <= |s| == |t| && t[begin..write + 1] == Compressed(s[begin..end])
    ensures forall k: nat | k < begin || end <= k < |s| :: t[k] == s[k]
  {
    hide Compressed;
  }

  /** The first loop: past the elements that already differ from their successor. */
  method SkipHead<T(==)>(a: array<T>, begin: nat, end: nat) returns (b: nat)
    requires begin < end <= a.Length
    ensures begin <= b < end && Compressing(a[..], a[..], begin, b, b + 1)
  {
    hide Compressed;
    b := begin;
    while end - b > 1 && a[b] != a[b + 1]
      invariant begin <= b < end
      invariant forall k: nat | begin < k <= b :: a[k - 1] != a[k]
    {
      b := b + 1;
    }
    CompressedSame(a[..][begin..b + 1]);
  }

  /** `unique`: compresses the range to its front and returns the end of the result. */
  method Unique<T(==)>(a: array<T>, begin: nat, end: nat) returns (newEnd: nat)
    requires begin <= end <= a.Length
    modifies a
    ensures begin <= newEnd <= end && a[begin..newEnd] == Compressed(old(a[begin..end]))
    ensures forall k: nat | k < begin || end <= k < a.Length :: a[k] == old(a[k])
  {
    hide Compressed, Compressing;
    ghost var s := a[..];
    if begin == end {
      EmptyCompressed<T>();
      return begin;
    }
    var b := SkipHead(a, begin, end);
    var write: nat := b;
    b := b + 1;
    while b != end
      invariant write < b <= end && Compressing(s, a[..], begin, write, b)
    {
      ghost var t := a[..];
      CompressStep(s, t, begin, write, b);
      if a[b] != a[write] {
        write := write + 1;
        a[write] := a[b];
        assert a[..] == t[write := t[b]];
      }
      b := b + 1;
    }
    newEnd := write + 1;
    CompressedAll(s, a[..], begin, write, end);
    assert a[begin..newEnd] == a[..][begin..newEnd];
  }

  /** Of a sorted sequence exactly one copy of each element is left, in ascending order. */
  lemma {:induction false} CompressedSorted<T(!new)>(s: seq<T>, less: Order<T>)
    requires StrictTotalOrder(less) && Sorted(s, less)
    ensures forall x :: x in Compressed(s) <==> x in s
    ensures forall i: nat, j: nat | i < j < |Compressed(s)| :: Less(less, Compressed(s)[i], Compressed(s)[j])
  {
    if |s| > 1 {
      var front, last := s[..|s| - 1], s[|s| - 1];
      CompressedSorted(front, less);
      assert s == front + [last];
      CompressedLast(front);
      if s[|s| - 2] == last {
        assert last in front;
      } else {
        forall x | x in Compressed(front) ensures Less(less, x, last) {
          LastIsGreater(s, x, less);
        }
      }
    }
  }

  lemma LastIsGreater<T(!new)>(s: seq<T>, x: T, less: Order<T>)
    requires StrictTotalOrder(less) && Sorted(s, less) && |s| > 1 && s[|s| - 2] != s[|s| - 1] && x in s[..|s| - 1]
    ensures Less(less, x, s[|s| - 1])
  {
    var k: nat :| k < |s| - 1 && s[k] == x;
    var y, last := s[|s| - 2], s[|s| - 1];
    assert Less(less, y, last);
    if k < |s| - 2 { assert !Less(less, y, x); }
  }
}
