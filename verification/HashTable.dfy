/**
  `compact_hash_table` of xml/pugixml.cpp: open addressing over a power-of-two array, probed in triangular
  steps, with pointers as keys and values (0 is null).  The finalizer `hash` only spreads the keys: every
  function may take its place.
*/
module HashTable {
  import opened Common
  import opened Bits

  datatype Item = Item(key: nat, value: nat)

  // ----- the probe sequence -----

  function Triangle(p: nat): nat {
    if p == 0 then 0 else Triangle(p - 1) + p
  }

  /** The bucket of probe number `p`, after the steps 1, 2, ... p. */
  function Bucket(h: nat, p: nat, size: nat): (b: nat)
    requires IsPowerOfTwo(size)
    ensures b < size
  {
    MaskInRange(h + Triangle(p), size);
    And(h + Triangle(p), size - 1)
  }

  lemma MaskHalves(x: nat, size: nat)
    requires IsPowerOfTwo(size) && size > 1
    ensures And(x, size - 1) == 2 * And(x / 2, size / 2 - 1) + x % 2
  {
    assert (size - 1) / 2 == size / 2 - 1 && (size - 1) % 2 == 1;
  }

  function Laps(k: nat, size: nat): nat {
    if k == 0 then 0 else Laps(k - 1, size) + size
  }

  lemma {:induction false} MaskLaps(x: nat, k: nat, size: nat)
    requires IsPowerOfTwo(size)
    ensures And(x + Laps(k, size), size - 1) == And(x, size - 1)
  {
    if k > 0 {
      MaskLaps(x, k - 1, size);
      MaskNextLap(x + Laps(k - 1, size), size);
    }
  }

  lemma {:induction false} MaskQuotient(x: nat, size: nat) returns (k: nat)
    requires IsPowerOfTwo(size)
    ensures x == And(x, size - 1) + Laps(k, size)
  {
    if x < size {
      MaskBelowSize(x, size);
      k := 0;
    } else {
      k := MaskQuotient(x - size, size);
      MaskNextLap(x - size, size);
      k := k + 1;
    }
  }

  /** Masking after each addition or once at the end is the same. */
  lemma MaskSum(x: nat, y: nat, size: nat)
    requires IsPowerOfTwo(size)
    ensures And(And(x, size - 1) + y, size - 1) == And(x + y, size - 1)
  {
    var k := MaskQuotient(x, size);
    MaskLaps(And(x, size - 1) + y, k, size);
  }

  lemma BucketStep(h: nat, p: nat, size: nat)
    requires IsPowerOfTwo(size)
    ensures And(Bucket(h, p, size) + p + 1, size - 1) == Bucket(h, p + 1, size)
  {
    MaskSum(h + Triangle(p), p + 1, size);
  }

  /** `size`, a power of two, divides `n`. */
  predicate PowerDivides(size: nat, n: nat)
    requires IsPowerOfTwo(size)
  {
    size == 1 || (n % 2 == 0 && PowerDivides(size / 2, n / 2))
  }

  lemma {:induction false} SameMaskDivides(x: nat, n: nat, size: nat)
    requires IsPowerOfTwo(size) && And(x, size - 1) == And(x + n, size - 1)
    ensures PowerDivides(size, n)
  {
    if size > 1 {
      MaskHalves(x, size);
      MaskHalves(x + n, size);
      assert n % 2 == 0 && (x + n) / 2 == x / 2 + n / 2;
      SameMaskDivides(x / 2, n / 2, size / 2);
    }
  }

  lemma {:induction false} OddFactor(a: nat, b: nat, size: nat)
    requires IsPowerOfTwo(size) && a % 2 == 1 && PowerDivides(size, a * b)
    ensures PowerDivides(size, b)
  {
    if size > 1 {
      OddTimes(a, b);
      HalfProduct(a, b);
      OddFactor(a, b / 2, size / 2);
    }
  }

  lemma OddTimes(a: nat, b: nat)
    requires a % 2 == 1
    ensures a * b % 2 == b % 2
  {
    var i := a / 2;
    assert a * b == (2 * i + 1) * b == 2 * (i * b) + b;
  }

  lemma HalfProduct(a: nat, b: nat)
    requires b % 2 == 0
    ensures a * b == 2 * (a * (b / 2))
  {
    var j := b / 2;
    assert b == 2 * j;
  }

  lemma {:induction false} SmallNotDivided(n: nat, size: nat)
    requires IsPowerOfTwo(size) && PowerDivides(size, n) && n < size
    ensures n == 0
  {
    if size > 1 { SmallNotDivided(n / 2, size / 2); }
  }

  lemma {:induction false} TriangleDifference(p: nat, q: nat)
    requires p <= q
    ensures Triangle(p) <= Triangle(q) && 2 * (Triangle(q) - Triangle(p)) == (q - p) * (q + p + 1)
  {
    if p < q {
      TriangleDifference(p, q - 1);
      assert (q - p) * (q + p + 1) == (q - 1 - p) * (q + p) + (q - 1 - p) + (q + p + 1);
    }
  }

  /** Of two factors of different parity, less than `size` both, one is zero if `size` divides their product. */
  lemma NoSmallProduct(a: nat, b: nat, product: nat, size: nat)
    requires IsPowerOfTwo(size) && a < size && b < size && a % 2 != b % 2
    requires product == a * b && PowerDivides(size, product)
    ensures a == 0 || b == 0
  {
    if a % 2 == 1 {
      OddFactor(a, b, size);
      SmallNotDivided(b, size);
    } else {
      assert a * b == b * a;
      OddFactor(b, a, size);
      SmallNotDivided(a, size);
    }
  }

  lemma SameBucketDivides(h: nat, p: nat, q: nat, size: nat)
    requires IsPowerOfTwo(size) && p <= q && Bucket(h, p, size) == Bucket(h, q, size)
    ensures Triangle(p) <= Triangle(q) && PowerDivides(size, Triangle(q) - Triangle(p))
  {
    TriangleDifference(p, q);
    SameMaskDivides(h + Triangle(p), Triangle(q) - Triangle(p), size);
  }

  /** The first `size` probes go to different buckets. */
  lemma ProbesDiffer(h: nat, p: nat, q: nat, size: nat)
    requires IsPowerOfTwo(size) && p < q < size
    ensures Bucket(h, p, size) != Bucket(h, q, size)
  {
    if Bucket(h, p, size) == Bucket(h, q, size) {
      SameBucketDivides(h, p, q, size);
      DifferenceNotDivided(p, q, Triangle(q) - Triangle(p), size);
    }
  }

  lemma PowerDividesTwice(size: nat, n: nat)
    requires IsPowerOfTwo(size)
    ensures IsPowerOfTwo(2 * size) && (PowerDivides(2 * size, 2 * n) <==> PowerDivides(size, n))
  {
    assert 2 * size / 2 == size && 2 * n / 2 == n;
  }

  lemma DifferentParity(p: nat, q: nat)
    requires p <= q
    ensures (q - p) % 2 != (q + p + 1) % 2
  {
  }

  lemma DifferenceNotDivided(p: nat, q: nat, n: int, size: nat)
    requires IsPowerOfTwo(size) && p < q < size && n == Triangle(q) - Triangle(p)
    ensures n >= 0 && !PowerDivides(size, n)
  {
    TriangleDifference(p, q);
    DifferentParity(p, q);
    PowerDividesTwice(size, n);
    if PowerDivides(2 * size, 2 * n) {
      NoSmallProduct(q - p, q + p + 1, 2 * n, 2 * size);
    }
  }

  ghost function Elements(s: seq<nat>): (e: set<nat>)
    ensures forall x :: x in e <==> x in s
  {
    if s == [] then {} else Elements(s[..|s| - 1]) + {s[|s| - 1]}
  }

  lemma {:induction false} DistinctElements(s: seq<nat>)
    requires Distinct(s)
    ensures |Elements(s)| == |s|
  {
    if s != [] { DistinctElements(s[..|s| - 1]); }
  }

  ghost function UpTo(n: nat): (s: set<nat>)
    ensures forall i: nat :: i in s <==> i < n
    ensures |s| == n
  {
    if n == 0 then {} else UpTo(n - 1) + {n - 1}
  }

  /** Pigeonhole: as many different numbers below `n` as there are include each of them. */
  lemma DistinctCoversAll(s: seq<nat>, n: nat)
    requires |s| == n && Distinct(s) && (forall x | x in s :: x < n)
    ensures forall b: nat | b < n :: b in s
  {
    DistinctElements(s);
    SubsetOfSameSize(Elements(s), UpTo(n));
  }

  lemma SubsetOfSameSize<T>(a: set<T>, b: set<T>)
    requires a <= b && |a| == |b|
    ensures a == b
  {
    if a != b {
      var x :| x in b && x !in a;
      assert |a + {x}| == |a| + 1;
      SmallerSubset(a + {x}, b);
    }
  }

  lemma {:induction false} SmallerSubset<T>(a: set<T>, b: set<T>)
    requires a <= b
    ensures |a| <= |b|
  {
    if a != {} {
      var x :| x in a;
      SmallerSubset(a - {x}, b - {x});
    }
  }

  /** Every bucket is visited, and visited once, by the first `size` probes. */
  lemma EveryBucketProbedOnce(h: nat, b: nat, size: nat)
    requires IsPowerOfTwo(size) && b < size
    ensures exists p: nat :: p < size && Bucket(h, p, size) == b
    ensures forall p: nat, q: nat | p < q < size :: Bucket(h, p, size) != Bucket(h, q, size)
  {
    var s := seq(size, p requires 0 <= p < size => Bucket(h, p, size));
    forall p: nat, q: nat | p < q < size ensures Bucket(h, p, size) != Bucket(h, q, size) {
      ProbesDiffer(h, p, q, size);
    }
    DistinctCoversAll(s, size);
    assert b in s;
  }

  // ----- what an array of items represents -----

  /** The item in bucket `b` is found there: every earlier probe for its key meets another key. */
  ghost predicate FoundAt(items: seq<Item>, h: nat, b: nat, p: nat)
    requires IsPowerOfTwo(|items|) && b < |items|
  {
    && p < |items| && Bucket(h, p, |items|) == b
    && PassedBy(items, h, items[b].key, p)
  }

  /** The first `p` probes meet neither an empty bucket nor the key. */
  ghost predicate PassedBy(items: seq<Item>, h: nat, key: nat, p: nat)
    requires IsPowerOfTwo(|items|)
  {
    forall q: nat | q < p :: items[Bucket(h, q, |items|)].key != 0 && items[Bucket(h, q, |items|)].key != key
  }

  ghost predicate ItemOk(items: seq<Item>, hash: nat -> nat, m: map<nat, nat>, b: nat)
    requires IsPowerOfTwo(|items|) && b < |items|
  {
    var it := items[b];
    if it.key == 0 then it.value == 0
    else it.key in m && m[it.key] == it.value && exists p: nat :: FoundAt(items, hash(it.key), b, p)
  }

  ghost predicate Stored(items: seq<Item>, key: nat) {
    exists b: nat :: b < |items| && items[b].key == key
  }

  ghost predicate Represents(items: seq<Item>, hash: nat -> nat, m: map<nat, nat>) {
    && IsPowerOfTwo(|items|)
    && (forall b: nat | b < |items| :: ItemOk(items, hash, m, b))
    && KeysStored(items, m)
  }

  ghost predicate KeysStored(items: seq<Item>, m: map<nat, nat>) {
    forall k | k in m :: k != 0 && Stored(items, k)
  }

  lemma KeysDiffer(items: seq<Item>, hash: nat -> nat, m: map<nat, nat>, b: nat, c: nat)
    requires Represents(items, hash, m) && b < |items| && c < |items| && b != c && items[b].key != 0
    ensures items[b].key != items[c].key
  {
    assert ItemOk(items, hash, m, b) && ItemOk(items, hash, m, c);
    var p: nat :| FoundAt(items, hash(items[b].key), b, p);
    if items[c].key != 0 {
      var q: nat :| FoundAt(items, hash(items[c].key), c, q);
    }
  }

  /** While fewer keys are stored than there are buckets, one bucket is empty. */
  lemma SomeEmpty(items: seq<Item>, hash: nat -> nat, m: map<nat, nat>) returns (b: nat)
    requires Represents(items, hash, m) && |m| < |items|
    ensures b < |items| && items[b].key == 0
  {
    assert |m.Keys| == |m|;
    if forall c: nat | c < |items| :: items[c].key != 0 {
      var keys := seq(|items|, c requires 0 <= c < |items| => items[c].key);
      forall c: nat, d: nat | c < d < |items| ensures keys[c] != keys[d] {
        KeysDiffer(items, hash, m, c, d);
      }
      DistinctElements(keys);
      forall k | k in Elements(keys) ensures k in m.Keys {
        var c: nat :| c < |items| && keys[c] == k;
        assert ItemOk(items, hash, m, c);
      }
      SmallerSubset(Elements(keys), m.Keys);
    }
    b :| b < |items| && items[b].key == 0;
  }

  lemma ShapeOf(items: seq<Item>, hash: nat -> nat, m: map<nat, nat>)
    requires Represents(items, hash, m)
    ensures IsPowerOfTwo(|items|)
  {
  }

  lemma PassedNone(items: seq<Item>, h: nat, key: nat)
    requires IsPowerOfTwo(|items|)
    ensures PassedBy(items, h, key, 0)
  {
  }

  lemma PassedOne(items: seq<Item>, h: nat, key: nat, p: nat)
    requires IsPowerOfTwo(|items|) && PassedBy(items, h, key, p)
    requires items[Bucket(h, p, |items|)].key != 0 && items[Bucket(h, p, |items|)].key != key
    ensures PassedBy(items, h, key, p + 1)
  {
    hide Bucket, IsPowerOfTwo;
  }

  /** Probing must meet the key or an empty bucket: the "table is full" exit is never reached. */
  lemma NeverFull(items: seq<Item>, hash: nat -> nat, m: map<nat, nat>, key: nat)
    requires Represents(items, hash, m) && |m| < |items|
    ensures !PassedBy(items, hash(key), key, |items|)
  {
    var b := SomeEmpty(items, hash, m);
    EveryBucketProbedOnce(hash(key), b, |items|);
  }

  /** If the probes stop at an empty bucket, the key is not stored. */
  lemma NotStored(items: seq<Item>, hash: nat -> nat, m: map<nat, nat>, key: nat, p: nat)
    requires Represents(items, hash, m) && key != 0 && p < |items| && PassedBy(items, hash(key), key, p)
    requires items[Bucket(hash(key), p, |items|)].key == 0
    ensures key !in m
  {
    forall b: nat | b < |items| ensures items[b].key != key {
      assert ItemOk(items, hash, m, b);
      if items[b].key != 0 {
        var q: nat :| FoundAt(items, hash(items[b].key), b, q);
      }
    }
  }

  lemma StopsAt(items: seq<Item>, hash: nat -> nat, m: map<nat, nat>, key: nat, p: nat)
    requires Represents(items, hash, m) && key != 0 && p < |items| && PassedBy(items, hash(key), key, p)
    requires var k := items[Bucket(hash(key), p, |items|)].key; k == 0 || k == key
    ensures items[Bucket(hash(key), p, |items|)].key == key <==> key in m
  {
    var b := Bucket(hash(key), p, |items|);
    if items[b].key == 0 {
      NotStored(items, hash, m, key, p);
    } else {
      assert ItemOk(items, hash, m, b);
    }
  }

  /** Filling the bucket where the probes for a new key stop adds the binding. */
  lemma FillBucket(items: seq<Item>, hash: nat -> nat, m: map<nat, nat>, key: nat, value: nat, p: nat)
    requires Represents(items, hash, m) && key != 0 && p < |items| && PassedBy(items, hash(key), key, p)
    requires items[Bucket(hash(key), p, |items|)].key == 0
    ensures Represents(items[Bucket(hash(key), p, |items|) := Item(key, value)], hash, m[key := value])
  {
    var b := Bucket(hash(key), p, |items|);
    var items', m' := items[b := Item(key, value)], m[key := value];
    NotStored(items, hash, m, key, p);
    forall c: nat | c < |items'| ensures ItemOk(items', hash, m', c) {
      assert ItemOk(items, hash, m, c);
      if c == b {
        assert FoundAt(items', hash(key), b, p);
      } else if items[c].key != 0 {
        var q: nat :| FoundAt(items, hash(items[c].key), c, q);
        assert FoundAt(items', hash(items[c].key), c, q);
      }
    }
    KeysStayStored(items, m, b, key, value);
  }

  lemma KeysStayStored(items: seq<Item>, m: map<nat, nat>, b: nat, key: nat, value: nat)
    requires b < |items| && (items[b].key == 0 || items[b].key == key) && key != 0
    requires KeysStored(items, m)
    ensures KeysStored(items[b := Item(key, value)], m[key := value])
  {
    var items' := items[b := Item(key, value)];
    forall k | k in m[key := value] ensures k != 0 && Stored(items', k) {
      if k == key {
        assert items'[b].key == key;
      } else {
        var c: nat :| c < |items| && items[c].key == k;
        assert items'[c].key == k;
      }
    }
  }

  /** Overwriting the value of a stored key rebinds it. */
  lemma OverwriteBucket(items: seq<Item>, hash: nat -> nat, m: map<nat, nat>, key: nat, value: nat, b: nat)
    requires Represents(items, hash, m) && key != 0 && b < |items| && items[b].key == key
    ensures key in m && Represents(items[b := Item(key, value)], hash, m[key := value])
  {
    var items', m' := items[b := Item(key, value)], m[key := value];
    assert ItemOk(items, hash, m, b);
    forall c: nat | c < |items'| ensures ItemOk(items', hash, m', c) {
      assert ItemOk(items, hash, m, c);
      if c != b { KeysDiffer(items, hash, m, b, c); }
      if items[c].key != 0 {
        var q: nat :| FoundAt(items, hash(items[c].key), c, q);
        assert FoundAt(items', hash(items[c].key), c, q);
      }
    }
    KeysStayStored(items, m, b, key, value);
  }

  /** The bindings found in the first `n` buckets. */
  ghost function Collected(items: seq<Item>, n: nat): map<nat, nat>
    requires n <= |items|
  {
    if n == 0 then map[]
    else if items[n - 1].key == 0 then Collected(items, n - 1)
    else Collected(items, n - 1)[items[n - 1].key := items[n - 1].value]
  }

  lemma {:induction false} CollectedPart(items: seq<Item>, hash: nat -> nat, m: map<nat, nat>, n: nat)
    requires Represents(items, hash, m) && n <= |items|
    ensures forall k | k in Collected(items, n) :: k in m && m[k] == Collected(items, n)[k]
    ensures forall b: nat | b < n && items[b].key != 0 :: items[b].key in Collected(items, n)
    ensures |Collected(items, n)| <= |m|
  {
    if n > 0 {
      CollectedPart(items, hash, m, n - 1);
      assert ItemOk(items, hash, m, n - 1);
    }
    SmallerSubset(Collected(items, n).Keys, m.Keys);
    assert |Collected(items, n).Keys| == |Collected(items, n)| && |m.Keys| == |m|;
  }

  lemma CollectedAll(items: seq<Item>, hash: nat -> nat, m: map<nat, nat>)
    requires Represents(items, hash, m)
    ensures Collected(items, |items|) == m
  {
    CollectedPart(items, hash, m, |items|);
    forall k | k in m ensures k in Collected(items, |items|) {
      assert Stored(items, k);
    }
  }

  // ----- the table -----

  class CompactHashTable {
    var items: array<Item>
    var capacity: nat
    var count: nat
    const hash: nat -> nat
    ghost var contents: map<nat, nat>

    ghost predicate Valid()
      reads this, items
    {
      && capacity == items.Length && count == |contents|
      && (if capacity == 0 then contents == map[] else Represents(items[..], hash, contents))
      && (capacity != 0 ==> capacity >= 32 && count <= capacity - capacity / 4)
    }

    constructor (finalizer: nat -> nat)
      ensures Valid() && fresh(items) && contents == map[] && hash == finalizer
    {
      items := new Item[0];
      capacity, count := 0, 0;
      hash := finalizer;
      contents := map[];
    }

    /** An empty table of a given capacity, as `rehash` prepares it. */
    constructor WithCapacity(finalizer: nat -> nat, size: nat)
      requires IsPowerOfTwo(size) && size >= 32
      ensures Valid() && fresh(items) && contents == map[] && hash == finalizer && capacity == size
    {
      items := new Item[size](_ => Item(0, 0));
      capacity, count := size, 0;
      hash := finalizer;
      contents := map[];
      new;
      forall b: nat | b < size ensures ItemOk(items[..], hash, contents, b) {
      }
    }

    /** The bucket that holds the key, or the empty one where its probes stop. */
    method GetItem(key: nat) returns (bucket: nat, ghost probe: nat)
      requires Valid() && key != 0 && capacity > 0
      ensures probe < capacity && bucket == Bucket(hash(key), probe, capacity)
      ensures PassedBy(items[..], hash(key), key, probe)
      ensures items[bucket].key == key || items[bucket].key == 0
      ensures items[bucket].key == key <==> key in contents
    {
      hide PassedBy, Represents;
      var hashmod := capacity - 1;
      ShapeOf(items[..], hash, contents);
      PassedNone(items[..], hash(key), key);
      bucket := And(hash(key), hashmod);
      MaskInRange(hash(key), capacity);
      var n := 0;
      while n <= hashmod
        invariant n <= capacity && bucket == Bucket(hash(key), n, capacity)
        invariant PassedBy(items[..], hash(key), key, n)
      {
        if items[bucket].key == key || items[bucket].key == 0 {
          probe := n;
          StopsAt(items[..], hash, contents, key, probe);
          return;
        }
        PassedOne(items[..], hash(key), key, n);
        BucketStep(hash(key), n, capacity);
        bucket := And(bucket + n + 1, hashmod);
        n := n + 1;
      }
      NeverFull(items[..], hash, contents, key);
      assert false;
    }

    method Find(key: nat) returns (value: nat)
      requires Valid() && key != 0
      ensures value == if key in contents then contents[key] else 0
    {
      if capacity == 0 { return 0; }
      var bucket, probe := GetItem(key);
      assert ItemOk(items[..], hash, contents, bucket);
      value := items[bucket].value;
    }

    method Insert(key: nat, value: nat)
      requires Valid() && key != 0
      requires capacity != 0 && count < capacity - capacity / 4
      modifies this, items
      ensures Valid() && contents == old(contents)[key := value]
      ensures items == old(items) && capacity == old(capacity)
    {
      var bucket, probe := GetItem(key);
      if items[bucket].key == 0 {
        FillBucket(items[..], hash, contents, key, value, probe);
        count := count + 1;
      } else {
        OverwriteBucket(items[..], hash, contents, key, value, bucket);
      }
      ghost var before := items[..];
      items[bucket] := Item(key, value);
      assert items[..] == before[bucket := Item(key, value)];
      contents := contents[key := value];
    }

    /** Room for `extra` more insertions, without changing a binding. */
    method Reserve(extra: nat)
      requires Valid()
      modifies this
      ensures Valid() && contents == old(contents)
      ensures items == old(items) || fresh(items)
      ensures count + extra < capacity - capacity / 4
      ensures old(count + extra < capacity - capacity / 4) ==> items == old(items) && capacity == old(capacity)
      ensures old(count + extra >= capacity - capacity / 4) ==> fresh(items) && capacity >= 32 && Tight(capacity, old(count) + extra)
    {
      if count + extra >= capacity - capacity / 4 {
        Rehash(count + extra);
      }
    }

    /** Half of it would not do. */
    static predicate Tight(size: nat, total: nat) {
      size > 32 ==> total >= size / 2 - size / 2 / 4
    }

    static method CapacityFor(total: nat) returns (size: nat)
      ensures IsPowerOfTwo(size) && size >= 32 && total < size - size / 4 && Tight(size, total)
    {
      size := 32;
      while total >= size - size / 4
        invariant IsPowerOfTwo(size) && size >= 32 && Tight(size, total)
        decreases 2 * total - size
      {
        size := size * 2;
      }
    }

    /** The loop of `rehash`: inserts every binding of this table into an empty one. */
    method CopyInto(rt: CompactHashTable)
      requires Valid() && rt.Valid() && rt != this && rt.items != items
      requires rt.contents == map[] && rt.hash == hash && rt.capacity >= 32 && count < rt.capacity - rt.capacity / 4
      modifies rt, rt.items
      ensures rt.Valid() && rt.contents == contents
      ensures rt.items == old(rt.items) && rt.capacity == old(rt.capacity)
    {
      for i := 0 to capacity
        invariant rt.Valid() && rt.items == old(rt.items) && rt.capacity == old(rt.capacity)
        invariant rt.contents == Collected(items[..], i)
      {
        CollectedPart(items[..], hash, contents, i);
        if items[i].key != 0 {
          assert ItemOk(items[..], hash, contents, i);
          rt.Insert(items[i].key, items[i].value);
        }
      }
      if capacity != 0 { CollectedAll(items[..], hash, contents); }
    }

    method Rehash(total: nat)
      requires Valid() && total >= count
      modifies this
      ensures Valid() && contents == old(contents) && fresh(items) && count == old(count)
      ensures total < capacity - capacity / 4 && capacity >= 32 && Tight(capacity, total)
    {
      var size := CapacityFor(total);
      var rt := new CompactHashTable.WithCapacity(hash, size);
      CopyInto(rt);
      assert count == rt.count;
      capacity := size;
      items := rt.items;
    }
  }
}
