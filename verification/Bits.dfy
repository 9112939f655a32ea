/** Powers of two and the bitwise AND of natural numbers, as the ring buffer and the hash table use them. */
module Bits {

  function Pow2(n: nat): (p: nat)
    ensures p > 0
  {
    if n == 0 then 1 else 2 * Pow2(n - 1)
  }

  predicate IsPowerOfTwo(n: nat) {
    n == 1 || (n > 0 && n % 2 == 0 && IsPowerOfTwo(n / 2))
  }

  function And(x: nat, m: nat): nat {
    if x == 0 || m == 0 then 0
    else 2 * And(x / 2, m / 2) + (if x % 2 == 1 && m % 2 == 1 then 1 else 0)
  }

  lemma {:induction false} MaskInRange(x: nat, size: nat)
    requires IsPowerOfTwo(size)
    ensures And(x, size - 1) < size
  {
    if size > 1 && x > 0 {
      MaskInRange(x / 2, size / 2);
      assert (size - 1) / 2 == size / 2 - 1;
    }
  }

  lemma {:induction false} MaskBelowSize(x: nat, size: nat)
    requires IsPowerOfTwo(size) && x < size
    ensures And(x, size - 1) == x
  {
    if size > 1 && x > 0 {
      MaskBelowSize(x / 2, size / 2);
      assert (size - 1) / 2 == size / 2 - 1;
    }
  }

  /** Adding the size does not change the masked value. */
  lemma {:induction false} MaskNextLap(x: nat, size: nat)
    requires IsPowerOfTwo(size)
    ensures And(x + size, size - 1) == And(x, size - 1)
  {
    if size > 1 {
      MaskNextLap(x / 2, size / 2);
      assert (size - 1) / 2 == size / 2 - 1;
      assert (x + size) / 2 == x / 2 + size / 2;
    }
  }

  /** Different numbers with the same masked value are at least `size` apart. */
  lemma {:induction false} MaskFarApart(t: nat, u: nat, size: nat)
    requires IsPowerOfTwo(size) && t < u && And(t, size - 1) == And(u, size - 1)
    ensures t + size <= u
  {
    if size > 1 {
      assert (size - 1) / 2 == size / 2 - 1;
      assert And(t, size - 1) == 2 * And(t / 2, size / 2 - 1) + t % 2;
      assert And(u, size - 1) == 2 * And(u / 2, size / 2 - 1) + u % 2;
      MaskFarApart(t / 2, u / 2, size / 2);
    }
  }
}
