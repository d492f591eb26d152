/** Going round: the slots of a hash table and the replicas of a slice. */
module Rings {
  import opened Bits

  /** The slot `k` steps after the one where `h` starts.  A hash table's size is a power of two, so that
      masking a hash is taking a remainder. */
  function Slot(n: nat, h: nat, k: nat): (i: nat)
    requires n > 0
    ensures i < n
  {
    (h + k) % n
  }

  lemma SlotNext(n: nat, h: nat, k: nat)
    requires n > 0
    ensures Slot(n, h, k + 1) == (Slot(n, h, k) + 1) % n
  {
    DivMod(h + k, n);
    var q, r := (h + k) / n, (h + k) % n;
    if r + 1 < n {
      DivModUnique(r + 1, q, n);
      SmallRemainder(r + 1, n);
    } else {
      assert h + k + 1 == 0 + (q + 1) * n;
      DivModUnique(0, q + 1, n);
      DivModUnique(0, 1, n);
    }
  }

  lemma SmallRemainder(x: nat, n: nat)
    requires x < n
    ensures x % n == x
  {
  }

  /** Every slot is reached from any start. */
  lemma SlotReached(n: nat, h: nat, e: nat) returns (k: nat)
    requires e < n
    ensures k < n && Slot(n, h, k) == e
  {
    DivMod(h, n);
    var q, r := h / n, h % n;
    if e >= r {
      k := e - r;
      assert h + k == e + q * n;
      DivModUnique(e, q, n);
    } else {
      k := e + n - r;
      assert h + k == e + (q + 1) * n;
      DivModUnique(e, q + 1, n);
    }
  }

  lemma FirstSlot(n: nat, h: nat)
    requires n > 0
    ensures Slot(n, h, 0) == h % n
  {
  }
}
