/** The rolling latency histogram of broker/HybridSearch.Broker/Shards/LatencyTracker.cs. */
module LatencyTracker {
  import opened Wrappers
  import opened Bits
  import opened Counting
  import opened Numbers

  const LINEAR_BUCKETS: nat := 64
  const MAX_EXPONENT: nat := 26
  const BUCKET_COUNT: nat := 704

  // ---------------------------------------------------------------------------------------------
  // Buckets
  // ---------------------------------------------------------------------------------------------

  function BucketOf(micros: int): (b: nat)
    ensures b < BUCKET_COUNT
  {
    if micros < 0 then 0
    else if micros < LINEAR_BUCKETS then micros
    else
      var exp := BitsNeeded(micros) - 1;
      Exponent(micros);
      if exp >= MAX_EXPONENT then BUCKET_COUNT - 1
      else
        var sub := Shr(micros, exp - 5) % 32;
        LINEAR_BUCKETS + (exp - 6) * 32 + sub
  }

  function BucketUpperMicros(bucket: nat): nat {
    if bucket < LINEAR_BUCKETS then bucket
    else
      var rel := bucket - LINEAR_BUCKETS;
      var exp, sub := rel / 32 + 6, rel % 32;
      Pow2(exp) + (sub + 1) * Pow2(exp - 5)
  }

  lemma Exponent(x: nat)
    requires x >= LINEAR_BUCKETS
    ensures var e := BitsNeeded(x) - 1; e >= 6 && Pow2(e) <= x < Pow2(e + 1)
  {
    hide BitsNeeded, Pow2;
    BitsNeededBound(x);
    Pow2At6();
    if BitsNeeded(x) <= 6 {
      Pow2Monotone(BitsNeeded(x), 6);
    }
    if x < Pow2(BitsNeeded(x) - 1) {
      BitsNeededLeast(x, BitsNeeded(x) - 1);
    }
  }

  /** Where a value above the exact range stands: in the `q`-th piece of width Pow2(e - 5), counted from 0,
      of which the values with exponent `e` have those from 32 to 63. */
  ghost predicate Stands(x: nat, e: nat, q: nat) {
    && 6 <= e && 32 <= q < 64
    && q * Pow2(e - 5) <= x < (q + 1) * Pow2(e - 5)
    && Pow2(e) == 32 * Pow2(e - 5) <= x < Pow2(e + 1)
  }

  lemma StandsAt(x: nat) returns (e: nat, q: nat)
    requires x >= LINEAR_BUCKETS
    ensures Stands(x, e, q)
    ensures BucketOf(x) == if e >= MAX_EXPONENT then BUCKET_COUNT - 1 else 32 * (e - 5) + q
    ensures x < 0x400_0000 ==> e < MAX_EXPONENT
  {
    hide BitsNeeded, Pow2;
    Exponent(x);
    e := BitsNeeded(x) - 1;
    Widths(e);
    q := Shr(x, e - 5);
    Piece(x, Pow2(e - 5), q, e);
    if e >= MAX_EXPONENT {
      Pow2Monotone(26, e);
      Pow2At26();
    }
  }

  lemma Widths(e: nat)
    requires e >= 6
    ensures Pow2(e) == 32 * Pow2(e - 5) && Pow2(e + 1) == 64 * Pow2(e - 5)
  {
    Pow2Add(5, e - 5);
    assert Pow2(5) == 32;
    assert Pow2(e + 1) == 2 * Pow2(e);
  }

  lemma Pow2At6()
    ensures Pow2(6) == 64
  {
  }

  lemma Pow2At26()
    ensures Pow2(26) == 0x400_0000
  {
    Pow2Add(13, 13);
    assert Pow2(13) == 0x2000;
  }

  lemma Piece(x: nat, w: nat, q: nat, e: nat)
    requires w > 0 && q == x / w && 32 * w <= x < 64 * w
    ensures 32 <= q < 64 && q * w <= x < (q + 1) * w && q % 32 == q - 32
  {
    DivMod(x, w);
    Next(q, w);
    if q < 32 {
      MulMonotone(q + 1, 32, w);
    }
    if q >= 64 {
      MulMonotone(64, q, w);
    }
  }

  lemma Next(q: nat, w: nat)
    ensures (q + 1) * w == q * w + w
  {
  }

  /** Buckets keep the order of the values, negative ones and those beyond the last bucket included. */
  lemma BucketMonotone(x: int, y: int)
    requires x <= y
    ensures BucketOf(x) <= BucketOf(y)
  {
    hide BucketOf, BitsNeeded, Shr, Pow2;
    if x < LINEAR_BUCKETS {
      SmallBucket(x);
      if y < LINEAR_BUCKETS {
        SmallBucket(y);
      } else {
        var e, q := StandsAt(y);
      }
    } else {
      var e, q := StandsAt(x);
      var f, r := StandsAt(y);
      SameOrLess(x, y, e, q, f, r);
    }
  }

  lemma SmallBucket(x: int)
    requires x < LINEAR_BUCKETS
    ensures BucketOf(x) == if x < 0 then 0 else x
  {
  }

  lemma SameOrLess(x: nat, y: nat, e: nat, q: nat, f: nat, r: nat)
    requires x <= y && Stands(x, e, q) && Stands(y, f, r)
    ensures e < f || (e == f && q <= r)
  {
    hide Pow2;
    if f < e {
      Pow2Monotone(f + 1, e);
    }
    if e == f && r < q {
      MulMonotone(r + 1, q, Pow2(e - 5));
    }
  }

  /** A bucket's upper edge is at least every value in it, and at most 1/32 above it; below 64 it is the
      value. */
  lemma EdgeBrackets(x: nat)
    requires x < 0x400_0000
    ensures x <= BucketUpperMicros(BucketOf(x)) && 32 * (BucketUpperMicros(BucketOf(x)) - x) <= x
    ensures x < LINEAR_BUCKETS ==> BucketUpperMicros(BucketOf(x)) == x
  {
    hide BucketOf, BitsNeeded, Shr, Pow2;
    if x < LINEAR_BUCKETS {
      SmallBucket(x);
    } else {
      var e, q := StandsAt(x);
      var w := Pow2(e - 5);
      assert BucketOf(x) - LINEAR_BUCKETS == 32 * (e - 6) + (q - 32);
      assert (BucketOf(x) - LINEAR_BUCKETS) / 32 == e - 6 && (BucketOf(x) - LINEAR_BUCKETS) % 32 == q - 32;
      UpperAt(e, q, w);
      Next(q, w);
    }
  }

  lemma UpperAt(e: nat, q: nat, w: nat)
    requires 6 <= e && 32 <= q < 64
    ensures 32 * w + (q - 32 + 1) * w == (q + 1) * w
  {
  }

  // ---------------------------------------------------------------------------------------------
  // Quantiles
  // ---------------------------------------------------------------------------------------------

  ghost function AtMost(x: int): int -> bool {
    (s: int) => s <= x
  }

  ghost function Below(x: int): int -> bool {
    (s: int) => s < x
  }

  ghost function UpTo(b: int): int -> bool {
    (s: int) => BucketOf(s) <= b
  }

  ghost function In(b: nat): int -> bool {
    (s: int) => BucketOf(s) == b
  }

  /** `x` is the sample of rank `rank`, counted from 1, of `live` in ascending order. */
  ghost predicate HasRank(live: seq<int>, rank: nat, x: int) {
    x in live && Count(live, Below(x)) < rank <= Count(live, AtMost(x))
  }

  /** There is a sample of every rank. */
  lemma {:induction false} RankExists(live: seq<int>, rank: nat, x: int) returns (y: int)
    requires 1 <= rank && x in live && rank <= Count(live, AtMost(x))
    ensures HasRank(live, rank, y)
    decreases Count(live, AtMost(x))
  {
    var below := Count(live, Below(x));
    if below < rank {
      y := x;
    } else {
      var z := LargestBelow(live, x);
      CountSame(live, Below(x), AtMost(z));
      CountLess(live, x);
      y := RankExists(live, rank, z);
    }
  }

  lemma CountLess(live: seq<int>, x: int)
    requires x in live
    ensures Count(live, Below(x)) < Count(live, AtMost(x))
  {
    var same: int -> bool := s => s == x;
    CountSplit(live, AtMost(x), Below(x), same);
    CountHas(live, same, x);
  }

  lemma {:induction false} LargestBelow(live: seq<int>, x: int) returns (z: int)
    requires Count(live, Below(x)) > 0
    ensures z in live && z < x && forall s :: s in live && s < x ==> s <= z
  {
    var n := |live| - 1;
    assert live == live[..n] + [live[n]];
    if Count(live[..n], Below(x)) > 0 {
      z := LargestBelow(live[..n], x);
      if z < live[n] < x {
        z := live[n];
      }
    } else {
      z := live[n];
      CountZero(live[..n], Below(x));
      assert forall s :: s in live[..n] ==> !Below(x)(s);
    }
  }

  lemma {:induction false} Largest(live: seq<int>) returns (z: int)
    requires live != []
    ensures z in live && forall s :: s in live ==> s <= z
  {
    var n := |live| - 1;
    assert live == live[..n] + [live[n]];
    z := live[n];
    if n > 0 {
      var y := Largest(live[..n]);
      if y > z {
        z := y;
      }
    }
  }

  /** Exactly one value has a given rank. */
  lemma RankUnique(live: seq<int>, rank: nat) returns (y: int)
    requires 1 <= rank <= |live|
    ensures HasRank(live, rank, y) && forall z :: HasRank(live, rank, z) ==> z == y
  {
    hide Count;
    var m := Largest(live);
    CountAll(live, AtMost(m));
    y := RankExists(live, rank, m);
    forall z | HasRank(live, rank, z) ensures z == y {
      RankOrder(live, rank, y, z);
      RankOrder(live, rank, z, y);
    }
  }

  lemma RankOrder(live: seq<int>, rank: nat, y: int, z: int)
    requires HasRank(live, rank, y) && HasRank(live, rank, z)
    ensures y <= z
  {
    hide Count;
    if z < y {
      CountMore(live, AtMost(z), Below(y));
    }
  }

  /** The first bucket whose cumulative count reaches a rank is the bucket of the sample of that rank. */
  lemma BucketOfRank(live: seq<int>, rank: nat, b: nat, x: int)
    requires HasRank(live, rank, x)
    requires Count(live, UpTo(b)) >= rank && (b > 0 ==> Count(live, UpTo(b - 1)) < rank)
    ensures BucketOf(x) == b
  {
    hide BucketOf, Count;
    var c := BucketOf(x);
    if c < b {
      forall s | s in live && AtMost(x)(s) ensures UpTo(b - 1)(s) {
        BucketMonotone(s, x);
      }
      CountMore(live, AtMost(x), UpTo(b - 1));
    }
    if c > b {
      forall s | s in live && UpTo(b)(s) ensures Below(x)(s) {
        if x <= s {
          BucketMonotone(x, s);
        }
      }
      CountMore(live, UpTo(b), Below(x));
    }
  }

  /** What Quantile promises of its value. */
  ghost predicate Brackets(value: nat, x: int) {
    if x < 0 then value == 0
    else if x < LINEAR_BUCKETS then value == x
    else if x < 0x400_0000 then x <= value && 32 * (value - x) <= x
    else value == BucketUpperMicros(BUCKET_COUNT - 1)
  }

  lemma RankBracketed(live: seq<int>, rank: nat, b: nat)
    requires b < BUCKET_COUNT && Count(live, UpTo(b)) >= rank && (b > 0 ==> Count(live, UpTo(b - 1)) < rank)
    ensures forall x :: HasRank(live, rank, x) ==> Brackets(BucketUpperMicros(b), x)
  {
    hide BucketOf, Count, BucketUpperMicros;
    forall x | HasRank(live, rank, x) ensures Brackets(BucketUpperMicros(b), x) {
      BucketOfRank(live, rank, b, x);
      if x < 0 {
        SmallBucket(x);
        FirstEdge();
      } else if x < 0x400_0000 {
        EdgeBrackets(x);
      } else {
        LastBucket(x);
      }
    }
  }

  lemma FirstEdge()
    ensures BucketUpperMicros(0) == 0
  {
  }

  lemma LastBucket(x: nat)
    requires x >= 0x400_0000
    ensures BucketOf(x) == BUCKET_COUNT - 1
  {
    hide BucketOf, BitsNeeded, Shr, Pow2;
    var e, q := StandsAt(x);
    Pow2At26();
    if e < MAX_EXPONENT {
      Pow2Monotone(e + 1, 26);
    }
  }

  // ---------------------------------------------------------------------------------------------
  // The rolling window
  // ---------------------------------------------------------------------------------------------

  datatype Sample = Sample(epoch: nat, micros: int)

  datatype Slot = Slot(epoch: int, counts: seq<nat>)

  ghost function Falls(epoch: int, b: nat): Sample -> bool {
    (s: Sample) => s.epoch == epoch && BucketOf(s.micros) == b
  }

  /** The values recorded in epoch `from` or later. */
  ghost function Since(log: seq<Sample>, from: int): seq<int> {
    if log == [] then []
    else
      var n := |log| - 1;
      Since(log[..n], from) + if log[n].epoch >= from then [log[n].micros] else []
  }

  /** Samples of the window that fall in a bucket and whose slot is among the first `j`. */
  ghost function Merged(from: int, n: nat, j: nat, b: nat): Sample -> bool
    requires n > 0
  {
    (s: Sample) => s.epoch >= from && s.epoch % n < j && BucketOf(s.micros) == b
  }

  /** A slot holds the counts of its epoch, the latest that fell to it. */
  ghost predicate SlotOk(slot: Slot, n: nat, j: nat, log: seq<Sample>, last: nat)
    requires n > 0
  {
    && |slot.counts| == BUCKET_COUNT && -1 <= slot.epoch <= last && (slot.epoch >= 0 ==> slot.epoch % n == j)
    && (forall b: nat :: b < BUCKET_COUNT ==> slot.counts[b] == Count(log, Falls(slot.epoch, b)))
    && (forall s :: s in log && s.epoch % n == j ==> s.epoch <= slot.epoch)
  }

  /** A slot whose epoch is out of the window, or that was never used, holds nothing of the window; a live
      one holds all that its epochs of the window have. */
  lemma SlotOfWindow(slot: Slot, n: nat, j: nat, log: seq<Sample>, last: nat, current: nat, s: Sample)
    requires n > 0 && SlotOk(slot, n, j, log, last) && last <= current && s in log && s.epoch % n == j
    ensures s.epoch >= current - n + 1 ==> slot.epoch >= 0 && current - slot.epoch < n && s.epoch == slot.epoch
    ensures slot.epoch >= 0 && current - slot.epoch < n && s.epoch == slot.epoch ==> s.epoch >= current - n + 1
  {
    if s.epoch >= current - n + 1 && s.epoch < slot.epoch {
      SameRemainder(s.epoch, slot.epoch, n);
    }
  }

  lemma SameRemainder(a: nat, b: nat, n: nat)
    requires n > 0 && a % n == b % n && a < b
    ensures b - a >= n
  {
    DivMod(a, n);
    DivMod(b, n);
    var p, q, r := a / n, b / n, a % n;
    assert b - a == q * n - p * n;
    Difference(p, q, n);
  }

  lemma Difference(p: nat, q: nat, n: nat)
    requires p * n < q * n
    ensures q * n - p * n >= n
  {
    if q <= p {
      MulMonotone(q, p, n);
    } else {
      Next(p, n);
      MulMonotone(p + 1, q, n);
    }
  }

  /** Adding a slot's counts extends the merge to that slot. */
  lemma MergeSlot(slot: Slot, n: nat, j: nat, log: seq<Sample>, last: nat, current: nat, b: nat)
    requires j < n && SlotOk(slot, n, j, log, last) && last <= current && b < BUCKET_COUNT
    ensures Count(log, Merged(current - n + 1, n, j + 1, b))
         == Count(log, Merged(current - n + 1, n, j, b))
            + if slot.epoch >= 0 && current - slot.epoch < n then slot.counts[b] else 0
  {
    hide BucketOf, Count;
    var from := current - n + 1;
    var live := slot.epoch >= 0 && current - slot.epoch < n;
    var here: Sample -> bool := s => live && Falls(slot.epoch, b)(s);
    forall s | s in log
      ensures (Merged(from, n, j + 1, b)(s) <==> Merged(from, n, j, b)(s) || here(s))
      ensures !(Merged(from, n, j, b)(s) && here(s))
    {
      if s.epoch % n == j {
        SlotOfWindow(slot, n, j, log, last, current, s);
      }
    }
    CountSplit(log, Merged(from, n, j + 1, b), Merged(from, n, j, b), here);
    if live {
      CountSame(log, here, Falls(slot.epoch, b));
    } else {
      CountNone(log, here);
    }
  }

  /** The merge of all slots counts the window's values. */
  lemma {:induction false} MergedIsLive(log: seq<Sample>, from: int, n: nat, b: nat)
    requires n > 0
    ensures Count(log, Merged(from, n, n, b)) == Count(Since(log, from), In(b))
  {
    hide BucketOf;
    if log != [] {
      var s := log[|log| - 1];
      var before := Since(log[..|log| - 1], from);
      MergedIsLive(log[..|log| - 1], from, n, b);
      CountNext(before, s.micros, In(b));
      assert before + [] == before;
    }
  }

  lemma UpToNext(live: seq<int>, b: nat)
    ensures Count(live, UpTo(b)) == (if b > 0 then Count(live, UpTo(b - 1)) else 0) + Count(live, In(b))
  {
    hide BucketOf, Count;
    if b > 0 {
      CountSplit(live, UpTo(b), UpTo(b - 1), In(b));
    } else {
      CountSame(live, UpTo(b), In(b));
    }
  }

  const TWO53: nat := 9007199254740992

  /** Rounding to double: monotone, and exact on the counts. */
  ghost predicate DoubleRounding(rd: real -> real) {
    (forall x: real, y: real :: x <= y ==> rd(x) <= rd(y)) && (forall n: nat :: n <= TWO53 ==> Keeps(rd, n))
  }

  ghost predicate Keeps(rd: real -> real, n: nat) {
    rd(n as real) == n as real
  }

  /** The ceiling of q * total, computed in double, and at least 1. */
  function RankOf(rd: real -> real, q: real, total: nat): nat {
    var up := -(-rd(q * total as real)).Floor;
    if up < 1 then 1 else up
  }

  /** The least rank, from one on, that the rounded product does not exceed. */
  ghost predicate IsRank(rd: real -> real, q: real, total: nat, rank: nat) {
    rank >= 1 && rd(q * total as real) <= rank as real && (rank > 1 ==> rd(q * total as real) > rank as real - 1.0)
  }

  lemma RankIsCeiling(rd: real -> real, q: real, total: nat)
    ensures IsRank(rd, q, total, RankOf(rd, q, total))
  {
  }

  lemma RankInRange(rd: real -> real, q: real, total: nat)
    requires DoubleRounding(rd) && 0.0 < q <= 1.0 && 0 < total <= TWO53
    ensures 1 <= RankOf(rd, q, total) <= total
  {
    ProductBounds(q, total as real);
    assert Keeps(rd, total);
    assert rd(q * total as real) <= rd(total as real) == total as real;
  }

  lemma ProductBounds(q: real, t: real)
    requires 0.0 < q <= 1.0 && t > 0.0
    ensures 0.0 < q * t <= t
  {
  }

  lemma {:induction false} SinceSize(log: seq<Sample>, from: int)
    ensures |Since(log, from)| <= |log|
  {
    if log != [] {
      SinceSize(log[..|log| - 1], from);
    }
  }

  class Tracker {
    const slotTicks: nat
    var slots: seq<Slot>
    ghost var log: seq<Sample>
    ghost var last: nat

    ghost predicate Valid()
      reads this
      ensures Valid() ==> slotTicks > 0 && |slots| >= 2
    {
      && slotTicks > 0 && |slots| >= 2
      && (forall j :: 0 <= j < |slots| ==> SlotOk(slots[j], |slots|, j, log, last))
      && (forall s :: s in log ==> s.epoch <= last)
    }

    constructor (slotTicks: nat, n: nat)
      requires slotTicks > 0 && n >= 2
      ensures Valid() && |slots| == n && log == [] && last == 0 && this.slotTicks == slotTicks
    {
      this.slotTicks := slotTicks;
      slots := seq(n, _ => Slot(-1, seq(BUCKET_COUNT, _ => 0)));
      log, last := [], 0;
    }

    /** RecordMicros at a time not before the last one. */
    method RecordMicros(now: nat, micros: int)
      requires Valid() && last <= now / slotTicks
      modifies this
      ensures Valid() && |slots| == |old(slots)| && last == now / slotTicks
      ensures log == old(log) + [Sample(now / slotTicks, micros)]
    {
      hide BucketOf, Count;
      var epoch := now / slotTicks;
      var n := |slots|;
      var j := epoch % n;
      var slot := slots[j];
      if slot.epoch != epoch {
        slot := Slot(epoch, seq(BUCKET_COUNT, _ => 0));
      }
      var b := BucketOf(micros);
      slot := slot.(counts := slot.counts[b := slot.counts[b] + 1]);
      forall i | 0 <= i < n
        ensures SlotOk(if i == j then slot else slots[i], n, i, log + [Sample(epoch, micros)], epoch)
      {
        SlotAfter(slots[i], n, i, log, last, Sample(epoch, micros));
      }
      slots := slots[j := slot];
      log, last := log + [Sample(epoch, micros)], epoch;
    }

    /** The counts of all live slots together. */
    method Merge(current: nat) returns (merged: seq<nat>, total: nat)
      requires Valid() && last <= current
      ensures |merged| == BUCKET_COUNT && total == |Since(log, current - |slots| + 1)|
      ensures forall b: nat :: b < BUCKET_COUNT ==> merged[b] == Count(Since(log, current - |slots| + 1), In(b))
    {
      hide BucketOf, Count, SlotOk;
      var n := |slots|;
      ghost var from := current - n + 1;
      merged := seq(BUCKET_COUNT, _ => 0);
      forall b: nat ensures Count(log, Merged(from, n, 0, b)) == 0 {
        CountNone(log, Merged(from, n, 0, b));
      }
      for j := 0 to n
        invariant |merged| == BUCKET_COUNT
        invariant forall b: nat :: b < BUCKET_COUNT ==> merged[b] == Count(log, Merged(from, n, j, b))
      {
        var e := slots[j].epoch;
        CountsSize(slots[j], n, j, log, last);
        forall b: nat | b < BUCKET_COUNT
          ensures Count(log, Merged(from, n, j + 1, b))
               == merged[b] + if e >= 0 && current - e < n then slots[j].counts[b] else 0
        {
          MergeSlot(slots[j], n, j, log, last, current, b);
        }
        if e >= 0 && current - e < n {
          merged := Added(merged, slots[j].counts);
        }
      }
      forall b: nat | b < BUCKET_COUNT ensures merged[b] == Count(Since(log, from), In(b)) {
        MergedIsLive(log, from, n, b);
      }
      total := Sum(merged, Since(log, from));
    }

    /** Quantile: None if too few samples are in the window, and otherwise the upper edge of the bucket of
        the nearest-rank quantile of exactly the samples of the last epochs. */
    method Quantile(rd: real -> real, now: nat, q: real, minSamples: nat) returns (value: Option<nat>)
      requires Valid() && last <= now / slotTicks && 0.0 < q <= 1.0 && DoubleRounding(rd) && |log| <= TWO53
      ensures var live := Since(log, now / slotTicks - |slots| + 1);
              && (value.None? <==> |live| == 0 || |live| < minSamples)
              && (value.Some? ==> exists rank: nat, x ::
                    IsRank(rd, q, |live|, rank) && HasRank(live, rank, x) && Brackets(value.value, x))
    {
      hide BucketOf, Count, HasRank, Brackets, BucketUpperMicros, RankOf, IsRank, Since, SlotOk;
      var merged, total := Merge(now / slotTicks);
      if total == 0 || total < minSamples {
        return None;
      }
      var rank := RankOf(rd, q, total);
      SinceSize(log, now / slotTicks - |slots| + 1);
      RankInRange(rd, q, total);
      RankIsCeiling(rd, q, total);
      var b := FirstReaching(merged, rank, Since(log, now / slotTicks - |slots| + 1));
      RankBracketed(Since(log, now / slotTicks - |slots| + 1), rank, b);
      value := Some(BucketUpperMicros(b));
      ghost var x := RankUnique(Since(log, now / slotTicks - |slots| + 1), rank);
    }
  }

  lemma CountsSize(slot: Slot, n: nat, j: nat, log: seq<Sample>, last: nat)
    requires n > 0 && SlotOk(slot, n, j, log, last)
    ensures |slot.counts| == BUCKET_COUNT
  {
  }

  method Added(a: seq<nat>, b: seq<nat>) returns (c: seq<nat>)
    requires |a| == |b|
    ensures |c| == |a| && forall i :: 0 <= i < |c| ==> c[i] == a[i] + b[i]
  {
    c := [];
    for i := 0 to |a|
      invariant |c| == i && forall k :: 0 <= k < i ==> c[k] == a[k] + b[k]
    {
      c := c + [a[i] + b[i]];
    }
  }

  method Sum(merged: seq<nat>, ghost live: seq<int>) returns (total: nat)
    requires |merged| == BUCKET_COUNT && forall b: nat :: b < BUCKET_COUNT ==> merged[b] == Count(live, In(b))
    ensures total == |live|
  {
    hide BucketOf, Count;
    total := 0;
    for b := 0 to BUCKET_COUNT
      invariant total == if b > 0 then Count(live, UpTo(b - 1)) else 0
    {
      UpToNext(live, b);
      total := total + merged[b];
    }
    CountAll(live, UpTo(BUCKET_COUNT - 1));
  }

  method FirstReaching(merged: seq<nat>, rank: nat, ghost live: seq<int>) returns (b: nat)
    requires |merged| == BUCKET_COUNT && forall b: nat :: b < BUCKET_COUNT ==> merged[b] == Count(live, In(b))
    requires 1 <= rank <= |live|
    ensures b < BUCKET_COUNT && Count(live, UpTo(b)) >= rank && (b > 0 ==> Count(live, UpTo(b - 1)) < rank)
  {
    hide BucketOf, Count;
    var cum: nat := 0;
    b := 0;
    CountAll(live, UpTo(BUCKET_COUNT - 1));
    while true
      invariant b < BUCKET_COUNT
      invariant cum == if b > 0 then Count(live, UpTo(b - 1)) else 0
      invariant cum < rank
      decreases BUCKET_COUNT - b
    {
      UpToNext(live, b);
      cum := cum + merged[b];
      if cum >= rank {
        return;
      }
      b := b + 1;
    }
  }

  /** What a recording does to each slot. */
  lemma SlotAfter(slot: Slot, n: nat, i: nat, log: seq<Sample>, last: nat, s: Sample)
    requires n > 0 && i < n && SlotOk(slot, n, i, log, last) && last <= s.epoch
    requires forall x :: x in log ==> x.epoch <= last
    ensures s.epoch % n != i ==> SlotOk(slot, n, i, log + [s], s.epoch)
    ensures s.epoch % n == i ==>
              var base := if slot.epoch == s.epoch then slot.counts else seq(BUCKET_COUNT, _ => 0);
              SlotOk(Slot(s.epoch, base[BucketOf(s.micros) := base[BucketOf(s.micros)] + 1]), n, i, log + [s], s.epoch)
  {
    hide BucketOf, Count;
    var e := if s.epoch % n == i then s.epoch else slot.epoch;
    forall b: nat | b < BUCKET_COUNT
      ensures Count(log + [s], Falls(e, b)) == Count(log, Falls(e, b)) + if Falls(e, b)(s) then 1 else 0
    {
      CountNext(log, s, Falls(e, b));
    }
    if s.epoch % n == i && slot.epoch != s.epoch {
      forall b: nat | b < BUCKET_COUNT ensures Count(log, Falls(e, b)) == 0 {
        forall x | x in log ensures !Falls(e, b)(x) {
        }
        CountNone(log, Falls(e, b));
      }
    }
  }
}
