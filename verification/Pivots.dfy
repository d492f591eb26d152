/** Why the pivots of run_wand (engine/src/lexical/search.cc) never fall, though double addition is not
    associative: the lists that have not reached the pivot keep their order from one iteration to the next,
    and a rounded sum of some of them, in that order, is at most the rounded sum of all of them. */
module Pivots {
  import opened Rounding
  import opened Ranking
  import opened Scoring
  import opened Sequences
  import opened MaxScore

  // ---------------------------------------------------------------------------------------------
  // Rounded sums
  // ---------------------------------------------------------------------------------------------

  /** The rounded sum of `v` at the first `i` listed terms. */
  ghost function RoundedSum(m: Arithmetic, v: seq<real>, tix: seq<nat>, i: nat): real
    requires i <= |tix| && forall j :: 0 <= j < |tix| ==> tix[j] < |v|
  {
    if i == 0 then 0.0 else m.rd(RoundedSum(m, v, tix, i - 1) + v[tix[i - 1]])
  }

  ghost predicate Amounts(v: seq<real>) {
    forall t :: 0 <= t < |v| ==> v[t] >= 0.0
  }

  lemma RoundZero(m: Arithmetic)
    requires Ieee(m)
    ensures m.rd(0.0) == 0.0
  {
    assert (1.0 - EPS) * 0.0 <= m.rd(0.0) <= (1.0 + EPS) * 0.0;
  }

  lemma RoundPositive(m: Arithmetic, x: real)
    requires Ieee(m) && x >= 0.0
    ensures m.rd(x) >= 0.0
  {
    assert (1.0 - EPS) * x <= m.rd(x);
  }

  lemma AddMonotone(m: Arithmetic, x: real, y: real, u: real)
    requires Ieee(m) && 0.0 <= x <= y && 0.0 <= u
    ensures m.rd(x + u) <= m.rd(y + u)
  {
  }

  /** A rounded sum is one of the numbers that rounding leaves alone. */
  lemma {:induction false} SumIsRounded(m: Arithmetic, v: seq<real>, tix: seq<nat>, i: nat)
    requires Ieee(m) && Amounts(v) && i <= |tix| && forall j :: 0 <= j < |tix| ==> tix[j] < |v|
    ensures RoundedSum(m, v, tix, i) >= 0.0 && m.rd(RoundedSum(m, v, tix, i)) == RoundedSum(m, v, tix, i)
  {
    if i == 0 {
      RoundZero(m);
    } else {
      SumIsRounded(m, v, tix, i - 1);
      RoundPositive(m, RoundedSum(m, v, tix, i - 1) + v[tix[i - 1]]);
    }
  }

  lemma AddRises(m: Arithmetic, x: real, u: real)
    requires Ieee(m) && 0.0 <= x && 0.0 <= u && m.rd(x) == x
    ensures x <= m.rd(x + u)
  {
    assert m.rd(x) <= m.rd(x + u);
  }

  /** One more term never lowers a rounded sum. */
  lemma {:induction false} SumRises(m: Arithmetic, v: seq<real>, tix: seq<nat>, i: nat, j: nat)
    requires Ieee(m) && Amounts(v) && i <= j <= |tix| && forall j :: 0 <= j < |tix| ==> tix[j] < |v|
    ensures RoundedSum(m, v, tix, i) <= RoundedSum(m, v, tix, j)
    decreases j
  {
    hide Ieee;
    if i < j {
      SumRises(m, v, tix, i, j - 1);
      SumIsRounded(m, v, tix, j - 1);
      AddRises(m, RoundedSum(m, v, tix, j - 1), v[tix[j - 1]]);
    }
  }

  lemma {:induction false} RoundedAgrees(m: Arithmetic, v: seq<real>, w: seq<real>, tix: seq<nat>, i: nat)
    requires i <= |tix| && |v| == |w| && (forall j :: 0 <= j < |tix| ==> tix[j] < |v|)
    requires forall j :: 0 <= j < i ==> v[tix[j]] == w[tix[j]]
    ensures RoundedSum(m, v, tix, i) == RoundedSum(m, w, tix, i)
  {
    if i > 0 {
      RoundedAgrees(m, v, w, tix, i - 1);
    }
  }

  /** The first `n` terms of `tix` are some of the first `p` terms of `tix0`, in their order. */
  ghost predicate PartOf(tix: seq<nat>, n: nat, tix0: seq<nat>, p: nat, from: seq<nat>) {
    && n <= |from| && n <= |tix| && p <= |tix0|
    && (forall a :: 0 <= a < n ==> from[a] < p && tix[a] == tix0[from[a]])
    && (forall a, b :: 0 <= a < b < n ==> from[a] < from[b])
  }

  /** Leaving out terms never raises a rounded sum. */
  lemma {:induction false} PartSum(m: Arithmetic, v: seq<real>, tix: seq<nat>, n: nat, tix0: seq<nat>, p: nat,
                                   from: seq<nat>)
    requires Ieee(m) && Amounts(v) && PartOf(tix, n, tix0, p, from)
    requires (forall j :: 0 <= j < |tix| ==> tix[j] < |v|) && (forall j :: 0 <= j < |tix0| ==> tix0[j] < |v|)
    ensures RoundedSum(m, v, tix, n) <= RoundedSum(m, v, tix0, p)
    decreases n
  {
    hide Ieee;
    if n == 0 {
      SumIsRounded(m, v, tix0, p);
    } else {
      var last := from[n - 1];
      PartSum(m, v, tix, n - 1, tix0, last, from);
      SumIsRounded(m, v, tix, n - 1);
      AddMonotone(m, RoundedSum(m, v, tix, n - 1), RoundedSum(m, v, tix0, last), v[tix0[last]]);
      SumRises(m, v, tix0, last + 1, p);
    }
  }

  // ---------------------------------------------------------------------------------------------
  // The threshold
  // ---------------------------------------------------------------------------------------------

  /** The threshold did not fall. */
  ghost predicate Raised(heap: seq<ScoredDoc>, heap': seq<ScoredDoc>, k: nat)
    requires 0 < k
  {
    |heap| >= k ==> |heap'| >= k && heap[|heap| - 1].score <= heap'[|heap'| - 1].score
  }

  lemma OfferRaises(heap: seq<ScoredDoc>, k: nat, x: ScoredDoc)
    requires 0 < k && Ranked(heap) && |heap| <= k
    ensures Raised(heap, Offer(heap, k, x), k)
  {
    if |heap| == k {
      ThresholdRises(heap, k, x);
    }
  }

  /** What is no larger cannot beat the list either, nor what the list becomes. */
  lemma LessCannotBeat(m: Arithmetic, heap: seq<ScoredDoc>, heap': seq<ScoredDoc>, k: nat, x: real, y: real)
    requires Ieee(m) && 0 < k && 0.0 <= y <= x && CannotBeat(m, heap, k, x) && Raised(heap, heap', k)
    ensures CannotBeat(m, heap', k, y)
  {
    assert 0.0 <= y * BOUND_SLACK <= x * BOUND_SLACK;
    RoundPositive(m, y * BOUND_SLACK);
    assert m.rd(y * BOUND_SLACK) <= m.rd(x * BOUND_SLACK);
  }

  // ---------------------------------------------------------------------------------------------
  // The order of the lists
  // ---------------------------------------------------------------------------------------------

  ghost predicate InDocOrder(docs: seq<nat>, tix: seq<nat>)
    requires Permutation(tix, |docs|)
  {
    forall i, j :: 0 <= i < j < |tix| ==> docs[tix[i]] <= docs[tix[j]]
  }

  /** `tix` is `tix0` sorted by document, lists on one document in the order they had: position `a` held
      what was at position `from[a]`. */
  ghost predicate ComesFrom(docs: seq<nat>, tix0: seq<nat>, tix: seq<nat>, from: seq<nat>)
    requires Permutation(tix0, |docs|) && Permutation(tix, |docs|)
  {
    && |from| == |tix|
    && (forall a :: 0 <= a < |tix| ==> from[a] < |tix0| && tix[a] == tix0[from[a]])
    && (forall a, b :: 0 <= a < b < |tix| ==>
          docs[tix[a]] < docs[tix[b]] || (docs[tix[a]] == docs[tix[b]] && from[a] < from[b]))
  }

  ghost predicate StableSort(docs: seq<nat>, tix0: seq<nat>, tix: seq<nat>)
    requires Permutation(tix0, |docs|) && Permutation(tix, |docs|)
  {
    exists from :: ComesFrom(docs, tix0, tix, from)
  }

  /** Lists either stay where they are or move to `target` or past it. */
  ghost predicate MovedTo(docs: seq<nat>, docs': seq<nat>, target: nat) {
    |docs| == |docs'| && forall t :: 0 <= t < |docs| ==> docs'[t] == docs[t] || docs'[t] >= target
  }

  /** The lists still below `target` are some of those before position `p`, in their order. */
  lemma StillBelow(docs: seq<nat>, tix0: seq<nat>, docs': seq<nat>, tix: seq<nat>, from: seq<nat>, target: nat, n: nat,
                   p: nat)
    requires Permutation(tix0, |docs|) && Permutation(tix, |docs'|) && MovedTo(docs, docs', target)
    requires InDocOrder(docs, tix0) && ComesFrom(docs', tix0, tix, from)
    requires n <= |tix| && p <= |tix0| && forall j :: p <= j < |tix0| ==> docs[tix0[j]] >= target
    requires forall a :: 0 <= a < n ==> docs'[tix[a]] < target
    ensures PartOf(tix, n, tix0, p, from)
  {
    hide Covers, Distinct;
    forall a | 0 <= a < n ensures from[a] < p && docs[tix0[from[a]]] == docs'[tix[a]] {
    }
    forall a, b | 0 <= a < b < n ensures from[a] < from[b] {
      if docs'[tix[a]] < docs'[tix[b]] {
        BeforeByDoc(docs, tix0, from[a], from[b]);
      }
    }
  }

  lemma BeforeByDoc(docs: seq<nat>, tix: seq<nat>, i: nat, j: nat)
    requires Permutation(tix, |docs|) && InDocOrder(docs, tix) && i < |tix| && j < |tix| && docs[tix[i]] < docs[tix[j]]
    ensures i < j
  {
  }

  // ---------------------------------------------------------------------------------------------
  // Term bounds: the floor under the next pivot
  // ---------------------------------------------------------------------------------------------

  /** No list below `last` can be a pivot: the bounds of the lists up to it cannot beat the list. */
  ghost predicate Floor(m: Arithmetic, q: Query, docs: seq<nat>, tix: seq<nat>, heap: seq<ScoredDoc>, k: nat, last: nat)
    requires Permutation(tix, |docs|) && |docs| == |q.terms| && 0 < k
  {
    forall j :: 0 <= j < |tix| && docs[tix[j]] < last ==>
      CannotBeat(m, heap, k, RoundedSum(m, UpperBounds(q), tix, j + 1))
  }

  /** An iteration with pivot `pivot`, at position `p`, keeps the next pivot from falling below it. */
  lemma FloorKept(m: Arithmetic, q: Query, docs: seq<nat>, tix0: seq<nat>, p: nat, pivot: nat, heap: seq<ScoredDoc>,
                  docs': seq<nat>, tix: seq<nat>, heap': seq<ScoredDoc>, k: nat)
    requires Ieee(m) && Permutation(tix0, |docs|) && Permutation(tix, |docs'|) && |docs| == |q.terms| && 0 < k
    requires Amounts(UpperBounds(q)) && InDocOrder(docs, tix0) && p < |tix0| && docs[tix0[p]] == pivot
    requires p > 0 ==> CannotBeat(m, heap, k, RoundedSum(m, UpperBounds(q), tix0, p))
    requires MovedTo(docs, docs', pivot) && StableSort(docs', tix0, tix) && Raised(heap, heap', k)
    ensures Floor(m, q, docs', tix, heap', k, pivot)
  {
    hide Covers, Distinct, CannotBeat, Ieee, RoundedSum, Raised;
    var from :| ComesFrom(docs', tix0, tix, from);
    var v := UpperBounds(q);
    forall j | 0 <= j < |tix| && docs'[tix[j]] < pivot ensures CannotBeat(m, heap', k, RoundedSum(m, v, tix, j + 1)) {
      forall a | 0 <= a < j + 1 ensures docs'[tix[a]] < pivot {
        assert a < j ==> docs'[tix[a]] <= docs'[tix[j]];
      }
      StillBelow(docs, tix0, docs', tix, from, pivot, j + 1, p);
      PartSum(m, v, tix, j + 1, tix0, p, from);
      SumIsRounded(m, v, tix, j + 1);
      assert from[j] < p;
      LessCannotBeat(m, heap, heap', k, RoundedSum(m, v, tix0, p), RoundedSum(m, v, tix, j + 1));
    }
  }

  // ---------------------------------------------------------------------------------------------
  // Block bounds: what a skip leaves behind its target
  // ---------------------------------------------------------------------------------------------

  /** After a skip with pivot `last` to document `f`: the first `n` lists are still at or before the pivot, in
      blocks that reach `f`, and their block bounds `v` cannot beat the list; the others have reached `f`. */
  ghost predicate Blocked(m: Arithmetic, v: seq<real>, docs: seq<nat>, lasts: seq<nat>, tix: seq<nat>,
                          heap: seq<ScoredDoc>, k: nat, last: nat, f: nat, n: nat)
    requires Permutation(tix, |docs|) && |docs| == |v| == |lasts| && 0 < k
  {
    && n <= |tix| && (forall j :: 0 <= j < n ==> docs[tix[j]] <= last)
    && (forall j :: 0 <= j < n ==> lasts[tix[j]] >= last && f <= lasts[tix[j]] + 1)
    && (forall j :: n <= j < |tix| ==> docs[tix[j]] >= f)
    && (n > 0 ==> CannotBeat(m, heap, k, RoundedSum(m, v, tix, n)))
  }

  lemma {:induction false} CutAt(docs: seq<nat>, tix: seq<nat>, last: nat, i: nat) returns (n: nat)
    requires Permutation(tix, |docs|) && InDocOrder(docs, tix) && i <= |tix|
    ensures n <= i && (forall j :: 0 <= j < n ==> docs[tix[j]] <= last)
    ensures (forall j :: n <= j < i ==> docs[tix[j]] > last)
  {
    if i == 0 || docs[tix[i - 1]] <= last {
      n := i;
    } else {
      n := CutAt(docs, tix, last, i - 1);
    }
  }

  /** A skip: one list at or before the pivot goes to `next`, and the others stay. */
  lemma SkipBlocks(m: Arithmetic, v: seq<real>, lasts: seq<nat>, docs: seq<nat>, tix0: seq<nat>, p: nat, pivot: nat,
                   next: nat, t: nat, v': seq<real>, lasts': seq<nat>, docs': seq<nat>, tix: seq<nat>,
                   heap: seq<ScoredDoc>, k: nat)
    returns (n: nat)
    requires Ieee(m) && Permutation(tix0, |docs|) && Permutation(tix, |docs'|) && 0 < k
    requires |docs| == |docs'| == |v| == |v'| == |lasts| == |lasts'| && Amounts(v) && Amounts(v')
    requires InDocOrder(docs, tix0) && p < |tix0| && docs[tix0[p]] == pivot < next && t < |docs|
    requires forall j :: p < j < |tix0| ==> docs[tix0[j]] > pivot && docs[tix0[j]] >= next
    requires forall j :: 0 <= j <= p ==> lasts[tix0[j]] >= pivot && next <= lasts[tix0[j]] + 1
    requires CannotBeat(m, heap, k, RoundedSum(m, v, tix0, p + 1))
    requires docs'[t] >= next && forall u :: 0 <= u < |docs| && u != t ==>
               docs'[u] == docs[u] && v'[u] == v[u] && lasts'[u] == lasts[u]
    requires StableSort(docs', tix0, tix)
    ensures Blocked(m, v', docs', lasts', tix, heap, k, pivot, next, n)
  {
    hide Covers, Distinct, CannotBeat, Ieee, RoundedSum;
    var from :| ComesFrom(docs', tix0, tix, from);
    n := CutAt(docs', tix, pivot, |tix|);
    forall j | p + 1 <= j < |tix0| ensures docs[tix0[j]] >= pivot + 1 {
    }
    StillBelow(docs, tix0, docs', tix, from, pivot + 1, n, p + 1);
    forall j | n <= j < |tix| ensures docs'[tix[j]] >= next {
      assert tix[j] != t ==> docs[tix0[from[j]]] > pivot && from[j] > p;
    }
    if n > 0 {
      PartSum(m, v, tix, n, tix0, p + 1, from);
      RoundedAgrees(m, v, v', tix, n);
      SumIsRounded(m, v, tix, n);
      LessCannotBeat(m, heap, heap, k, RoundedSum(m, v, tix0, p + 1), RoundedSum(m, v, tix, n));
    }
  }

  /** A pivot at or after `last` but before `f` can only be `last` again, with exactly the blocked lists. */
  lemma BlockedPivot(m: Arithmetic, v: seq<real>, docs: seq<nat>, lasts: seq<nat>, tix: seq<nat>, heap: seq<ScoredDoc>,
                     k: nat, last: nat, f: nat, n: nat, p: nat, pivot: nat)
    requires Permutation(tix, |docs|) && |docs| == |v| == |lasts| && 0 < k && InDocOrder(docs, tix)
    requires Blocked(m, v, docs, lasts, tix, heap, k, last, f, n)
    requires p < |tix| && docs[tix[p]] == pivot && last <= pivot < f
    requires forall j :: p < j < |tix| ==> docs[tix[j]] > pivot
    ensures pivot == last && n == p + 1
  {
    hide Covers, Distinct, CannotBeat, RoundedSum;
    assert p < n;
    var t := tix[n - 1];
  }
}
