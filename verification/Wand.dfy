/** run_wand of engine/src/lexical/search.cc: WAND and, with `blockMax`, block-max WAND. */
module Wand {
  import opened Bits
  import opened Codec
  import opened Postings
  import opened Cursors
  import opened Rounding
  import opened Ranking
  import opened BoundedHeap
  import opened Scoring
  import opened Sequences
  import opened CursorSets
  import opened MaxScore
  import opened Pivots

  /** The cursors listed in `tix` stand on documents in increasing order. */
  ghost predicate DocOrder(store: seq<Cursor>, tix: seq<nat>)
    reads store
    requires Permutation(tix, |store|)
  {
    forall i, j :: 0 <= i < j < |tix| ==> store[tix[i]].doc <= store[tix[j]].doc
  }

  function DocsIn(store: seq<Cursor>, tix: seq<nat>): (ds: seq<nat>)
    reads store
    requires forall i :: 0 <= i < |tix| ==> tix[i] < |store|
    ensures |ds| == |tix|
  {
    seq(|tix|, i requires 0 <= i < |tix| && tix[i] < |store| reads store => store[tix[i]].doc)
  }

  /** The first `n` entries are in order, and equal ones in the order of their origins. */
  predicate SortedTo(ds: seq<nat>, from: seq<nat>, n: nat) {
    forall a, b :: 0 <= a < b < n && b < |ds| && b < |from| ==> ds[a] < ds[b] || (ds[a] == ds[b] && from[a] < from[b])
  }

  function Moved<T>(s: seq<T>, j: nat, i: nat): (r: seq<T>)
    requires j <= i < |s|
    ensures |r| == |s|
    ensures forall a :: 0 <= a < |s| ==> r[a] == s[if a < j || a > i then a else if a == j then i else a - 1]
  {
    s[..j] + [s[i]] + s[j..i] + s[i + 1..]
  }

  /** sort_by_doc: insertion sort of the cursor order by current document.  It is stable. */
  method SortByDoc(store: seq<Cursor>, tix0: seq<nat>) returns (tix: seq<nat>)
    requires Permutation(tix0, |store|)
    ensures Permutation(tix, |store|) && DocOrder(store, tix) && StableSort(AllDocs(store), tix0, tix)
  {
    hide Permutation, SortedTo, Origins, DocsIn;
    NothingMoved(store, tix0);
    tix := tix0;
    ghost var from: seq<nat> := seq(|store|, a => a);
    var i := 1;
    while i < |store|
      invariant Permutation(tix, |store|) && i >= 1
      invariant Origins(tix0, tix, from, i) && SortedTo(DocsIn(store, tix), from, i)
    {
      var j := PlaceIn(store, tix, i);
      MoveDown(tix, j, i, |store|);
      LaterOrigin(tix0, tix, from, i);
      MoveSorted(DocsIn(store, tix), from, j, i);
      MoveOrigins(tix0, tix, from, j, i);
      MovedDocs(store, tix, j, i);
      tix, from := Moved(tix, j, i), Moved(from, j, i);
      i := i + 1;
    }
    SortedIsOrder(store, tix0, tix, from, i);
  }

  /** How far down the entry at position `i` goes. */
  method PlaceIn(store: seq<Cursor>, tix: seq<nat>, i: nat) returns (j: nat)
    requires Permutation(tix, |store|) && i < |store|
    ensures j <= i && (j < i ==> DocsIn(store, tix)[j] > DocsIn(store, tix)[i])
    ensures j > 0 ==> DocsIn(store, tix)[j - 1] <= DocsIn(store, tix)[i]
  {
    j := i;
    while j > 0 && store[tix[j - 1]].Doc() > store[tix[i]].Doc()
      invariant j <= i
      invariant j < i ==> DocsIn(store, tix)[j] > DocsIn(store, tix)[i]
    {
      j := j - 1;
    }
  }

  lemma NothingMoved(store: seq<Cursor>, tix: seq<nat>)
    requires Permutation(tix, |store|)
    ensures Origins(tix, tix, seq(|store|, a => a), 1) && SortedTo(DocsIn(store, tix), seq(|store|, a => a), 1)
  {
  }

  lemma MovedDocs(store: seq<Cursor>, tix: seq<nat>, j: nat, i: nat)
    requires Permutation(tix, |store|) && j <= i < |store| && Permutation(Moved(tix, j, i), |store|)
    ensures DocsIn(store, Moved(tix, j, i)) == Moved(DocsIn(store, tix), j, i)
  {
    hide Covers, Distinct;
  }

  /** Position `a` holds what was at position `from[a]`; from position `i` on nothing has moved. */
  ghost predicate Origins(tix0: seq<nat>, tix: seq<nat>, from: seq<nat>, i: nat) {
    && |from| == |tix| == |tix0|
    && (forall a :: 0 <= a < |tix| ==> from[a] < |tix0| && tix[a] == tix0[from[a]])
    && (forall a :: i <= a < |from| ==> from[a] == a)
    && (forall a :: 0 <= a < i && a < |from| ==> from[a] < i)
  }

  lemma SortedIsOrder(store: seq<Cursor>, tix0: seq<nat>, tix: seq<nat>, from: seq<nat>, i: nat)
    requires Permutation(tix0, |store|) && Permutation(tix, |store|) && |store| <= i
    requires Origins(tix0, tix, from, i) && SortedTo(DocsIn(store, tix), from, i)
    ensures DocOrder(store, tix) && StableSort(AllDocs(store), tix0, tix)
  {
    hide Covers, Distinct;
    var docs, ds := AllDocs(store), DocsIn(store, tix);
    assert forall a :: 0 <= a < |tix| ==> ds[a] == docs[tix[a]] == store[tix[a]].doc;
    assert ComesFrom(docs, tix0, tix, from);
  }

  lemma MoveSorted(ds: seq<nat>, from: seq<nat>, j: nat, i: nat)
    requires j <= i < |ds| == |from| && SortedTo(ds, from, i) && forall a :: 0 <= a < i ==> from[a] < from[i]
    requires j < i ==> ds[j] > ds[i]
    requires j > 0 ==> ds[j - 1] <= ds[i]
    ensures SortedTo(Moved(ds, j, i), Moved(from, j, i), i + 1)
  {
    assert forall a :: j <= a < i ==> ds[a] > ds[i];
    assert forall a :: 0 <= a < j ==> ds[a] <= ds[i];
  }

  lemma LaterOrigin(tix0: seq<nat>, tix: seq<nat>, from: seq<nat>, i: nat)
    requires Origins(tix0, tix, from, i) && i < |tix|
    ensures |from| == |tix| && forall a :: 0 <= a < i ==> from[a] < from[i]
  {
  }

  lemma MoveOrigins(tix0: seq<nat>, tix: seq<nat>, from: seq<nat>, j: nat, i: nat)
    requires Origins(tix0, tix, from, i) && j <= i < |tix|
    ensures Origins(tix0, Moved(tix, j, i), Moved(from, j, i), i + 1)
  {
  }

  lemma MoveDown(s: seq<nat>, j: nat, i: nat, n: nat)
    requires Permutation(s, n) && j <= i < |s|
    ensures Permutation(Moved(s, j, i), n)
  {
    var r := Moved(s, j, i);
    forall t | 0 <= t < n ensures t in r {
      assert t in s;
      var a :| 0 <= a < |s| && s[a] == t;
      assert r[if a < j || a > i then a else if a == i then j else a + 1] == t;
    }
  }

  // ---------------------------------------------------------------------------------------------
  // The pivot
  // ---------------------------------------------------------------------------------------------

  /** The rounded sum of the bounds of the first `i` listed terms. */
  ghost function Cumulative(m: Arithmetic, q: Query, tix: seq<nat>, i: nat): real
    requires Permutation(tix, |q.terms|) && i <= |tix|
  {
    RoundedSum(m, UpperBounds(q), tix, i)
  }

  /** None of the first `e` cumulative bounds can beat the list. */
  ghost predicate PrefixCannotBeat(m: Arithmetic, q: Query, heap: seq<ScoredDoc>, k: nat, tix: seq<nat>, e: nat)
    requires Permutation(tix, |q.terms|) && e <= |tix| && 0 < k
  {
    forall i :: 1 <= i <= e ==> CannotBeat(m, heap, k, Cumulative(m, q, tix, i))
  }

  /** The first position where the cumulative bound could beat the threshold; none if `p` is the
      number of terms.  The terms before position `e` are the ones ruled out together. */
  method FindPivot(m: Arithmetic, c: CodecKind, q: Query, ghost ls: seq<PostingList>, store: seq<Cursor>,
                   tix: seq<nat>, top: TopK) returns (p: nat, ghost e: nat)
    requires ValidQuery(c, q, ls) && Ready(store, c, q, ls) && Permutation(tix, |store|)
    requires DocOrder(store, tix) && top.Valid()
    ensures p <= |store| && e <= |store| && PrefixCannotBeat(m, q, top.heap, top.k, tix, e)
    ensures p < |store| ==> e == p && tix[p] < |store| && store[tix[p]].doc < END
                            && !CannotBeat(m, top.heap, top.k, Cumulative(m, q, tix, p + 1))
    ensures p == |store| ==> forall j :: e <= j < |store| ==> store[tix[j]].doc == END
  {
    hide *;
    var acc := 0.0;
    p, e := |store|, 0;
    StartSum(m, q, top.heap, top.k, tix);
    for i := 0 to |store|
      invariant e == i && p == |store|
      invariant acc == Cumulative(m, q, tix, i) && PrefixCannotBeat(m, q, top.heap, top.k, tix, i)
    {
      if store[tix[i]].Doc() == END {
        EndFrom(store, tix, i);
        break;
      }
      NextSum(m, q, top.heap, top.k, tix, i);
      acc := m.rd(acc + q.terms[tix[i]].ub);
      if !CannotBeatTop(m, top, acc) {
        p := i;
        break;
      }
      e := i + 1;
    }
  }

  lemma EndFrom(store: seq<Cursor>, tix: seq<nat>, i: nat)
    requires Permutation(tix, |store|) && DocOrder(store, tix) && i < |store| && store[tix[i]].doc == END
    ensures forall j :: i <= j < |store| ==> store[tix[j]].doc == END
  {
    hide Covers;
    forall j | i <= j < |store| ensures store[tix[j]].doc == END {
      assert store[tix[i]].doc <= store[tix[j]].doc;
    }
  }

  lemma StartSum(m: Arithmetic, q: Query, heap: seq<ScoredDoc>, k: nat, tix: seq<nat>)
    requires Permutation(tix, |q.terms|) && 0 < k
    ensures Cumulative(m, q, tix, 0) == 0.0 && PrefixCannotBeat(m, q, heap, k, tix, 0)
  {
  }

  lemma NextSum(m: Arithmetic, q: Query, heap: seq<ScoredDoc>, k: nat, tix: seq<nat>, i: nat)
    requires Permutation(tix, |q.terms|) && i < |tix| && 0 < k && PrefixCannotBeat(m, q, heap, k, tix, i)
    ensures Cumulative(m, q, tix, i + 1) == m.rd(Cumulative(m, q, tix, i) + q.terms[tix[i]].ub)
    ensures CannotBeat(m, heap, k, Cumulative(m, q, tix, i + 1)) ==> PrefixCannotBeat(m, q, heap, k, tix, i + 1)
  {
  }

  lemma {:induction false} CumulativeNear(m: Arithmetic, c: CodecKind, q: Query, ls: seq<PostingList>, tix: seq<nat>,
                                          i: nat)
    requires Ieee(m) && ValidQuery(c, q, ls) && Permutation(tix, |ls|) && i <= |ls|
    ensures Near(Cumulative(m, q, tix, i), SumAt(UpperBounds(q), tix[..i]), i)
  {
    hide Stores, Bounded, Ieee, Covers, Near;
    if i == 0 {
      NearZero(0);
    } else {
      CumulativeNear(m, c, q, ls, tix, i - 1);
      UbNonNegative(c, q, ls, tix[i - 1]);
      var u := q.terms[tix[i - 1]].ub;
      NearSelf(u, i - 1);
      NearAdd(m, Cumulative(m, q, tix, i - 1), SumAt(UpperBounds(q), tix[..i - 1]), u, u, i - 1);
      assert tix[..i][..i - 1] == tix[..i - 1];
    }
  }

  lemma PlaceOf(tix: seq<nat>, n: nat, t: nat)
    requires Permutation(tix, n) && t < n
    ensures exists j :: 0 <= j < |tix| && tix[j] == t
  {
    assert t in tix;
  }

  /** Documents from the frontier to the pivot match only terms ruled out together. */
  lemma BelowPivot(m: Arithmetic, c: CodecKind, q: Query, ls: seq<PostingList>, store: seq<Cursor>, tix: seq<nat>,
                   heap: seq<ScoredDoc>, k: nat, f: nat, e: nat, pivot: nat)
    requires Ieee(m) && ValidQuery(c, q, ls) && Ready(store, c, q, ls) && Permutation(tix, |ls|) && 0 < k && |heap| <= k
    requires AllBehind(store, f) && e <= |ls| && PrefixCannotBeat(m, q, heap, k, tix, e)
    requires pivot <= END && forall j :: e <= j < |ls| ==> store[tix[j]].doc >= pivot
    ensures AllDominated(heap, k, m, c, q, ls, f, pivot)
  {
    hide Stores, Bounded, Parts, Dominated, Ieee, Near, Cursor.Valid, Cursor.At, Cursor.Behind, Cumulative,
      Covers, PrefixCannotBeat;
    forall d | f <= d < pivot && d in DocsOf(ls, |ls|)
      ensures |heap| == k > 0 && Dominated(m, c, q, ls, d, heap[k - 1].score)
    {
      forall t | 0 <= t < |ls| && d in ls[t].docs ensures t in tix[..e] {
        PlaceOf(tix, |ls|, t);
        var j :| 0 <= j < |tix| && tix[j] == t;
        if j >= e {
          assert Tracks(store[t], q.terms[t].info, ls[t]);
          CursorHit(store[t], f, d);
        }
        assert tix[..e][j] == t;
      }
      var t :| 0 <= t < |ls| && d in ls[t].docs;
      assert e > 0;
      PrefixDominates(m, c, q, ls, tix, heap, k, e, d);
    }
  }

  lemma PrefixDominates(m: Arithmetic, c: CodecKind, q: Query, ls: seq<PostingList>, tix: seq<nat>,
                        heap: seq<ScoredDoc>, k: nat, e: nat, d: nat)
    requires Ieee(m) && ValidQuery(c, q, ls) && Permutation(tix, |ls|) && 0 < k && |heap| <= k
    requires 0 < e <= |ls| && PrefixCannotBeat(m, q, heap, k, tix, e)
    requires forall t :: 0 <= t < |ls| && d in ls[t].docs ==> t in tix[..e]
    ensures |heap| == k && Dominated(m, c, q, ls, d, heap[k - 1].score)
  {
    hide Stores, Bounded, Parts, Dominated, Ieee, Near, SumAt, Cumulative, Covers;
    CumulativeNear(m, c, q, ls, tix, e);
    assert CannotBeat(m, heap, k, Cumulative(m, q, tix, e));
    TermBoundsDominate(m, c, q, ls, d, tix[..e], Cumulative(m, q, tix, e), heap[k - 1].score);
  }

  lemma TermBoundsDominate(m: Arithmetic, c: CodecKind, q: Query, ls: seq<PostingList>, d: nat, s: seq<nat>,
                           bound: real, theta: real)
    requires Ieee(m) && ValidQuery(c, q, ls) && Distinct(s) && |s| <= |ls|
    requires forall i :: 0 <= i < |s| ==> s[i] < |ls|
    requires forall t :: 0 <= t < |ls| && d in ls[t].docs ==> t in s
    requires Near(bound, SumAt(UpperBounds(q), s), |s|) && m.rf(m.rd(bound * BOUND_SLACK)) <= theta
    ensures Dominated(m, c, q, ls, d, theta)
  {
    hide Stores, Bounded, Parts, Dominated, Ieee, Near, SumAt;
    forall t | 0 <= t < |ls| ensures q.terms[t].ub >= 0.0 && (d in ls[t].docs ==> Parts(q, ls, d)[t] <= q.terms[t].ub) {
      PartsOf(c, q, ls, d, t);
      UbNonNegative(c, q, ls, t);
    }
    NearWeaken(bound, SumAt(UpperBounds(q), s), |s|, MAX_TERMS + 2);
    BoundsDominate(m, c, q, ls, d, UpperBounds(q), s, bound, theta);
  }

  // ---------------------------------------------------------------------------------------------
  // Block-max skipping
  // ---------------------------------------------------------------------------------------------

  /** A cursor's share of the block-max bound: nothing once its block pointer is past the end. */
  ghost function BlockMax(q: Query, cur: Cursor, t: nat): real
    reads cur
    requires t < |q.terms| && cur.Valid()
  {
    if cur.BlockValid() then q.sc.bound(q.terms[t].weight, cur.BlockBound()) else 0.0
  }

  lemma BlockMaxNonNegative(c: CodecKind, q: Query, ls: seq<PostingList>, cur: Cursor, t: nat)
    requires ValidQuery(c, q, ls) && t < |ls| && Tracks(cur, q.terms[t].info, ls[t])
    ensures BlockMax(q, cur, t) >= 0.0
  {
    if cur.BlockValid() {
      BlockBounds(cur.t.df, cur.blk);
      BlockOf(BlockLow(cur.blk), cur.blk);
      assert Bounded(q, ls, t, BlockLow(cur.blk));
    }
  }

  lemma BlockOf(i: nat, b: nat)
    requires BlockLow(b) <= i < BlockLow(b) + BLOCK_SIZE
    ensures i / BLOCK_SIZE == b
  {
  }

  /** Between the frontier and the end of the block that the block pointer is on, the block's bound is true. */
  lemma BlockCovers(c: CodecKind, q: Query, ls: seq<PostingList>, cur: Cursor, t: nat, f: nat, d: nat)
    requires ValidQuery(c, q, ls) && t < |ls| && Tracks(cur, q.terms[t].info, ls[t])
    requires cur.Behind(f) && f <= d <= cur.BlockLast() && d in ls[t].docs
    ensures Parts(q, ls, d)[t] <= BlockMax(q, cur, t)
  {
    hide Parts, PostingScore, Cursor.Behind, Cursor.At;
    var l, i := ls[t], IndexOf(ls[t].docs, d);
    var b := i / BLOCK_SIZE;
    BlockBounds(|l.docs|, b);
    assert d <= LastDoc(l, b) by { assert i <= BlockHigh(|l.docs|, b) - 1; }
    NotSkipped(cur, f, i);
    LastDocsBefore(l, cur.blk, i);
    assert Bounded(q, ls, t, i);
    PartsOf(c, q, ls, d, t);
  }

  lemma LastDocsBefore(l: PostingList, b: nat, i: nat)
    requires ValidList(l) && i < |l.docs|
    ensures b < i / BLOCK_SIZE ==> b < Blocks(|l.docs|) && LastDoc(l, b) < l.docs[i]
  {
    if b < i / BLOCK_SIZE {
      BlockBounds(|l.docs|, b);
    }
  }

  /** Documents and postings left, unchanged while only block pointers move. */
  ghost predicate Still(store: seq<Cursor>, docs: seq<nat>, lefts: seq<nat>)
    reads store
  {
    |docs| == |lefts| == |store|
    && forall t :: 0 <= t < |store| ==> store[t].doc == docs[t] && Left(store[t]) == lefts[t]
  }

  function AllDocs(store: seq<Cursor>): (docs: seq<nat>)
    reads store
    ensures |docs| == |store|
  {
    seq(|store|, t requires 0 <= t < |store| reads store => store[t].doc)
  }

  lemma StillNow(store: seq<Cursor>)
    ensures Still(store, AllDocs(store), AllLeft(store))
  {
  }

  /** The block pointers of the first `i` listed cursors are on the block that may hold `pivot`, and
      `v` holds their shares of the bound. */
  ghost predicate Pointed(q: Query, store: seq<Cursor>, tix: seq<nat>, i: nat, pivot: nat, v: seq<real>)
    reads store
    requires Permutation(tix, |store|)
  {
    && |v| == |store| == |q.terms|
    && (forall t :: 0 <= t < |store| ==> v[t] >= 0.0)
    && (forall j :: 0 <= j < i && j < |store| ==> PointedAt(q, store[tix[j]], tix[j], pivot, v[tix[j]]))
  }

  ghost predicate PointedAt(q: Query, cur: Cursor, t: nat, pivot: nat, share: real)
    reads cur
    requires t < |q.terms|
  {
    cur.Valid() && cur.BlockLast() >= pivot && share == BlockMax(q, cur, t)
  }

  /** A cursor's document, share of the block-max bound and end of block. */
  ghost predicate Alike(q: Query, cur: Cursor, t: nat, doc: nat, share: real, last: nat)
    reads cur
    requires t < |q.terms|
  {
    cur.Valid() && cur.doc == doc && BlockMax(q, cur, t) == share && cur.BlockLast() == last
  }

  ghost predicate AllValid(store: seq<Cursor>)
    reads store
  {
    forall t :: 0 <= t < |store| ==> store[t].Valid()
  }

  lemma ReadyIsValid(store: seq<Cursor>, c: CodecKind, q: Query, ls: seq<PostingList>)
    requires Ready(store, c, q, ls)
    ensures AllValid(store)
  {
    hide Cursor.Valid;
    forall t | 0 <= t < |store| ensures store[t].Valid() {
      assert Tracks(store[t], q.terms[t].info, ls[t]);
    }
  }

  ghost function Shares(q: Query, store: seq<Cursor>): (v: seq<real>)
    reads store
    requires |store| == |q.terms| && AllValid(store)
    ensures |v| == |store| && forall t :: 0 <= t < |v| ==> v[t] == BlockMax(q, store[t], t)
  {
    seq(|store|, t requires 0 <= t < |store| && store[t].Valid() reads store => BlockMax(q, store[t], t))
  }

  ghost function Lasts(store: seq<Cursor>): (lasts: seq<nat>)
    reads store
    requires AllValid(store)
    ensures |lasts| == |store| && forall t :: 0 <= t < |store| ==> lasts[t] == store[t].BlockLast()
  {
    seq(|store|, t requires 0 <= t < |store| && store[t].Valid() reads store => store[t].BlockLast())
  }

  lemma SharesPositive(c: CodecKind, q: Query, ls: seq<PostingList>, store: seq<Cursor>)
    requires ValidQuery(c, q, ls) && Ready(store, c, q, ls) && AllValid(store)
    ensures Amounts(Shares(q, store))
  {
    hide BlockMax, Cursor.Valid, Stores, Bounded;
    forall t | 0 <= t < |store| ensures BlockMax(q, store[t], t) >= 0.0 {
      assert Tracks(store[t], q.terms[t].info, ls[t]);
      BlockMaxNonNegative(c, q, ls, store[t], t);
    }
  }

  /** No shallow target so far was above `s`. */
  ghost predicate ShallowTo(store: seq<Cursor>, s: nat)
    reads store
  {
    forall t :: 0 <= t < |store| ==> store[t].shallow <= s
  }

  /** One step of the shallow loop.  A block that reaches the pivot already stays. */
  method PointTerm(m: Arithmetic, c: CodecKind, q: Query, ghost ls: seq<PostingList>, cur: Cursor, t: nat, pivot: u32,
                   ghost f: nat, bsum0: real, ghost x: real, ghost ops: nat) returns (bsum: real, ghost share: real)
    requires Ieee(m) && ValidQuery(c, q, ls) && t < |ls| && Tracks(cur, q.terms[t].info, ls[t])
    requires cur.Behind(f) && pivot <= f && pivot < END && ops < |ls| && Near(bsum0, x, ops) && m.rd(bsum0) == bsum0
    requires cur.shallow <= pivot
    modifies cur`blk, cur`shallow
    ensures Tracks(cur, q.terms[t].info, ls[t]) && cur.Behind(f) && Left(cur) == old(Left(cur))
    ensures share >= 0.0 && PointedAt(q, cur, t, pivot, share) && Near(bsum, x + share, ops + 1)
    ensures bsum == m.rd(bsum0 + share) && cur.shallow <= pivot
    ensures old(cur.BlockLast()) >= pivot ==>
              share == old(BlockMax(q, cur, t)) && cur.BlockLast() == old(cur.BlockLast())
  {
    hide Stores, Bounded, Near, Ieee, Cursor.Loaded, BlockMax;
    ghost var blk0, last0 := cur.blk, cur.BlockLast();
    BlockMaxIs(q, cur, t);
    BlockLastIs(cur);
    cur.ShallowNext(pivot);
    BlockLastIs(cur);
    assert last0 >= pivot ==> cur.blk == blk0;
    BlockMaxNonNegative(c, q, ls, cur, t);
    share := BlockMax(q, cur, t);
    BlockMaxIs(q, cur, t);
    bsum := bsum0;
    NearSelf(share, ops);
    NearAdd(m, bsum0, x, share, share, ops);
    if cur.BlockValid() {
      bsum := m.rd(bsum + q.sc.bound(q.terms[t].weight, cur.BlockBound()));
    }
  }

  lemma BlockLastIs(cur: Cursor)
    requires cur.Valid()
    ensures cur.BlockLast() == if cur.blk >= cur.nb then END - 1 else LastDoc(cur.l, cur.blk)
  {
  }

  lemma BlockMaxIs(q: Query, cur: Cursor, t: nat)
    requires t < |q.terms| && cur.Valid()
    ensures BlockMax(q, cur, t) == if cur.BlockValid() then q.sc.bound(q.terms[t].weight, cur.BlockBound()) else 0.0
  {
  }

  /** The block-max bound of the first `p + 1` listed terms at the pivot. */
  method BlockSum(m: Arithmetic, c: CodecKind, q: Query, ghost ls: seq<PostingList>, store: seq<Cursor>,
                  tix: seq<nat>, p: nat, pivot: u32, ghost f: nat)
    returns (bsum: real, ghost v: seq<real>)
    requires Ieee(m) && ValidQuery(c, q, ls) && Ready(store, c, q, ls) && AllBehind(store, f) && AllValid(store)
    requires Permutation(tix, |ls|) && p < |ls| && pivot <= f && pivot < END && ShallowTo(store, pivot)
    modifies store
    ensures Ready(store, c, q, ls) && AllBehind(store, f) && Still(store, old(AllDocs(store)), old(AllLeft(store)))
    ensures Pointed(q, store, tix, p + 1, pivot, v) && |v| == |ls| && BlockNear(m, tix, v, p + 1, bsum)
    ensures ShallowTo(store, pivot)
    ensures Repeated(q, store, tix, p + 1, pivot, v, old(Shares(q, store)), old(Lasts(store)))
  {
    hide *;
    ghost var docs, lefts := AllDocs(store), AllLeft(store);
    ghost var v0, lasts0 := Shares(q, store), Lasts(store);
    StillNow(store);
    bsum, v := 0.0, seq(|store|, _ => 0.0);
    NothingPointed(m, q, store, tix, pivot, v);
    for i := 0 to p + 1
      invariant Ready(store, c, q, ls) && AllBehind(store, f) && Still(store, docs, lefts) && |v| == |ls|
      invariant Pointed(q, store, tix, i, pivot, v) && BlockNear(m, tix, v, i, bsum)
      invariant ShallowTo(store, pivot) && Repeated(q, store, tix, i, pivot, v, v0, lasts0)
    {
      bsum, v := PointNext(m, c, q, ls, store, tix, i, pivot, f, bsum, v, docs, lefts, v0, lasts0);
    }
  }

  ghost predicate BlockNear(m: Arithmetic, tix: seq<nat>, v: seq<real>, i: nat, bsum: real)
    requires Permutation(tix, |v|) && i <= |v|
  {
    Near(bsum, SumAt(v, tix[..i]), i) && bsum == RoundedSum(m, v, tix, i)
  }

  /** The lists pointed at whose blocks reached the pivot before have kept their shares `v0` and their blocks'
      ends `lasts0`, and so have the lists not yet looked at. */
  ghost predicate Repeated(q: Query, store: seq<Cursor>, tix: seq<nat>, i: nat, pivot: nat, v: seq<real>, v0: seq<real>,
                           lasts0: seq<nat>)
    reads store
    requires Permutation(tix, |store|)
  {
    && |v| == |v0| == |lasts0| == |store| == |q.terms| && AllValid(store)
    && (forall j :: 0 <= j < i && j < |store| && lasts0[tix[j]] >= pivot ==>
          v[tix[j]] == v0[tix[j]] && store[tix[j]].BlockLast() == lasts0[tix[j]])
    && (forall j :: i <= j < |store| ==>
          BlockMax(q, store[tix[j]], tix[j]) == v0[tix[j]] && store[tix[j]].BlockLast() == lasts0[tix[j]])
  }

  lemma NothingPointed(m: Arithmetic, q: Query, store: seq<Cursor>, tix: seq<nat>, pivot: nat, v: seq<real>)
    requires Permutation(tix, |store|) && |v| == |store| == |q.terms| && forall t :: 0 <= t < |v| ==> v[t] == 0.0
    requires AllValid(store)
    ensures Pointed(q, store, tix, 0, pivot, v) && BlockNear(m, tix, v, 0, 0.0)
    ensures Repeated(q, store, tix, 0, pivot, v, Shares(q, store), Lasts(store))
  {
  }

  method PointNext(m: Arithmetic, c: CodecKind, q: Query, ghost ls: seq<PostingList>, store: seq<Cursor>,
                   tix: seq<nat>, i: nat, pivot: u32, ghost f: nat, bsum0: real, ghost v1: seq<real>,
                   ghost docs: seq<nat>, ghost lefts: seq<nat>, ghost v0: seq<real>, ghost lasts0: seq<nat>)
    returns (bsum: real, ghost v: seq<real>)
    requires Ieee(m) && ValidQuery(c, q, ls) && Ready(store, c, q, ls) && AllBehind(store, f)
    requires Permutation(tix, |ls|) && i < |ls| && pivot <= f && pivot < END && Still(store, docs, lefts)
    requires Pointed(q, store, tix, i, pivot, v1) && |v1| == |ls| && BlockNear(m, tix, v1, i, bsum0)
    requires ShallowTo(store, pivot) && Repeated(q, store, tix, i, pivot, v1, v0, lasts0)
    modifies store
    ensures Ready(store, c, q, ls) && AllBehind(store, f) && Still(store, docs, lefts)
    ensures Pointed(q, store, tix, i + 1, pivot, v) && |v| == |ls| && BlockNear(m, tix, v, i + 1, bsum)
    ensures ShallowTo(store, pivot) && Repeated(q, store, tix, i + 1, pivot, v, v0, lasts0)
  {
    hide Stores, Bounded, ValidList, Near, Ieee, Left, SumAt, RoundedSum, Cursor.Valid, Cursor.At, Cursor.Behind,
      Cursor.BlockLast, PointedAt, Covers, BlockMax;
    var t := tix[i];
    ghost var share;
    SumIsRounded(m, v1, tix, i);
    bsum, share := PointTerm(m, c, q, ls, store[t], t, pivot, f, bsum0, SumAt(v1, tix[..i]), i);
    v := v1[t := share];
    ShareAdds(m, tix, v1, i, share);
  }

  lemma ShareAdds(m: Arithmetic, tix: seq<nat>, v: seq<real>, i: nat, share: real)
    requires Permutation(tix, |v|) && i < |v|
    ensures SumAt(v[tix[i] := share], tix[..i + 1]) == SumAt(v, tix[..i]) + share
    ensures RoundedSum(m, v[tix[i] := share], tix, i + 1) == m.rd(RoundedSum(m, v, tix, i) + share)
  {
    var w := v[tix[i] := share];
    SumAgrees(v, w, tix[..i]);
    RoundedAgrees(m, v, w, tix, i);
    assert tix[..i + 1][..i] == tix[..i];
  }

  /** Documents from the frontier to `next` are ruled out by the block-max bound. */
  lemma BelowNext(m: Arithmetic, c: CodecKind, q: Query, ls: seq<PostingList>, store: seq<Cursor>, tix: seq<nat>,
                  p: nat, pivot: nat, f: nat, next: nat, v: seq<real>, bsum: real, heap: seq<ScoredDoc>, k: nat)
    requires Ieee(m) && ValidQuery(c, q, ls) && Ready(store, c, q, ls) && AllBehind(store, f)
    requires Permutation(tix, |ls|) && p < |ls| && 0 < k && |heap| <= k
    requires Pointed(q, store, tix, p + 1, pivot, v) && |v| == |ls| && BlockNear(m, tix, v, p + 1, bsum)
    requires CannotBeat(m, heap, k, bsum) && NextLimit(store, tix, p, next)
    ensures AllDominated(heap, k, m, c, q, ls, f, next)
  {
    hide Stores, Bounded, Parts, Dominated, Ieee, Near, SumAt, Cursor.Valid, Cursor.At, Cursor.Behind, BlockMax;
    var s := tix[..p + 1];
    forall d | f <= d < next && d in DocsOf(ls, |ls|)
      ensures |heap| == k > 0 && Dominated(m, c, q, ls, d, heap[k - 1].score)
    {
      forall t | 0 <= t < |ls| && d in ls[t].docs ensures t in s && Parts(q, ls, d)[t] <= v[t] {
        CoveredByPivots(c, q, ls, store, tix, p, pivot, f, next, v, d, t);
      }
      NearWeaken(bsum, SumAt(v, s), p + 1, MAX_TERMS + 2);
      BoundsDominate(m, c, q, ls, d, v, s, bsum, heap[k - 1].score);
    }
  }

  /** A list that holds a document before `next` is a pivot list, and its block bound covers it. */
  lemma CoveredByPivots(c: CodecKind, q: Query, ls: seq<PostingList>, store: seq<Cursor>, tix: seq<nat>, p: nat,
                        pivot: nat, f: nat, next: nat, v: seq<real>, d: nat, t: nat)
    requires ValidQuery(c, q, ls) && Ready(store, c, q, ls) && AllBehind(store, f)
    requires Permutation(tix, |ls|) && p < |ls| && Pointed(q, store, tix, p + 1, pivot, v) && |v| == |ls|
    requires NextLimit(store, tix, p, next) && f <= d < next && t < |ls| && d in ls[t].docs
    ensures t in tix[..p + 1] && Parts(q, ls, d)[t] <= v[t]
  {
    hide Stores, Bounded, Parts, Cursor.Valid, Cursor.At, Cursor.Behind, BlockMax;
    assert t in tix;
    var j :| 0 <= j < |tix| && tix[j] == t;
    assert Tracks(store[t], q.terms[t].info, ls[t]);
    if j > p {
      assert store[tix[j]].doc >= next;
      CursorHit(store[t], f, d);
    }
    assert tix[..p + 1][j] == t;
    assert PointedAt(q, store[tix[j]], tix[j], pivot, v[tix[j]]);
    BlockCovers(c, q, ls, store[t], t, f, d);
  }

  /** `next` is not past the end of a pivot list's block, nor past any other list's document. */
  ghost predicate NextLimit(store: seq<Cursor>, tix: seq<nat>, p: nat, next: nat)
    reads store
    requires Permutation(tix, |store|)
  {
    && next <= END
    && (forall j :: 0 <= j <= p && j < |store| ==> store[tix[j]].Valid() && next <= store[tix[j]].BlockLast() + 1)
    && (forall j :: p < j < |store| ==> next <= store[tix[j]].doc)
  }

  /** Where a block-max skip leads, and which cursor takes it: past the smallest block boundary of the
      pivot lists or to the next list's document, by the pivot list of the largest bound.  The target
      always lies past the pivot, so that the guard at line 391 never acts. */
  method NextTarget(q: Query, store: seq<Cursor>, tix: seq<nat>, p: nat, pivot: u32, ghost v: seq<real>)
    returns (next: u32, adv: nat)
    requires Permutation(tix, |store|) && p < |store| == |q.terms| && DocOrder(store, tix) && pivot < END
    requires Pointed(q, store, tix, p + 1, pivot, v) && forall j :: p < j < |store| ==> store[tix[j]].doc > pivot
    ensures adv <= p && pivot < next <= END && NextLimit(store, tix, p, next)
    ensures forall x: nat :: NextLimit(store, tix, p, x) ==> x <= next
    ensures forall j :: 0 <= j <= p ==> q.terms[tix[j]].ub <= q.terms[tix[adv]].ub
  {
    hide Cursor.Valid, BlockMax, Covers;
    next, adv := END, p;
    for i := 0 to p + 1
      invariant pivot < next && adv <= p
      invariant forall j :: 0 <= j < i ==> store[tix[j]].Valid() && next <= store[tix[j]].BlockLast() + 1
      invariant forall x: nat :: NextLimit(store, tix, p, x) ==> x <= next
      invariant forall j :: 0 <= j < i || j == p ==> q.terms[tix[j]].ub <= q.terms[tix[adv]].ub
    {
      assert PointedAt(q, store[tix[i]], tix[i], pivot, v[tix[i]]);
      if store[tix[i]].BlockLast() + 1 < next {
        next := store[tix[i]].BlockLast() + 1;
      }
      if q.terms[tix[i]].ub > q.terms[tix[adv]].ub {
        adv := i;
      }
    }
    if p + 1 < |store| && store[tix[p + 1]].Doc() < next {
      next := store[tix[p + 1]].Doc();
    }
  }

  /** Every cursor at or after `g` and behind `f`, listed in document order. */
  ghost predicate InOrder(store: seq<Cursor>, c: CodecKind, q: Query, ls: seq<PostingList>, tix: seq<nat>, g: nat,
                          f: nat)
    reads store
    ensures InOrder(store, c, q, ls, tix, g, f) ==> Permutation(tix, |store|) && |store| == |ls| == |q.terms|
  {
    && Ready(store, c, q, ls) && AllBehind(store, f) && AllFrom(store, g)
    && Permutation(tix, |store|) && DocOrder(store, tix)
  }

  /** Every list but `t` has kept its document, share and block. */
  ghost predicate OthersStay(q: Query, store: seq<Cursor>, t: nat, docs: seq<nat>, v: seq<real>, lasts: seq<nat>)
    reads store
  {
    && |docs| == |v| == |lasts| == |store| == |q.terms|
    && forall u :: 0 <= u < |store| && u != t ==> Alike(q, store[u], u, docs[u], v[u], lasts[u])
  }

  /** Seek one cursor and restore the order. */
  method SeekAndSort(c: CodecKind, q: Query, ghost ls: seq<PostingList>, store: seq<Cursor>, tix0: seq<nat>, t: nat,
                     target: u32, ghost f0: nat, ghost g: nat, ghost f: nat, ghost s: nat) returns (tix: seq<nat>)
    requires Ready(store, c, q, ls) && AllBehind(store, f0) && AllFrom(store, g) && Permutation(tix0, |store|)
    requires t < |store| && store[t].doc < target <= f && f0 <= f && ShallowTo(store, s) && s <= target
    requires AllValid(store)
    modifies store
    ensures InOrder(store, c, q, ls, tix, g, f) && Sum(AllLeft(store)) < Sum(old(AllLeft(store)))
    ensures ShallowTo(store, s) && StableSort(AllDocs(store), tix0, tix) && store[t].doc >= target
    ensures OthersStay(q, store, t, old(AllDocs(store)), old(Shares(q, store)), old(Lasts(store)))
  {
    hide *;
    ghost var lefts, docs := AllLeft(store), AllDocs(store);
    ghost var v, lasts := Shares(q, store), Lasts(store);
    SeekOne(c, q, ls, store, t, target, f0, g, f, lefts, docs, v, lasts, s);
    Sought(store, t, f0, f, lefts);
    tix := SortByDoc(store, tix0);
    Ordered(store, c, q, ls, tix, g, f);
  }

  method SeekOne(c: CodecKind, q: Query, ghost ls: seq<PostingList>, store: seq<Cursor>, t: nat,
                 target: u32, ghost f0: nat, ghost g: nat, ghost f: nat, ghost lefts: seq<nat>,
                 ghost docs: seq<nat>, ghost v: seq<real>, ghost lasts: seq<nat>, ghost s: nat)
    requires Ready(store, c, q, ls) && AllBehind(store, f0) && AllFrom(store, g) && lefts == AllLeft(store)
    requires AllValid(store)
    requires t < |store| && store[t].doc < target <= f && f0 <= f && ShallowTo(store, s) && s <= target
    requires docs == AllDocs(store) && v == Shares(q, store) && lasts == Lasts(store)
    modifies store
    ensures Ready(store, c, q, ls) && AllFrom(store, g) && OneSought(store, t, f0, f, lefts)
    ensures ShallowTo(store, s) && store[t].doc >= target && OthersStay(q, store, t, docs, v, lasts)
  {
    hide Cursor.Valid, Cursor.At, Cursor.Behind, Cursor.BlockLast, Left, Stores, ValidList, BlockMax;
    assert OthersStay(q, store, t, docs, v, lasts);
    SeekTo(store[t], target, q.terms[t].info, ls[t], f0, f);
  }

  ghost predicate OneSought(store: seq<Cursor>, t: nat, f0: nat, f: nat, lefts: seq<nat>)
    reads store
    requires |lefts| == |store| && t < |store|
  {
    && (forall u :: 0 <= u < |store| && u != t ==> Kept(store[u], f0, lefts[u]))
    && Kept(store[t], f, lefts[t]) && Left(store[t]) < lefts[t]
  }

  lemma Sought(store: seq<Cursor>, t: nat, f0: nat, f: nat, lefts: seq<nat>)
    requires |lefts| == |store| && t < |store| && f0 <= f && OneSought(store, t, f0, f, lefts)
    ensures AllBehind(store, f) && Sum(AllLeft(store)) < Sum(lefts)
  {
    hide Cursor.Valid, Cursor.At, Cursor.Behind, Left, Sum;
    forall u | 0 <= u < |store| ensures Kept(store[u], f, lefts[u]) {
      if u != t {
        BehindLater(store[u], f0, f);
      }
    }
    SumFalls(AllLeft(store), lefts, t);
  }

  lemma Ordered(store: seq<Cursor>, c: CodecKind, q: Query, ls: seq<PostingList>, tix: seq<nat>, g: nat, f: nat)
    requires Ready(store, c, q, ls) && AllBehind(store, f) && AllFrom(store, g)
    requires Permutation(tix, |store|) && DocOrder(store, tix)
    ensures InOrder(store, c, q, ls, tix, g, f)
  {
  }

  // ---------------------------------------------------------------------------------------------
  // Scoring the pivot
  // ---------------------------------------------------------------------------------------------

  /** Hits and contributions of the first `i` listed terms at document `d`, and no other hits. */
  ghost predicate Taken(q: Query, ls: seq<PostingList>, tix: seq<nat>, i: nat, d: nat, contrib: seq<real>,
                        hit: seq<bool>)
    requires Paired(q, ls) && Permutation(tix, |ls|)
    ensures Taken(q, ls, tix, i, d, contrib, hit) ==> |contrib| == |hit| == |ls|
  {
    && |contrib| == |hit| == |ls|
    && (forall j :: i <= j < |ls| ==> !hit[tix[j]])
    && (forall j :: 0 <= j < i && j < |ls| ==> hit[tix[j]] && d in ls[tix[j]].docs)
    && (forall j :: 0 <= j < i && j < |ls| ==> contrib[tix[j]] == Parts(q, ls, d)[tix[j]])
  }

  /** The first `r` listed cursors, and no others, are on `d`, which is the least document. */
  ghost predicate Run(store: seq<Cursor>, tix: seq<nat>, r: nat, d: nat)
    reads store
    requires Permutation(tix, |store|)
  {
    && 0 < r <= |store|
    && (forall j :: 0 <= j < r ==> store[tix[j]].doc == d)
    && (forall j :: r <= j < |store| ==> store[tix[j]].doc > d)
  }

  /** The contributions to the pivot of the lists that are on it. */
  method TakeRun(c: CodecKind, q: Query, ghost ls: seq<PostingList>, store: seq<Cursor>, tix: seq<nat>, d: u32,
                 contrib0: seq<real>) returns (contrib: seq<real>, hit: seq<bool>, ghost r: nat)
    requires ValidQuery(c, q, ls) && Ready(store, c, q, ls) && Permutation(tix, |store|) && DocOrder(store, tix)
    requires 0 < |store| == |contrib0| && store[tix[0]].doc == d < END
    ensures |contrib| == |hit| == |ls| && Run(store, tix, r, d) && Taken(q, ls, tix, r, d, contrib, hit)
  {
    hide *;
    contrib, hit := contrib0, seq(|store|, _ => false);
    var i := 0;
    NoneTaken(q, ls, tix, d, contrib, hit);
    FirstIsOn(store, tix, d);
    while i < |store| && store[tix[i]].Doc() == d
      invariant i <= |store| == |ls| && Taken(q, ls, tix, i, d, contrib, hit) && AreOn(store, tix, i, d)
    {
      var t := tix[i];
      ReadyTracks(store, c, q, ls, t);
      var s := OnPivot(c, q, ls, store[t], t, d);
      TakeOne(q, ls, tix, i, d, contrib, hit, s);
      NextIsOn(store, tix, i, d);
      contrib, hit := contrib[t := s], hit[t := true];
      i := i + 1;
    }
    r := i;
    RunEnds(store, tix, i, d);
  }

  /** The first `i` listed cursors are on `d`. */
  ghost predicate AreOn(store: seq<Cursor>, tix: seq<nat>, i: nat, d: nat)
    reads store
    requires Permutation(tix, |store|) && i <= |store|
  {
    forall j :: 0 <= j < i ==> store[tix[j]].doc == d
  }

  lemma NoneTaken(q: Query, ls: seq<PostingList>, tix: seq<nat>, d: nat, contrib: seq<real>, hit: seq<bool>)
    requires Paired(q, ls) && Permutation(tix, |ls|) && |contrib| == |hit| == |ls|
    requires forall t :: 0 <= t < |hit| ==> !hit[t]
    ensures Taken(q, ls, tix, 0, d, contrib, hit)
  {
    hide Covers, Parts;
  }

  lemma TakeOne(q: Query, ls: seq<PostingList>, tix: seq<nat>, i: nat, d: nat, contrib: seq<real>, hit: seq<bool>,
                s: real)
    requires Paired(q, ls) && Permutation(tix, |ls|) && i < |ls| && Taken(q, ls, tix, i, d, contrib, hit)
    requires d in ls[tix[i]].docs && s == Parts(q, ls, d)[tix[i]]
    ensures Taken(q, ls, tix, i + 1, d, contrib[tix[i] := s], hit[tix[i] := true])
  {
    hide Covers, Parts;
    assert forall j :: 0 <= j < |ls| && j != i ==> tix[j] != tix[i];
  }

  lemma FirstIsOn(store: seq<Cursor>, tix: seq<nat>, d: nat)
    requires Permutation(tix, |store|)
    ensures AreOn(store, tix, 0, d)
  {
  }

  lemma NextIsOn(store: seq<Cursor>, tix: seq<nat>, i: nat, d: nat)
    requires Permutation(tix, |store|) && i < |store| && AreOn(store, tix, i, d) && store[tix[i]].doc == d
    ensures AreOn(store, tix, i + 1, d)
  {
    hide Covers, Distinct;
  }

  lemma RunEnds(store: seq<Cursor>, tix: seq<nat>, i: nat, d: nat)
    requires Permutation(tix, |store|) && DocOrder(store, tix) && 0 < |store| && store[tix[0]].doc == d
    requires i <= |store| && AreOn(store, tix, i, d) && (i < |store| ==> store[tix[i]].doc != d)
    ensures Run(store, tix, i, d)
  {
    hide Covers, Distinct;
  }

  lemma ReadyTracks(store: seq<Cursor>, c: CodecKind, q: Query, ls: seq<PostingList>, t: nat)
    requires Ready(store, c, q, ls) && t < |store|
    ensures t < |ls| == |q.terms| && Tracks(store[t], q.terms[t].info, ls[t])
  {
    hide Tracks;
  }

  method OnPivot(c: CodecKind, q: Query, ghost ls: seq<PostingList>, cur: Cursor, t: nat, d: u32) returns (s: real)
    requires ValidQuery(c, q, ls) && t < |ls| && Tracks(cur, q.terms[t].info, ls[t]) && cur.doc == d < END
    ensures d in ls[t].docs && s == Parts(q, ls, d)[t]
  {
    hide Stores, Bounded, Parts, Cursor.Loaded;
    assert ls[t].docs[cur.At()] == d;
    PartsOf(c, q, ls, d, t);
    s := q.sc.contrib(q.terms[t].weight, d, cur.Tf());
  }

  /** At the frontier the lists on the pivot are all the lists that hold it, and the sum is its score. */
  lemma RunIsScore(m: Arithmetic, c: CodecKind, q: Query, ls: seq<PostingList>, store: seq<Cursor>, tix: seq<nat>,
                   r: nat, d: nat, contrib: seq<real>, hit: seq<bool>)
    requires ValidQuery(c, q, ls) && Ready(store, c, q, ls) && AllBehind(store, d) && d < END
    requires Permutation(tix, |ls|) && Run(store, tix, r, d) && Taken(q, ls, tix, r, d, contrib, hit)
    ensures m.rf(Fold(m, contrib, hit, |ls|)) == Score(m, c, q, ls, d)
  {
    hide Parts, Stores, Bounded, Fold, Cursor.Valid, Cursor.Behind;
    forall t | 0 <= t < |ls| ensures hit[t] == Hits(ls, d)[t] && (hit[t] ==> contrib[t] == Parts(q, ls, d)[t]) {
      assert t in tix;
      var j :| 0 <= j < |tix| && tix[j] == t;
      if j >= r {
        assert Tracks(store[t], q.terms[t].info, ls[t]) && store[tix[j]].doc > d;
        CursorHit(store[t], d, d);
      }
    }
    assert hit == Hits(ls, d);
    FoldAgrees(m, contrib, Parts(q, ls, d), hit, |ls|);
  }

  lemma ListRanked(heap: seq<ScoredDoc>, k: nat, m: Arithmetic, c: CodecKind, q: Query, ls: seq<PostingList>, g: nat,
                   f: nat)
    requires ValidQuery(c, q, ls) && Settled(heap, k, m, c, q, ls, g, f)
    ensures Ranked(heap)
  {
  }

  /** Offer the pivot, which is the frontier: each document is scored at most once, in increasing order. */
  method OfferPivot(m: Arithmetic, c: CodecKind, q: Query, ghost ls: seq<PostingList>, store: seq<Cursor>,
                    tix: seq<nat>, d: u32, top: TopK, contrib0: seq<real>, ghost g: nat)
    returns (contrib: seq<real>, ghost r: nat)
    requires Ieee(m) && ValidQuery(c, q, ls) && Ready(store, c, q, ls) && AllBehind(store, d)
    requires Permutation(tix, |store|) && DocOrder(store, tix)
    requires 0 < |store| == |contrib0| && store[tix[0]].doc == d < END && g <= d
    requires top.Valid() && Settled(top.heap, top.k, m, c, q, ls, g, d)
    modifies top
    ensures |contrib| == |store| && Run(store, tix, r, d)
    ensures top.Valid() && Settled(top.heap, top.k, m, c, q, ls, d + 1, d + 1)
    ensures top.heap == Offer(old(top.heap), top.k, ScoredDoc(d, Score(m, c, q, ls, d)))
    ensures Raised(old(top.heap), top.heap, top.k)
  {
    hide *;
    var hit;
    contrib, hit, r := TakeRun(c, q, ls, store, tix, d, contrib0);
    OnDocMatches(store, c, q, ls, tix[0], d);
    var s := CanonicalSum(m, contrib, hit);
    RunIsScore(m, c, q, ls, store, tix, r, d, contrib, hit);
    SettlePush(top.heap, top.k, m, c, q, ls, g, d);
    ListRanked(top.heap, top.k, m, c, q, ls, g, d);
    OfferRaises(top.heap, top.k, ScoredDoc(d, s));
    var _ := top.Push(d, s);
  }

  /** The lists on the pivot, of which the first `i` have stepped past it. */
  ghost predicate Stepping(store: seq<Cursor>, tix: seq<nat>, i: nat, r: nat, d: nat, f: nat, f': nat, lefts: seq<nat>)
    reads store
    requires Permutation(tix, |store|) && |lefts| == |store|
  {
    && i <= r <= |store|
    && (forall j :: 0 <= j < i ==> SteppedPast(store[tix[j]], f', lefts[tix[j]], d))
    && (forall j :: i <= j < |store| ==> Kept(store[tix[j]], f, lefts[tix[j]]))
    && (forall j :: i <= j < r ==> store[tix[j]].doc == d)
    && (forall j :: r <= j < |store| ==> store[tix[j]].doc > d)
  }

  ghost predicate SteppedPast(cur: Cursor, f: nat, left: nat, d: nat)
    reads cur
  {
    Kept(cur, f, left) && Left(cur) < left && cur.doc > d
  }

  /** Move every list on the pivot past it. */
  method StepRun(c: CodecKind, q: Query, ghost ls: seq<PostingList>, store: seq<Cursor>, tix: seq<nat>, d: u32,
                 ghost r: nat)
    requires Ready(store, c, q, ls) && AllBehind(store, d) && Permutation(tix, |store|) && Run(store, tix, r, d)
    requires d < END
    modifies store
    ensures Ready(store, c, q, ls) && AllBehind(store, d + 1) && AllFrom(store, d + 1)
    ensures Sum(AllLeft(store)) < Sum(old(AllLeft(store)))
  {
    hide *;
    ghost var lefts, f, f' := AllLeft(store), d, d + 1;
    StartStepping(store, tix, r, d, f, f', lefts);
    var i := 0;
    while i < |store| && store[tix[i]].Doc() == d
      invariant i <= |store| && Ready(store, c, q, ls) && Stepping(store, tix, i, r, d, f, f', lefts)
    {
      StepNext(c, q, ls, store, tix, i, d, r, f, f', lefts);
      i := i + 1;
    }
    RunPassed(store, tix, i, r, d, f, f', lefts);
  }

  lemma StartStepping(store: seq<Cursor>, tix: seq<nat>, r: nat, d: nat, f: nat, f': nat, lefts: seq<nat>)
    requires Permutation(tix, |store|) && lefts == AllLeft(store) && AllBehind(store, f) && Run(store, tix, r, d)
    ensures Stepping(store, tix, 0, r, d, f, f', lefts) && 0 < r
  {
    hide Cursor.Valid, Cursor.At, Cursor.Behind, Left, Covers;
  }

  method StepNext(c: CodecKind, q: Query, ghost ls: seq<PostingList>, store: seq<Cursor>, tix: seq<nat>, i: nat,
                  d: u32, ghost r: nat, ghost f: nat, ghost f': nat, ghost lefts: seq<nat>)
    requires Ready(store, c, q, ls) && Permutation(tix, |store|) && |lefts| == |store| && i < |store| && d < END
    requires f <= f' && d < f' && Stepping(store, tix, i, r, d, f, f', lefts) && store[tix[i]].doc == d
    modifies store
    ensures Ready(store, c, q, ls) && Stepping(store, tix, i + 1, r, d, f, f', lefts)
  {
    hide Cursor.Valid, Cursor.At, Cursor.Behind, Left, Stores, ValidList, Covers;
    StepPast(store[tix[i]], q.terms[tix[i]].info, ls[tix[i]], f, f');
  }

  lemma RunPassed(store: seq<Cursor>, tix: seq<nat>, i: nat, r: nat, d: nat, f: nat, f': nat, lefts: seq<nat>)
    requires Permutation(tix, |store|) && |lefts| == |store| && i <= |store| && f <= f' && 0 < r
    requires Stepping(store, tix, i, r, d, f, f', lefts) && (i < |store| ==> store[tix[i]].doc != d)
    ensures AllBehind(store, f') && AllFrom(store, d + 1) && Sum(AllLeft(store)) < Sum(lefts)
  {
    hide Cursor.Valid, Cursor.At, Cursor.Behind, Left, Sum;
    forall t | 0 <= t < |store| ensures Kept(store[t], f', lefts[t]) && store[t].doc > d {
      assert t in tix;
      var j :| 0 <= j < |tix| && tix[j] == t;
      if j >= i {
        assert Kept(store[tix[j]], f, lefts[tix[j]]);
        BehindLater(store[t], f, f');
      } else {
        assert SteppedPast(store[tix[j]], f', lefts[tix[j]], d);
      }
    }
    assert SteppedPast(store[tix[0]], f', lefts[tix[0]], d);
    SumFalls(AllLeft(store), lefts, tix[0]);
  }

  // ---------------------------------------------------------------------------------------------
  // The whole run
  // ---------------------------------------------------------------------------------------------

  /** The listed documents, increasing from `g`, with the last one on the pivot at position `p`. */
  ghost predicate Lined(docs: seq<nat>, tix: seq<nat>, p: nat, pivot: nat, g: nat)
    requires Permutation(tix, |docs|)
  {
    && p < |docs| && docs[tix[p]] == pivot
    && (forall t :: 0 <= t < |docs| ==> docs[t] >= g)
    && (forall i, j :: 0 <= i < j < |docs| ==> docs[tix[i]] <= docs[tix[j]])
    && (forall j :: p < j < |docs| ==> docs[tix[j]] > pivot)
  }

  lemma LineUp(store: seq<Cursor>, tix: seq<nat>, p: nat, pivot: nat, g: nat, docs: seq<nat>, lefts: seq<nat>)
    requires Permutation(tix, |store|) && Still(store, docs, lefts) && Lined(docs, tix, p, pivot, g)
    ensures DocOrder(store, tix) && AllFrom(store, g) && p < |store| && store[tix[p]].doc == pivot && g <= pivot
    ensures forall j :: 0 <= j <= p ==> store[tix[j]].doc <= pivot
    ensures forall j :: p < j < |store| ==> store[tix[j]].doc > pivot
    ensures AllLeft(store) == lefts
  {
    assert docs[tix[p]] >= g;
  }

  /** The last list on the pivot's document. */
  method ExtendPivot(c: CodecKind, q: Query, ghost ls: seq<PostingList>, store: seq<Cursor>, tix: seq<nat>, p0: nat,
                     ghost g: nat, ghost f: nat) returns (p: nat)
    requires InOrder(store, c, q, ls, tix, g, f) && p0 < |store|
    ensures p0 <= p < |store| && Lined(AllDocs(store), tix, p, store[tix[p0]].doc, g)
    ensures forall j :: p0 <= j < |store| ==> store[tix[j]].doc >= store[tix[p0]].doc
  {
    hide Permutation, Ready, AllBehind;
    p := p0;
    while p + 1 < |store| && store[tix[p + 1]].Doc() == store[tix[p0]].Doc()
      invariant p0 <= p < |store| && store[tix[p]].doc == store[tix[p0]].doc
    {
      p := p + 1;
    }
  }

  lemma InOrderParts(store: seq<Cursor>, c: CodecKind, q: Query, ls: seq<PostingList>, tix: seq<nat>, g: nat, f: nat)
    requires InOrder(store, c, q, ls, tix, g, f)
    ensures Ready(store, c, q, ls) && AllBehind(store, f) && AllFrom(store, g) && DocOrder(store, tix)
  {
  }

  lemma BehindAll(store: seq<Cursor>, f: nat, f': nat)
    requires AllBehind(store, f) && f <= f'
    ensures AllBehind(store, f')
  {
    hide Cursor.Valid, Cursor.At, Cursor.Behind;
    forall t | 0 <= t < |store| ensures store[t].Valid() && store[t].Behind(f') {
      BehindLater(store[t], f, f');
    }
  }

  /** The pivot lists are the ones a skip to `f` left behind: they are blocked again. */
  ghost predicate Stuck(m: Arithmetic, q: Query, store: seq<Cursor>, tix: seq<nat>, heap: seq<ScoredDoc>, k: nat,
                        pivot: nat, f: nat, p: nat)
    reads store
  {
    && 0 < k && |store| == |q.terms| && Permutation(tix, |store|) && AllValid(store)
    && Blocked(m, Shares(q, store), AllDocs(store), Lasts(store), tix, heap, k, pivot, f, p + 1)
  }

  /** A skip to `f` with pivot `last` left some lists blocked at or before the pivot. */
  ghost predicate LeftBlocked(m: Arithmetic, q: Query, store: seq<Cursor>, tix: seq<nat>, heap: seq<ScoredDoc>, k: nat,
                              last: nat, f: nat)
    reads store
  {
    && 0 < k && |store| == |q.terms| && Permutation(tix, |store|) && AllValid(store)
    && exists n :: Blocked(m, Shares(q, store), AllDocs(store), Lasts(store), tix, heap, k, last, f, n)
  }

  lemma StuckParts(m: Arithmetic, q: Query, store: seq<Cursor>, tix: seq<nat>, heap: seq<ScoredDoc>, k: nat, pivot: nat,
                   f: nat, p: nat)
    requires Stuck(m, q, store, tix, heap, k, pivot, f, p)
    ensures Permutation(tix, |store|) && |store| == |q.terms| && AllValid(store) && 0 < k
    ensures Blocked(m, Shares(q, store), AllDocs(store), Lasts(store), tix, heap, k, pivot, f, p + 1)
  {
  }

  /** Lists that are blocked again give the same bound as before, or less. */
  lemma StuckCannotBeat(m: Arithmetic, q: Query, store: seq<Cursor>, docs: seq<nat>, tix: seq<nat>,
                        heap: seq<ScoredDoc>, k: nat, pivot: nat, f: nat, p: nat, v: seq<real>, bsum: real,
                        v0: seq<real>, lasts0: seq<nat>)
    requires 0 < k && |store| == |q.terms| == |docs| == |v0| == |lasts0| && Permutation(tix, |store|) && p < |store|
    requires Blocked(m, v0, docs, lasts0, tix, heap, k, pivot, f, p + 1) && f <= END
    requires Repeated(q, store, tix, p + 1, pivot, v, v0, lasts0) && |v| == |store| && BlockNear(m, tix, v, p + 1, bsum)
    requires forall t :: 0 <= t < |store| ==> store[t].doc == docs[t]
    ensures CannotBeat(m, heap, k, bsum) && NextLimit(store, tix, p, f)
  {
    hide Near, SumAt, Cursor.Valid, Cursor.BlockLast, BlockMax, Covers, CannotBeat, RoundedSum;
    RoundedAgrees(m, v, v0, tix, p + 1);
  }

  lemma FromStore(store: seq<Cursor>, tix: seq<nat>)
    requires Permutation(tix, |store|) && DocOrder(store, tix)
    ensures InDocOrder(AllDocs(store), tix)
  {
    hide Covers, Distinct;
  }

  lemma StillDocs(store: seq<Cursor>, docs: seq<nat>, lefts: seq<nat>)
    requires Still(store, docs, lefts)
    ensures AllDocs(store) == docs && forall t :: 0 <= t < |store| ==> store[t].doc == docs[t]
  {
  }

  /** Lines 372 to 396: when the block bounds of the pivot lists cannot beat the list, skip. */
  method TrySkip(m: Arithmetic, c: CodecKind, q: Query, ghost ls: seq<PostingList>, store: seq<Cursor>, tix0: seq<nat>,
                 p: nat, pivot: u32, top: TopK, ghost g: nat, ghost f0: nat)
    returns (skipped: bool, tix: seq<nat>, ghost f: nat)
    requires Ieee(m) && ValidQuery(c, q, ls) && Ready(store, c, q, ls) && AllBehind(store, f0) && f0 <= END
    requires Permutation(tix0, |store|) && |store| == |ls| == |q.terms| && Lined(AllDocs(store), tix0, p, pivot, g)
    requires pivot <= f0 && pivot < END && p < |store| && ShallowTo(store, pivot)
    requires top.Valid() && Settled(top.heap, top.k, m, c, q, ls, g, f0)
    requires f0 == pivot || Stuck(m, q, store, tix0, top.heap, top.k, pivot, f0, p)
    modifies store
    ensures f0 <= f <= END && Settled(top.heap, top.k, m, c, q, ls, g, f)
    ensures skipped ==> InOrder(store, c, q, ls, tix, g, f) && Sum(AllLeft(store)) < Sum(old(AllLeft(store)))
    ensures skipped ==> ShallowTo(store, pivot) && MovedTo(old(AllDocs(store)), AllDocs(store), pivot)
                        && StableSort(AllDocs(store), tix0, tix)
                        && LeftBlocked(m, q, store, tix, top.heap, top.k, pivot, f)
    ensures !skipped ==> tix == tix0 && f == f0 == pivot && Ready(store, c, q, ls) && AllBehind(store, f)
                         && Still(store, old(AllDocs(store)), old(AllLeft(store))) && ShallowTo(store, pivot)
  {
    hide *;
    tix, f := tix0, f0;
    ghost var docs, lefts := AllDocs(store), AllLeft(store);
    ReadyIsValid(store, c, q, ls);
    ghost var v0, lasts0 := Shares(q, store), Lasts(store);
    if f0 > pivot {
      StuckParts(m, q, store, tix, top.heap, top.k, pivot, f0, p);
    }
    var bsum;
    ghost var v;
    bsum, v := BlockSum(m, c, q, ls, store, tix, p, pivot, f0);
    ReadyIsValid(store, c, q, ls);
    StillDocs(store, docs, lefts);
    skipped := CannotBeatTop(m, top, bsum);
    if f0 > pivot {
      StuckCannotBeat(m, q, store, docs, tix, top.heap, top.k, pivot, f0, p, v, bsum, v0, lasts0);
    }
    if skipped {
      LineUp(store, tix, p, pivot, g, docs, lefts);
      var next, adv := NextTarget(q, store, tix, p, pivot, v);
      assert f0 > pivot ==> NextLimit(store, tix, p, f0);
      assert f0 <= next;
      BelowNext(m, c, q, ls, store, tix, p, pivot, f0, next, v, bsum, top.heap, top.k);
      f := next;
      SettleUpTo(top.heap, top.k, m, c, q, ls, g, f0, next);
      tix := Skip(m, c, q, ls, store, tix0, p, pivot, next, adv, top.heap, top.k, g, f0, v, bsum);
    }
  }

  /** The skip itself: what it leaves behind stays blocked. */
  method Skip(m: Arithmetic, c: CodecKind, q: Query, ghost ls: seq<PostingList>, store: seq<Cursor>, tix0: seq<nat>,
              p: nat, pivot: u32, next: u32, adv: nat, ghost heap: seq<ScoredDoc>, ghost k: nat, ghost g: nat,
              ghost f0: nat, ghost v: seq<real>, ghost bsum: real)
    returns (tix: seq<nat>)
    requires Ieee(m) && ValidQuery(c, q, ls) && Ready(store, c, q, ls) && AllBehind(store, f0) && AllFrom(store, g)
    requires Permutation(tix0, |store|) && |store| == |ls| == |q.terms| == |v| && DocOrder(store, tix0)
    requires ShallowTo(store, pivot)
    requires adv <= p < |store| && store[tix0[p]].doc == pivot < next && f0 <= next
    requires forall j :: 0 <= j <= p ==> store[tix0[j]].doc <= pivot
    requires forall j :: p < j < |store| ==> store[tix0[j]].doc > pivot
    requires Pointed(q, store, tix0, p + 1, pivot, v) && BlockNear(m, tix0, v, p + 1, bsum)
    requires NextLimit(store, tix0, p, next)
    requires 0 < k && CannotBeat(m, heap, k, bsum)
    modifies store
    ensures InOrder(store, c, q, ls, tix, g, next) && Sum(AllLeft(store)) < Sum(old(AllLeft(store)))
    ensures ShallowTo(store, pivot) && MovedTo(old(AllDocs(store)), AllDocs(store), pivot)
    ensures StableSort(AllDocs(store), tix0, tix) && LeftBlocked(m, q, store, tix, heap, k, pivot, next)
  {
    hide *;
    ReadyIsValid(store, c, q, ls);
    ghost var docs, v1, lasts := AllDocs(store), Shares(q, store), Lasts(store);
    SharesPositive(c, q, ls, store);
    FromStore(store, tix0);
    PointedSums(m, q, store, tix0, p, pivot, next, v, bsum);
    AllDocsAre(store);
    tix := SeekAndSort(c, q, ls, store, tix0, tix0[adv], next, f0, g, next, pivot);
    InOrderParts(store, c, q, ls, tix, g, next);
    ReadyIsValid(store, c, q, ls);
    SharesPositive(c, q, ls, store);
    SkippedDocs(q, store, tix0[adv], docs, v1, lasts, pivot, next);
    ghost var n := SkipBlocks(m, v1, lasts, docs, tix0, p, pivot, next, tix0[adv], Shares(q, store), Lasts(store),
                              AllDocs(store), tix, heap, k);
    IsLeftBlocked(m, q, store, tix, heap, k, pivot, next, n);
  }

  lemma AllDocsAre(store: seq<Cursor>)
    ensures forall t :: 0 <= t < |store| ==> AllDocs(store)[t] == store[t].doc
  {
  }

  lemma PointedSums(m: Arithmetic, q: Query, store: seq<Cursor>, tix: seq<nat>, p: nat, pivot: nat, next: nat,
                    v: seq<real>, bsum: real)
    requires Permutation(tix, |store|) && |store| == |q.terms| == |v| && p < |store| && AllValid(store)
    requires Pointed(q, store, tix, p + 1, pivot, v) && BlockNear(m, tix, v, p + 1, bsum)
    requires NextLimit(store, tix, p, next)
    ensures RoundedSum(m, Shares(q, store), tix, p + 1) == bsum
    ensures forall j :: 0 <= j <= p ==> Lasts(store)[tix[j]] >= pivot && next <= Lasts(store)[tix[j]] + 1
    ensures forall j :: p < j < |store| ==> next <= store[tix[j]].doc
  {
    hide Near, SumAt, Cursor.Valid, Cursor.BlockLast, BlockMax, Covers, RoundedSum;
    forall j | 0 <= j <= p ensures Shares(q, store)[tix[j]] == v[tix[j]] && Lasts(store)[tix[j]] >= pivot {
      assert PointedAt(q, store[tix[j]], tix[j], pivot, v[tix[j]]);
    }
    RoundedAgrees(m, v, Shares(q, store), tix, p + 1);
  }

  lemma SkippedDocs(q: Query, store: seq<Cursor>, t: nat, docs: seq<nat>, v: seq<real>, lasts: seq<nat>, pivot: nat,
                    next: nat)
    requires OthersStay(q, store, t, docs, v, lasts) && t < |store| && store[t].doc >= next > pivot && AllValid(store)
    ensures MovedTo(docs, AllDocs(store), pivot) && AllDocs(store)[t] >= next
    ensures |docs| == |v| == |lasts| == |store| && forall u :: 0 <= u < |store| && u != t ==>
              AllDocs(store)[u] == docs[u] && Shares(q, store)[u] == v[u] && Lasts(store)[u] == lasts[u]
  {
    hide Cursor.Valid, Cursor.BlockLast, BlockMax;
    forall u | 0 <= u < |store| && u != t
      ensures AllDocs(store)[u] == docs[u] && Shares(q, store)[u] == v[u] && Lasts(store)[u] == lasts[u]
    {
      assert Alike(q, store[u], u, docs[u], v[u], lasts[u]);
    }
  }

  lemma IsLeftBlocked(m: Arithmetic, q: Query, store: seq<Cursor>, tix: seq<nat>, heap: seq<ScoredDoc>, k: nat,
                      last: nat, f: nat, n: nat)
    requires 0 < k && |store| == |q.terms| && Permutation(tix, |store|) && AllValid(store)
    requires Blocked(m, Shares(q, store), AllDocs(store), Lasts(store), tix, heap, k, last, f, n)
    ensures LeftBlocked(m, q, store, tix, heap, k, last, f)
  {
  }

  lemma SettleUpTo(heap: seq<ScoredDoc>, k: nat, m: Arithmetic, c: CodecKind, q: Query, ls: seq<PostingList>, g: nat,
                   f: nat, d: nat)
    requires Ieee(m) && ValidQuery(c, q, ls) && Settled(heap, k, m, c, q, ls, g, f)
    requires AllDominated(heap, k, m, c, q, ls, f, d)
    ensures Settled(heap, k, m, c, q, ls, g, if f < d then d else f)
  {
    hide *;
    if f < d {
      SettleTo(heap, k, m, c, q, ls, g, f, d);
    }
  }

  /** Lines 398 to 413: score the pivot if every list before it is on it, else bring one list up to it. */
  method ScoreOrAdvance(m: Arithmetic, c: CodecKind, q: Query, ghost ls: seq<PostingList>, store: seq<Cursor>,
                        tix0: seq<nat>, p: nat, pivot: u32, top: TopK, contrib0: seq<real>,
                        ghost docs: seq<nat>, ghost lefts: seq<nat>, ghost g0: nat)
    returns (tix: seq<nat>, contrib: seq<real>, ghost g: nat, ghost f: nat)
    requires Ieee(m) && ValidQuery(c, q, ls) && Ready(store, c, q, ls) && AllBehind(store, pivot)
    requires Permutation(tix0, |store|) && |store| == |ls| == |q.terms| == |docs| && |contrib0| == |store|
    requires Still(store, docs, lefts) && Lined(docs, tix0, p, pivot, g0) && p < |store|
    requires pivot < END && ShallowTo(store, pivot)
    requires top.Valid() && Settled(top.heap, top.k, m, c, q, ls, g0, pivot)
    modifies store, top
    ensures InOrder(store, c, q, ls, tix, g, f) && pivot <= f <= END && |contrib| == |store|
    ensures top.Valid() && Settled(top.heap, top.k, m, c, q, ls, g, f)
    ensures Sum(AllLeft(store)) < Sum(lefts)
    ensures Raised(old(top.heap), top.heap, top.k) && ShallowTo(store, f)
    ensures top.heap == if docs[tix0[0]] == pivot then Offer(old(top.heap), top.k,
                                                        ScoredDoc(pivot, Score(m, c, q, ls, pivot)))
                        else old(top.heap)
    ensures MovedTo(docs, AllDocs(store), pivot) && StableSort(AllDocs(store), tix0, tix)
    ensures (f == pivot || AllFrom(store, f))
  {
    hide *;
    ReadyIsValid(store, c, q, ls);
    LineUp(store, tix0, p, pivot, g0, docs, lefts);
    StillDocs(store, docs, lefts);
    if store[tix0[0]].Doc() == pivot {
      ghost var r;
      contrib, r := OfferPivot(m, c, q, ls, store, tix0, pivot, top, contrib0, g0);
      StepRun(c, q, ls, store, tix0, pivot, r);
      g, f := pivot + 1, pivot + 1;
      tix := SortByDoc(store, tix0);
      Ordered(store, c, q, ls, tix, g, f);
      PastPivot(store, docs, pivot);
    } else {
      g, f := g0, pivot;
      contrib := contrib0;
      FirstBelow(store, tix0, p, pivot);
      var a := p;
      while store[tix0[a]].Doc() == pivot
        invariant 0 <= a <= p
        decreases a
      {
        a := a - 1;
      }
      ghost var v, lasts := Shares(q, store), Lasts(store);
      tix := SeekAndSort(c, q, ls, store, tix0, tix0[a], pivot, pivot, g0, pivot, pivot);
      AdvancedDocs(q, store, tix0[a], docs, v, lasts, pivot);
      SameThreshold(top.heap, top.k);
    }
  }

  lemma SameThreshold(heap: seq<ScoredDoc>, k: nat)
    requires 0 < k
    ensures Raised(heap, heap, k)
  {
  }

  lemma PastPivot(store: seq<Cursor>, docs: seq<nat>, pivot: nat)
    requires |docs| == |store| && AllFrom(store, pivot + 1) && AllBehind(store, pivot + 1)
    ensures MovedTo(docs, AllDocs(store), pivot) && ShallowTo(store, pivot + 1)
  {
    hide Cursor.Valid, Cursor.Behind;
  }

  lemma AdvancedDocs(q: Query, store: seq<Cursor>, t: nat, docs: seq<nat>, v: seq<real>, lasts: seq<nat>, pivot: nat)
    requires OthersStay(q, store, t, docs, v, lasts) && t < |store| && store[t].doc >= pivot
    ensures MovedTo(docs, AllDocs(store), pivot)
  {
    hide Cursor.Valid, Cursor.BlockLast, BlockMax;
    forall u | 0 <= u < |store| && u != t ensures AllDocs(store)[u] == docs[u] {
      assert Alike(q, store[u], u, docs[u], v[u], lasts[u]);
    }
  }

  lemma FirstBelow(store: seq<Cursor>, tix: seq<nat>, p: nat, pivot: nat)
    requires Permutation(tix, |store|) && p < |store| && DocOrder(store, tix) && store[tix[p]].doc == pivot
    requires store[tix[0]].doc != pivot
    ensures store[tix[0]].doc < pivot
  {
    assert p > 0;
  }

  /** Between iterations: no later pivot is below `last`, no list was pointed past it, and the frontier `f` is not
      past it either, unless a skip went there and left only blocked lists behind. */
  ghost predicate Steady(blockMax: bool, m: Arithmetic, q: Query, store: seq<Cursor>, tix: seq<nat>,
                         heap: seq<ScoredDoc>, k: nat, last: nat, f: nat)
    reads store
  {
    && 0 < k && |store| == |q.terms| && Permutation(tix, |store|)
    && Floor(m, q, AllDocs(store), tix, heap, k, last) && ShallowTo(store, last)
    && (f <= last || (blockMax && LeftBlocked(m, q, store, tix, heap, k, last, f)))
  }

  /** `pivot` is the document of the first list at which the cumulative bound could beat the list. */
  ghost predicate IsPivot(m: Arithmetic, q: Query, docs: seq<nat>, tix: seq<nat>, heap: seq<ScoredDoc>, k: nat,
                          pivot: nat, p: nat)
    requires Permutation(tix, |docs|) && |docs| == |q.terms| && 0 < k
  {
    && p < |docs| && docs[tix[p]] == pivot < END && PrefixCannotBeat(m, q, heap, k, tix, p)
    && !CannotBeat(m, heap, k, Cumulative(m, q, tix, p + 1))
  }

  ghost predicate HasPivot(m: Arithmetic, q: Query, docs: seq<nat>, tix: seq<nat>, heap: seq<ScoredDoc>, k: nat,
                           pivot: nat)
    requires Permutation(tix, |docs|) && |docs| == |q.terms| && 0 < k
  {
    exists p :: IsPivot(m, q, docs, tix, heap, k, pivot, p)
  }

  /** A pivot is not below the last one. */
  lemma PivotNotBelow(blockMax: bool, m: Arithmetic, q: Query, store: seq<Cursor>, tix: seq<nat>, heap: seq<ScoredDoc>,
                      k: nat, last: nat, f: nat, p: nat, pivot: nat)
    requires Steady(blockMax, m, q, store, tix, heap, k, last, f)
    requires IsPivot(m, q, AllDocs(store), tix, heap, k, pivot, p)
    ensures last <= pivot && HasPivot(m, q, AllDocs(store), tix, heap, k, pivot) && ShallowTo(store, pivot)
  {
    hide CannotBeat, RoundedSum, PrefixCannotBeat, LeftBlocked, Permutation;
  }

  /** A pivot behind the frontier is one that a skip has just left behind. */
  lemma BehindIsStuck(blockMax: bool, m: Arithmetic, q: Query, store: seq<Cursor>, tix: seq<nat>, heap: seq<ScoredDoc>,
                      k: nat, last: nat, f: nat, p: nat, pivot: nat, g: nat)
    requires Steady(blockMax, m, q, store, tix, heap, k, last, f) && last <= pivot < f
    requires p < |store| && Lined(AllDocs(store), tix, p, pivot, g)
    ensures blockMax && Stuck(m, q, store, tix, heap, k, pivot, f, p)
  {
    hide CannotBeat, RoundedSum, Permutation, Floor, Cursor.Valid;
    var n :| Blocked(m, Shares(q, store), AllDocs(store), Lasts(store), tix, heap, k, last, f, n);
    BlockedPivot(m, Shares(q, store), AllDocs(store), Lasts(store), tix, heap, k, last, f, n, p, pivot);
  }

  /** The lists' documents, what is left of them, their order, and the best so far. */
  datatype Moment = Moment(docs: seq<nat>, lefts: seq<nat>, tix: seq<nat>, heap: seq<ScoredDoc>)

  ghost predicate IsMoment(q: Query, a: Moment, k: nat)
    ensures IsMoment(q, a, k) ==> Permutation(a.tix, |a.docs|) && |a.docs| == |q.terms| && |a.heap| <= k && 0 < k
  {
    Permutation(a.tix, |a.docs|) && |a.docs| == |q.terms| && |a.heap| <= k && 0 < k
  }

  ghost function Now(store: seq<Cursor>, tix: seq<nat>, heap: seq<ScoredDoc>): Moment
    reads store
  {
    Moment(AllDocs(store), AllLeft(store), tix, heap)
  }

  /** The list after a moment whose pivot is `pivot`, if it is offered. */
  ghost function Offering(m: Arithmetic, c: CodecKind, q: Query, ls: seq<PostingList>, k: nat, a: Moment, pivot: nat):
    seq<ScoredDoc>
    requires 0 < k && |a.heap| <= k && ValidQuery(c, q, ls)
  {
    Offer(a.heap, k, ScoredDoc(pivot, Score(m, c, q, ls, pivot)))
  }

  /** What an iteration with its pivot makes of a moment: lists move to the pivot or past it and are sorted again.
      If the first list is on the pivot, the pivot is offered with its score, or a skip made because it cannot
      enter. */
  ghost predicate Follows(blockMax: bool, m: Arithmetic, c: CodecKind, q: Query, ls: seq<PostingList>, k: nat,
                          a: Moment, pivot: nat, b: Moment)
    requires IsMoment(q, a, k) && IsMoment(q, b, k) && ValidQuery(c, q, ls)
  {
    && HasPivot(m, q, a.docs, a.tix, a.heap, k, pivot)
    && MovedTo(a.docs, b.docs, pivot) && Sum(b.lefts) < Sum(a.lefts) && StableSort(b.docs, a.tix, b.tix)
    && (b.heap == a.heap || b.heap == Offering(m, c, q, ls, k, a, pivot))
    && (!blockMax ==> b.heap == if a.docs[a.tix[0]] == pivot then Offering(m, c, q, ls, k, a, pivot) else a.heap)
  }

  /** No list is the first at which the bounds could beat the list. */
  ghost predicate NoneLeft(m: Arithmetic, q: Query, a: Moment, k: nat)
    requires IsMoment(q, a, k)
  {
    forall pivot: nat :: !HasPivot(m, q, a.docs, a.tix, a.heap, k, pivot)
  }

  /** A run: each moment follows from the one before with the pivot between them, from nothing found up to
      `moments`' last. */
  ghost predicate IsRun(blockMax: bool, m: Arithmetic, c: CodecKind, q: Query, ls: seq<PostingList>, k: nat,
                        moments: seq<Moment>, pivots: seq<nat>)
    requires ValidQuery(c, q, ls)
    ensures IsRun(blockMax, m, c, q, ls, k, moments, pivots) ==> moments != [] && IsMoment(q, moments[|moments| - 1], k)
  {
    && |moments| == |pivots| + 1 && moments[0].heap == []
    && (forall i :: 0 <= i < |moments| ==> IsMoment(q, moments[i], k))
    && (forall i :: 0 <= i < |pivots| ==> Follows(blockMax, m, c, q, ls, k, moments[i], pivots[i], moments[i + 1]))
  }

  lemma RunGoesOn(blockMax: bool, m: Arithmetic, c: CodecKind, q: Query, ls: seq<PostingList>, k: nat,
                  moments: seq<Moment>, pivots: seq<nat>, pivot: nat, b: Moment)
    requires ValidQuery(c, q, ls) && IsRun(blockMax, m, c, q, ls, k, moments, pivots) && IsMoment(q, b, k)
    requires Follows(blockMax, m, c, q, ls, k, moments[|moments| - 1], pivot, b)
    ensures IsRun(blockMax, m, c, q, ls, k, moments + [b], pivots + [pivot])
  {
    hide Follows, IsMoment, ValidQuery;
    var more, all := moments + [b], pivots + [pivot];
    forall i | 0 <= i < |all| ensures Follows(blockMax, m, c, q, ls, k, more[i], all[i], more[i + 1]) {
      assert i < |pivots| ==> Follows(blockMax, m, c, q, ls, k, moments[i], pivots[i], moments[i + 1]);
    }
  }

  lemma RunBegins(blockMax: bool, m: Arithmetic, c: CodecKind, q: Query, ls: seq<PostingList>, k: nat, a: Moment)
    requires ValidQuery(c, q, ls) && IsMoment(q, a, k) && a.heap == []
    ensures IsRun(blockMax, m, c, q, ls, k, [a], [])
  {
    hide IsMoment, ValidQuery;
  }

  lemma MomentNow(q: Query, store: seq<Cursor>, tix: seq<nat>, heap: seq<ScoredDoc>, k: nat)
    requires Permutation(tix, |store|) && |store| == |q.terms| && |heap| <= k && 0 < k
    ensures var a := Now(store, tix, heap);
            a == Moment(AllDocs(store), AllLeft(store), tix, heap) && IsMoment(q, a, k)
  {
    hide Covers, Distinct;
  }

  /** An iteration that finds a pivot. */
  lemma FollowsNow(blockMax: bool, m: Arithmetic, c: CodecKind, q: Query, ls: seq<PostingList>, k: nat, a: Moment,
                   pivot: nat, b: Moment)
    requires ValidQuery(c, q, ls) && IsMoment(q, a, k) && IsMoment(q, b, k)
    requires HasPivot(m, q, a.docs, a.tix, a.heap, k, pivot) && MovedTo(a.docs, b.docs, pivot)
    requires Sum(b.lefts) < Sum(a.lefts) && StableSort(b.docs, a.tix, b.tix)
    requires if a.docs[a.tix[0]] == pivot then
               b.heap == Offering(m, c, q, ls, k, a, pivot) || (blockMax && b.heap == a.heap)
             else b.heap == a.heap
    ensures Follows(blockMax, m, c, q, ls, k, a, pivot, b)
  {
    hide HasPivot, MovedTo, Sum, StableSort, Offering, ValidQuery, Covers, Distinct;
  }

  lemma NoPivotIsLeft(m: Arithmetic, q: Query, docs: seq<nat>, tix: seq<nat>, heap: seq<ScoredDoc>, k: nat, e: nat,
                      a: Moment)
    requires Permutation(tix, |docs|) && |docs| == |q.terms| && 0 < k && |heap| <= k && e <= |docs|
    requires PrefixCannotBeat(m, q, heap, k, tix, e) && forall j :: e <= j < |docs| ==> docs[tix[j]] == END
    requires a.docs == docs && a.tix == tix && a.heap == heap
    ensures IsMoment(q, a, k) && NoneLeft(m, q, a, k)
  {
    hide Covers, Distinct, CannotBeat, Cumulative;
    forall pivot: nat ensures !HasPivot(m, q, docs, tix, heap, k, pivot) {
      forall p: nat ensures !IsPivot(m, q, docs, tix, heap, k, pivot, p) {
        if p < e {
          assert CannotBeat(m, heap, k, Cumulative(m, q, tix, p + 1));
        }
      }
    }
  }

  /** One iteration of run_wand's loop.  Its pivot is not below `last0`, and later pivots are not below `last`. */
  method WandStep(blockMax: bool, m: Arithmetic, c: CodecKind, q: Query, ghost ls: seq<PostingList>,
                  store: seq<Cursor>, tix0: seq<nat>, top: TopK, contrib0: seq<real>, ghost g0: nat, ghost f0: nat,
                  ghost last0: nat)
    returns (done: bool, tix: seq<nat>, contrib: seq<real>, ghost g: nat, ghost f: nat, ghost last: nat,
             ghost pivotDoc: nat)
    requires Ieee(m) && ValidQuery(c, q, ls) && InOrder(store, c, q, ls, tix0, g0, f0) && f0 <= END
    requires |contrib0| == |store| && top.Valid() && Settled(top.heap, top.k, m, c, q, ls, g0, f0)
    requires Steady(blockMax, m, q, store, tix0, top.heap, top.k, last0, f0)
    modifies store, top
    ensures top.Valid() && |contrib| == |store|
    ensures done ==> IsAnswer(top.heap, m, c, q, ls, top.k)
    ensures !done ==> InOrder(store, c, q, ls, tix, g, f) && f <= END
                      && Settled(top.heap, top.k, m, c, q, ls, g, f)
                      && Sum(AllLeft(store)) < Sum(old(AllLeft(store)))
    ensures !done ==> last0 <= pivotDoc <= last && Steady(blockMax, m, q, store, tix, top.heap, top.k, last, f)
    ensures IsMoment(q, old(Now(store, tix0, top.heap)), top.k)
    ensures !done ==> IsMoment(q, Now(store, tix, top.heap), top.k)
                      && Follows(blockMax, m, c, q, ls, top.k, old(Now(store, tix0, top.heap)), pivotDoc,
                                 Now(store, tix, top.heap))
    ensures done ==> NoneLeft(m, q, old(Now(store, tix0, top.heap)), top.k) && top.heap == old(top.heap)
  {
    hide *;
    ghost var a := Now(store, tix0, top.heap);
    InOrderParts(store, c, q, ls, tix0, g0, f0);
    MomentNow(q, store, tix0, top.heap, top.k);
    done, tix, contrib, g, f, last, pivotDoc := false, tix0, contrib0, g0, f0, last0, last0;
    InOrderParts(store, c, q, ls, tix, g, f);
    var p;
    ghost var e;
    p, e := FindPivot(m, c, q, ls, store, tix, top);
    if p == |store| {
      NoPivot(m, c, q, ls, store, tix, top.heap, top.k, g, f, e);
      AllDocsAre(store);
      NoPivotIsLeft(m, q, AllDocs(store), tix, top.heap, top.k, e, a);
      done := true;
      return;
    }
    var pivot := store[tix[p]].Doc();
    ghost var p0, heap0 := p, top.heap;
    AllDocsAre(store);
    PivotIs(m, q, AllDocs(store), tix, top.heap, top.k, pivot, p);
    PivotNotBelow(blockMax, m, q, store, tix, top.heap, top.k, last0, f, p, pivot);
    p := ExtendPivot(c, q, ls, store, tix, p, g, f);
    BelowPivot(m, c, q, ls, store, tix, top.heap, top.k, f, e, pivot);
    SettleUpTo(top.heap, top.k, m, c, q, ls, g, f, pivot);
    if f > pivot {
      BehindIsStuck(blockMax, m, q, store, tix, top.heap, top.k, last0, f, p, pivot, g);
    }
    f := if f < pivot then pivot else f;
    BehindAll(store, f0, f);
    ghost var docs, lefts := AllDocs(store), AllLeft(store);
    FromStore(store, tix);
    StillNow(store);
    last, pivotDoc := pivot, pivot;
    if blockMax {
      var skipped;
      skipped, tix, f := TrySkip(m, c, q, ls, store, tix, p, pivot, top, g, f);
      if skipped {
        SameThreshold(top.heap, top.k);
        NextSteady(blockMax, m, c, q, ls, docs, tix0, p0, pivot, heap0, store, tix, top.heap, top.k, f, last);
        InOrderIs(store, c, q, ls, tix, g, f);
        MomentNow(q, store, tix, top.heap, top.k);
        FollowsNow(blockMax, m, c, q, ls, top.k, a, pivot, Now(store, tix, top.heap));
        return;
      }
    }
    tix, contrib, g, f := ScoreOrAdvance(m, c, q, ls, store, tix, p, pivot, top, contrib, docs, lefts, g);
    last := f;
    NextSteady(blockMax, m, c, q, ls, docs, tix0, p0, pivot, heap0, store, tix, top.heap, top.k, f, last);
    InOrderIs(store, c, q, ls, tix, g, f);
    MomentNow(q, store, tix, top.heap, top.k);
    OfferingIs(m, c, q, ls, top.k, a, pivot);
    FollowsNow(blockMax, m, c, q, ls, top.k, a, pivot, Now(store, tix, top.heap));
  }

  lemma OfferingIs(m: Arithmetic, c: CodecKind, q: Query, ls: seq<PostingList>, k: nat, a: Moment, pivot: nat)
    requires 0 < k && |a.heap| <= k && ValidQuery(c, q, ls)
    ensures Offering(m, c, q, ls, k, a, pivot) == Offer(a.heap, k, ScoredDoc(pivot, Score(m, c, q, ls, pivot)))
  {
  }

  lemma InOrderIs(store: seq<Cursor>, c: CodecKind, q: Query, ls: seq<PostingList>, tix: seq<nat>, g: nat, f: nat)
    requires InOrder(store, c, q, ls, tix, g, f)
    ensures Permutation(tix, |store|) && |store| == |ls| == |q.terms|
  {
  }

  lemma PivotIs(m: Arithmetic, q: Query, docs: seq<nat>, tix: seq<nat>, heap: seq<ScoredDoc>, k: nat, pivot: nat,
                p: nat)
    requires Permutation(tix, |docs|) && |docs| == |q.terms| && 0 < k && p < |docs| && docs[tix[p]] == pivot < END
    requires PrefixCannotBeat(m, q, heap, k, tix, p) && !CannotBeat(m, heap, k, Cumulative(m, q, tix, p + 1))
    ensures IsPivot(m, q, docs, tix, heap, k, pivot, p)
  {
  }

  lemma UbsPositive(c: CodecKind, q: Query, ls: seq<PostingList>)
    requires ValidQuery(c, q, ls)
    ensures Amounts(UpperBounds(q))
  {
    hide Stores, Bounded;
    forall t | 0 <= t < |ls| ensures q.terms[t].ub >= 0.0 {
      UbNonNegative(c, q, ls, t);
    }
  }

  /** An iteration ends as it began. */
  lemma NextSteady(blockMax: bool, m: Arithmetic, c: CodecKind, q: Query, ls: seq<PostingList>, docs: seq<nat>,
                   tix0: seq<nat>, p: nat, pivot: nat, heap: seq<ScoredDoc>, store: seq<Cursor>, tix: seq<nat>,
                   heap': seq<ScoredDoc>, k: nat, f: nat, last: nat)
    requires Ieee(m) && ValidQuery(c, q, ls) && Permutation(tix0, |docs|) && |docs| == |q.terms| == |store| && 0 < k
    requires Permutation(tix, |store|) && InDocOrder(docs, tix0) && IsPivot(m, q, docs, tix0, heap, k, pivot, p)
    requires MovedTo(docs, AllDocs(store), pivot) && StableSort(AllDocs(store), tix0, tix) && Raised(heap, heap', k)
    requires ShallowTo(store, last) && (last == pivot || AllFrom(store, last))
    requires f <= last || (blockMax && LeftBlocked(m, q, store, tix, heap', k, last, f))
    ensures Steady(blockMax, m, q, store, tix, heap', k, last, f)
  {
    hide Stores, Bounded, CannotBeat, RoundedSum, Raised, StableSort, LeftBlocked, Ieee, ValidQuery, Covers;
    UbsPositive(c, q, ls);
    if p > 0 {
      assert CannotBeat(m, heap, k, Cumulative(m, q, tix0, p));
    }
    FloorKept(m, q, docs, tix0, p, pivot, heap, AllDocs(store), tix, heap', k);
  }

  /** Without a pivot nothing from the frontier on can enter the list. */
  lemma NoPivot(m: Arithmetic, c: CodecKind, q: Query, ls: seq<PostingList>, store: seq<Cursor>, tix: seq<nat>,
                heap: seq<ScoredDoc>, k: nat, g: nat, f: nat, e: nat)
    requires Ieee(m) && ValidQuery(c, q, ls) && Ready(store, c, q, ls) && Permutation(tix, |ls|) && 0 < k && |heap| <= k
    requires AllBehind(store, f) && e <= |ls| && PrefixCannotBeat(m, q, heap, k, tix, e)
    requires forall j :: e <= j < |ls| ==> store[tix[j]].doc == END
    requires f <= END && Settled(heap, k, m, c, q, ls, g, f)
    ensures IsAnswer(heap, m, c, q, ls, k)
  {
    hide *;
    BelowPivot(m, c, q, ls, store, tix, heap, k, f, e, END);
    SettleTo(heap, k, m, c, q, ls, g, f, END);
    SettledIsAnswer(heap, k, m, c, q, ls, g);
  }

  ghost predicate NeverFalls(pivots: seq<nat>) {
    forall i, j :: 0 <= i < j < |pivots| ==> pivots[i] <= pivots[j]
  }

  /** run_wand, with and without block-max bounds, finds the same list as scoring every document.  Its iterations
      go from moment to moment, the pivots between them never fall, and it stops where there is none. */
  method RunWand(blockMax: bool, m: Arithmetic, c: CodecKind, q: Query, ghost ls: seq<PostingList>, top: TopK)
    returns (ghost moments: seq<Moment>, ghost pivots: seq<nat>)
    requires Ieee(m) && ValidQuery(c, q, ls) && top.Valid() && top.heap == []
    modifies top
    ensures top.Valid() && IsAnswer(top.heap, m, c, q, ls, top.k) && NeverFalls(pivots)
    ensures IsRun(blockMax, m, c, q, ls, top.k, moments, pivots) && moments[0].docs == FirstDocs(ls)
    ensures NoneLeft(m, q, moments[|moments| - 1], top.k) && moments[|moments| - 1].heap == top.heap
  {
    hide *;
    var store := InitCursors(c, q, ls);
    var contrib := seq(|store|, _ => 0.0);
    FirstOrder(|store|);
    var tix := SortByDoc(store, seq(|store|, i => i));
    Ordered(store, c, q, ls, tix, 0, 0);
    ghost var g: nat, f: nat, last: nat := 0, 0, 0;
    EmptySettled(top.k, m, c, q, ls);
    FirstSteady(blockMax, m, q, store, tix, top.heap, top.k);
    MomentNow(q, store, tix, top.heap, top.k);
    AllDocsAre(store);
    FirstDocsAre(ls, AllDocs(store));
    moments, pivots := [Now(store, tix, top.heap)], [];
    RunBegins(blockMax, m, c, q, ls, top.k, Now(store, tix, top.heap));
    NoPivots();
    while true
      invariant top.Valid() && fresh(store) && |contrib| == |store|
      invariant InOrder(store, c, q, ls, tix, g, f) && f <= END
      invariant Settled(top.heap, top.k, m, c, q, ls, g, f)
      invariant Steady(blockMax, m, q, store, tix, top.heap, top.k, last, f)
      invariant NeverFalls(pivots) && forall i :: 0 <= i < |pivots| ==> pivots[i] <= last
      invariant IsRun(blockMax, m, c, q, ls, top.k, moments, pivots) && moments[0].docs == FirstDocs(ls)
      invariant moments[|moments| - 1] == Now(store, tix, top.heap)
      decreases Sum(AllLeft(store))
    {
      var done;
      ghost var pivot;
      MomentNow(q, store, tix, top.heap, top.k);
      done, tix, contrib, g, f, last, pivot := WandStep(blockMax, m, c, q, ls, store, tix, top, contrib, g, f, last);
      if done {
        return;
      }
      NextPivot(pivots, pivot);
      RunGoesOn(blockMax, m, c, q, ls, top.k, moments, pivots, pivot, Now(store, tix, top.heap));
      moments, pivots := moments + [Now(store, tix, top.heap)], pivots + [pivot];
    }
  }

  /** Every list begins with its first document. */
  ghost function FirstDocs(ls: seq<PostingList>): (docs: seq<nat>)
  {
    seq(|ls|, t requires 0 <= t < |ls| => if ls[t].docs == [] then END else ls[t].docs[0])
  }

  lemma FirstDocsAre(ls: seq<PostingList>, docs: seq<nat>)
    requires |docs| == |ls| && forall t :: 0 <= t < |ls| ==> ls[t].docs != [] && docs[t] == ls[t].docs[0]
    ensures docs == FirstDocs(ls)
  {
  }

  lemma NoPivots()
    ensures NeverFalls([])
  {
  }

  lemma NextPivot(pivots: seq<nat>, pivot: nat)
    requires NeverFalls(pivots) && forall i :: 0 <= i < |pivots| ==> pivots[i] <= pivot
    ensures NeverFalls(pivots + [pivot])
  {
  }

  lemma FirstSteady(blockMax: bool, m: Arithmetic, q: Query, store: seq<Cursor>, tix: seq<nat>, heap: seq<ScoredDoc>,
                    k: nat)
    requires 0 < k && |store| == |q.terms| && Permutation(tix, |store|) && AllBehind(store, 0)
    ensures Steady(blockMax, m, q, store, tix, heap, k, 0, 0)
  {
    hide Cursor.Valid, Cursor.Behind, Permutation;
  }

  lemma FirstOrder(n: nat)
    ensures Permutation(seq(n, i => i), n)
  {
    var s := seq(n, i => i);
    forall t | 0 <= t < n ensures t in s {
      assert s[t] == t;
    }
  }
}
