/** LexicalIndex::search of engine/src/lexical/search.cc over terms that the builder wrote: the stored
    bounds are true, so all five query algorithms return the same list. */
module Search {
  import opened Bits
  import opened Codec
  import opened Postings
  import opened Bm25
  import opened TermBuilder
  import opened Rounding
  import opened Ranking
  import opened BoundedHeap
  import opened Scoring
  import opened TermAtATime
  import DocAtATime
  import MaxScore
  import Wand

  datatype Algorithm = Exhaustive | Daat | MaxScoreAlgorithm | WandAlgorithm | BlockMaxWand

  // ---------------------------------------------------------------------------------------------
  // Bounds
  // ---------------------------------------------------------------------------------------------

  /** The pair a bound is computed from: the best posting of the query's model under the build
      parameters, the largest frequency and shortest length under any others. */
  function BoundPair(exact: bool, model: Model, bound: BoundInfo): Best {
    if !exact then Best(bound.maxTf, bound.minDl) else if model == Lucene then bound.lucene else bound.textbook
  }

  /** Scorer::contrib and Scorer::bound. */
  function Bm25Scorer(col: Collection, n: Norms, exact: bool): Scorer
    requires n.avgdl > 0.0
  {
    Scorer((w: real, d: nat, tf: nat) => if d < |col.dls| then TermScore(col.rf, n, w, tf, col.dls[d]) else 0.0,
           (w: real, bound: BoundInfo) =>
             var p := BoundPair(exact, n.model, bound); TermScore(col.rf, n, w, p.tf, p.dl))
  }

  /** A query's model parameters on a collection: exact bounds are used only under the build parameters. */
  ghost predicate ModelNorms(col: Collection, n: Norms, exact: bool)
    ensures ModelNorms(col, n, exact) ==> n.avgdl == col.avgdl
  {
    n.avgdl == col.avgdl && (exact <==> n.k1 == col.k1 && n.b == col.b)
  }

  /** No document's K is negative. */
  ghost predicate QueryNorms(col: Collection, n: Norms, exact: bool)
    ensures QueryNorms(col, n, exact) ==> ModelNorms(col, n, exact)
  {
    && ModelNorms(col, n, exact)
    && (forall d :: 0 <= d < |col.dls| && col.dls[d] > 0 ==> SafeNorms(col.rf, n, col.dls[d]))
  }

  /** With b between 0 and 1 the parameters are always fine. */
  lemma UsualQueryNorms(col: Collection, n: Norms)
    requires ValidCollection(col) && n.avgdl == col.avgdl && n.k1 > 0.0 && 0.0 <= n.b <= 1.0
    ensures QueryNorms(col, n, n.k1 == col.k1 && n.b == col.b)
  {
    forall d | 0 <= d < |col.dls| && col.dls[d] > 0 ensures SafeNorms(col.rf, n, col.dls[d]) {
      UsualNormsSafe(col.rf, n, col.dls[d]);
    }
  }

  /** K is not negative at the shortest length below a bound, and so at none. */
  ghost predicate SafeBound(col: Collection, n: Norms, exact: bool, bound: BoundInfo) {
    exact || SafeNorms(col.rf, n, bound.minDl)
  }

  /** Below the bound of a part of a list K is negative at no length either. */
  lemma SafePart(col: Collection, n: Norms, exact: bool, l: PostingList, whole: BoundInfo, lo: nat, hi: nat,
                 part: BoundInfo)
    requires ValidCollection(col) && Fits(col, l.docs, l.tfs) && lo <= hi <= |l.docs|
    requires BoundTrue(col, l, 0, |l.docs|, whole) && BoundTrue(col, l, lo, hi, part) && SafeBound(col, n, exact, whole)
    ensures SafeBound(col, n, exact, part)
  {
    hide SafeNorms, BestIs;
    var j :| lo <= j < hi && col.dls[l.docs[j]] == part.minDl;
    if !exact {
      SafeLonger(col.rf, n, whole.minDl, part.minDl);
    }
  }

  lemma SafeEverywhere(col: Collection, n: Norms, exact: bool, l: PostingList, lo: nat, hi: nat, bound: BoundInfo)
    requires ValidCollection(col) && QueryNorms(col, n, exact) && Fits(col, l.docs, l.tfs) && lo <= hi <= |l.docs|
    requires BoundTrue(col, l, lo, hi, bound)
    ensures SafeBound(col, n, exact, bound)
  {
    hide SafeNorms, BestIs;
    var j :| lo <= j < hi && col.dls[l.docs[j]] == bound.minDl;
  }

  /** K is negative at no length of a bound's range. */
  lemma SafeBelow(col: Collection, n: Norms, exact: bool, l: PostingList, lo: nat, hi: nat, bound: BoundInfo, i: nat)
    requires ValidCollection(col) && ModelNorms(col, n, exact) && SafeBound(col, n, exact, bound)
    requires Fits(col, l.docs, l.tfs) && hi <= |l.docs| && BoundTrue(col, l, lo, hi, bound) && lo <= i < hi
    ensures SafeNorms(col.rf, n, col.dls[l.docs[i]])
  {
    hide SafeNorms, BestIs, Denominator, FloatRounding;
    if exact {
      UsualNormsSafe(col.rf, n, col.dls[l.docs[i]]);
    } else {
      SafeLonger(col.rf, n, bound.minDl, col.dls[l.docs[i]]);
    }
  }

  /** A stored bound is an upper bound of every contribution in its range, for any weight, under the build
      parameters, and under any others that leave K not negative at the shortest length below the bound. */
  lemma BoundIsUpper(col: Collection, n: Norms, exact: bool, l: PostingList, lo: nat, hi: nat, bound: BoundInfo,
                     w: real, i: nat)
    requires ValidCollection(col) && ModelNorms(col, n, exact) && SafeBound(col, n, exact, bound) && w >= 0.0
    requires col.rf(w) == w
    requires Fits(col, l.docs, l.tfs) && hi <= |l.docs| && BoundTrue(col, l, lo, hi, bound) && lo <= i < hi
    ensures var p := BoundPair(exact, n.model, bound);
            0.0 <= TermScore(col.rf, n, w, l.tfs[i], col.dls[l.docs[i]]) <= TermScore(col.rf, n, w, p.tf, p.dl)
  {
    hide TermScore, FloatRounding, SafeNorms, BoundsOf;
    SafeBelow(col, n, exact, l, lo, hi, bound, i);
    var x0: real, x1: real :| BoundsOf(col, l.docs, l.tfs, lo, hi, Bounds(bound, x0, x1));
    var dl := col.dls[l.docs[i]];
    TermMonotone(col.rf, n, w, l.tfs[i], dl, l.tfs[i], dl);
    if exact {
      ExactTerm(col, n, l, lo, hi, Bounds(bound, x0, x1), w, i);
    } else {
      SafeTerm(col, n, l, lo, hi, Bounds(bound, x0, x1), w, i);
    }
  }

  /** Under the build parameters every K is positive, and the best posting scores highest. */
  lemma ExactTerm(col: Collection, n: Norms, l: PostingList, lo: nat, hi: nat, bs: Bounds, w: real, i: nat)
    requires ValidCollection(col) && n == BuildNorms(col, n.model) && w >= 0.0 && col.rf(w) == w
    requires Fits(col, l.docs, l.tfs) && lo <= i < hi <= |l.docs| && BoundsOf(col, l.docs, l.tfs, lo, hi, bs)
    ensures var p := BoundPair(true, n.model, bs.info);
            TermScore(col.rf, n, w, l.tfs[i], col.dls[l.docs[i]]) <= TermScore(col.rf, n, w, p.tf, p.dl)
  {
    hide ScoreScaled, ScaledTf, Inv, FloatRounding, SafeNorms, BoundsOf, Denominator;
    var dl, p := col.dls[l.docs[i]], BoundPair(true, n.model, bs.info);
    BestIsLong(col, n, l, lo, hi, bs);
    UsualNormsSafe(col.rf, n, dl);
    UsualNormsSafe(col.rf, n, p.dl);
    InvAntitone(col.rf, n, dl, dl);
    ScaledMonotone(col.rf, l.tfs[i], Inv(col.rf, n, dl), l.tfs[i], Inv(col.rf, n, dl));
    ExactPair(col, n, l, lo, hi, bs, i);
    ScoreMonotone(col.rf, w, ScaledTf(col.rf, l.tfs[i], Inv(col.rf, n, dl)),
      ScaledTf(col.rf, p.tf, Inv(col.rf, n, p.dl)));
  }

  lemma BestIsLong(col: Collection, n: Norms, l: PostingList, lo: nat, hi: nat, bs: Bounds)
    requires ValidCollection(col) && Fits(col, l.docs, l.tfs) && lo < hi <= |l.docs|
    requires BoundsOf(col, l.docs, l.tfs, lo, hi, bs)
    ensures BoundPair(true, n.model, bs.info).dl > 0
  {
    hide Scaled;
    var best, x := BoundPair(true, n.model, bs.info), if n.model == Lucene then bs.x0 else bs.x1;
    assert BestIs(col, n.model, l.docs, l.tfs, lo, hi, best, x);
    var j :| lo <= j < hi && IsBest(col, n.model, l.docs, l.tfs, j, best, x);
  }

  lemma ExactPair(col: Collection, n: Norms, l: PostingList, lo: nat, hi: nat, bs: Bounds, i: nat)
    requires ValidCollection(col) && n == BuildNorms(col, n.model)
    requires Fits(col, l.docs, l.tfs) && lo <= i < hi <= |l.docs| && BoundsOf(col, l.docs, l.tfs, lo, hi, bs)
    ensures var p := BoundPair(true, n.model, bs.info);
            ScaledTf(col.rf, l.tfs[i], Inv(col.rf, n, col.dls[l.docs[i]]))
            <= ScaledTf(col.rf, p.tf, Inv(col.rf, n, p.dl))
  {
    hide ScaledTf, Inv, FloatRounding, Extremes;
    var best, x := BoundPair(true, n.model, bs.info), if n.model == Lucene then bs.x0 else bs.x1;
    assert BestIs(col, n.model, l.docs, l.tfs, lo, hi, best, x);
    var j :| lo <= j < hi && IsBest(col, n.model, l.docs, l.tfs, j, best, x);
    assert Scaled(col, n.model, l.docs, l.tfs, i) <= Scaled(col, n.model, l.docs, l.tfs, j);
  }

  lemma SafeTerm(col: Collection, n: Norms, l: PostingList, lo: nat, hi: nat, bs: Bounds, w: real, i: nat)
    requires ValidCollection(col) && SafeNorms(col.rf, n, bs.info.minDl) && w >= 0.0 && col.rf(w) == w
    requires Fits(col, l.docs, l.tfs) && lo <= i < hi <= |l.docs| && BoundsOf(col, l.docs, l.tfs, lo, hi, bs)
    ensures TermScore(col.rf, n, w, l.tfs[i], col.dls[l.docs[i]])
         <= TermScore(col.rf, n, w, bs.info.maxTf, bs.info.minDl)
  {
    hide TermScore, FloatRounding, BestIs, SafeNorms;
    var j :| lo <= j < hi && col.dls[l.docs[j]] == bs.info.minDl;
    TermMonotone(col.rf, n, w, l.tfs[i], col.dls[l.docs[i]], bs.info.maxTf, bs.info.minDl);
  }

  /** And no looser than it must be: under the build parameters some posting of the range contributes exactly the
      bound; under others the bound is the contribution of one posting's frequency at another's length. */
  lemma BoundIsAttained(col: Collection, n: Norms, exact: bool, l: PostingList, lo: nat, hi: nat, bound: BoundInfo,
                        w: real)
    requires ValidCollection(col) && n.avgdl > 0.0
    requires Fits(col, l.docs, l.tfs) && hi <= |l.docs| && BoundTrue(col, l, lo, hi, bound)
    ensures exists i: nat, j: nat :: lo <= i < hi && lo <= j < hi && (exact ==> i == j)
              && Bm25Scorer(col, n, exact).bound(w, bound)
              == Bm25Scorer(col, n, exact).contrib(w, l.docs[j], l.tfs[i])
  {
    hide TermScore, FloatRounding;
    var x0: real, x1: real :| BoundsOf(col, l.docs, l.tfs, lo, hi, Bounds(bound, x0, x1));
    var i: nat, j: nat;
    if exact {
      var best, x := BoundPair(true, n.model, bound), if n.model == Lucene then x0 else x1;
      assert BestIs(col, n.model, l.docs, l.tfs, lo, hi, best, x);
      i :| lo <= i < hi && IsBest(col, n.model, l.docs, l.tfs, i, best, x);
      j := i;
    } else {
      i :| lo <= i < hi && l.tfs[i] == bound.maxTf;
      j :| lo <= j < hi && col.dls[l.docs[j]] == bound.minDl;
    }
    AtPosting(col, n, exact, l, bound, w, i, j);
  }

  lemma AtPosting(col: Collection, n: Norms, exact: bool, l: PostingList, bound: BoundInfo, w: real, i: nat, j: nat)
    requires n.avgdl > 0.0 && Fits(col, l.docs, l.tfs) && i < |l.docs| && j < |l.docs|
    requires BoundPair(exact, n.model, bound) == Best(l.tfs[i], col.dls[l.docs[j]])
    ensures Bm25Scorer(col, n, exact).bound(w, bound)
         == Bm25Scorer(col, n, exact).contrib(w, l.docs[j], l.tfs[i])
  {
    hide TermScore;
  }

  /** The stored bound bounds every posting of the list, whatever the term's weight. */
  ghost predicate BoundHolds(col: Collection, n: Norms, l: PostingList, bound: BoundInfo)
    requires n.avgdl > 0.0 && |l.docs| == |l.tfs|
  {
    forall w: real, i: nat :: w > 0.0 && i < |l.docs| ==>
      Bm25Scorer(col, n, false).contrib(w, l.docs[i], l.tfs[i]) <= Bm25Scorer(col, n, false).bound(w, bound)
  }

  /** The stored bound of every list of postings that the collection's documents allow holds. */
  ghost predicate AllBounds(col: Collection, n: Norms)
    requires n.avgdl > 0.0 && col.avgdl > 0.0
  {
    forall l: PostingList, bound: BoundInfo ::
      ValidList(l) && Fits(col, l.docs, l.tfs) && BoundTrue(col, l, 0, |l.docs|, bound) ==> BoundHolds(col, n, l, bound)
  }

  /** The condition is exact.  A query may ask for b > 1, and then short documents can have a negative K.  In exact
      arithmetic, and with lengths of at least four, all bounds hold, whatever the documents' terms, if and only if
      no document has one.  Of the terms that an index has, only those of such a document are concerned: the others'
      bounds hold by BoundIsUpper. */
  lemma BoundsHoldIff(col: Collection, n: Norms)
    requires ValidCollection(col) && ExactRounding(col.rf) && n.avgdl == col.avgdl && n.k1 > 0.0 && n.b >= 0.0
    requires !(n.k1 == col.k1 && n.b == col.b)
    requires |col.dls| >= 2 && forall d :: 0 <= d < |col.dls| ==> col.dls[d] >= 4
    ensures AllBounds(col, n) <==> QueryNorms(col, n, false)
  {
    hide TermScore, SafeNorms, BoundTrue, ValidCollection, FloatRounding;
    if QueryNorms(col, n, false) {
      forall l: PostingList, bound: BoundInfo
        | ValidList(l) && Fits(col, l.docs, l.tfs) && BoundTrue(col, l, 0, |l.docs|, bound)
        ensures BoundHolds(col, n, l, bound)
      {
        forall w: real, i: nat | w > 0.0 && i < |l.docs|
          ensures Bm25Scorer(col, n, false).contrib(w, l.docs[i], l.tfs[i]) <= Bm25Scorer(col, n, false).bound(w, bound)
        {
          SafeEverywhere(col, n, false, l, 0, |l.docs|, bound);
          BoundIsUpper(col, n, false, l, 0, |l.docs|, bound, w, i);
          ScorerIs(col, n, w, l.docs[i], l.tfs[i], bound);
        }
      }
    } else {
      var x :| 0 <= x < |col.dls| && !SafeNorms(col.rf, n, col.dls[x]);
      var d := Shortest(col.dls, |col.dls|);
      var e := if d == 0 then 1 else 0;
      NegativeAtShortest(col, n, d, x);
      var l, bound, at := NegativeKBeatsBound(col, n, d, e);
      assert Bm25Scorer(col, n, false).contrib(1.0, l.docs[at], l.tfs[at])
           > Bm25Scorer(col, n, false).bound(1.0, bound);
    }
  }

  lemma {:induction false} Shortest(dls: seq<u32>, n: nat) returns (d: nat)
    requires 0 < n <= |dls|
    ensures d < n && forall e :: 0 <= e < n ==> dls[d] <= dls[e]
  {
    d := 0;
    if n > 1 {
      d := Shortest(dls, n - 1);
      if dls[n - 1] < dls[d] {
        d := n - 1;
      }
    }
  }

  lemma NegativeAtShortest(col: Collection, n: Norms, d: nat, x: nat)
    requires ExactRounding(col.rf) && n.avgdl > 0.0 && n.k1 > 0.0 && n.b >= 0.0
    requires d < |col.dls| && x < |col.dls| && col.dls[d] <= col.dls[x] && !SafeNorms(col.rf, n, col.dls[x])
    ensures Denominator(col.rf, n, ModelLength(n.model, col.dls[d])) < 0.0
  {
    hide Denominator, Byte4ToInt, IntToByte4;
    if Denominator(col.rf, n, ModelLength(n.model, col.dls[d])) >= 0.0 {
      SafeLonger(col.rf, n, col.dls[d], col.dls[x]);
    }
  }

  /** In every collection in which some document `d` of four tokens or more has a negative K, and another document
      is no shorter, there is a posting list whose stored bound one of its own postings beats. */
  lemma NegativeKBeatsBound(col: Collection, n: Norms, d: nat, e: nat) returns (l: PostingList, bound: BoundInfo,
                            at: nat)
    requires ValidCollection(col) && ExactRounding(col.rf) && n.avgdl == col.avgdl && d < |col.dls| && e < |col.dls|
    requires d != e
    requires 4 <= col.dls[d] <= col.dls[e] && Denominator(col.rf, n, ModelLength(n.model, col.dls[d])) < 0.0
    ensures ValidList(l) && Fits(col, l.docs, l.tfs) && BoundTrue(col, l, 0, |l.docs|, bound)
    ensures at < |l.docs| && l.docs[at] == d
    ensures forall w: real :: w > 0.0 ==>
              Bm25Scorer(col, n, false).contrib(w, d, l.tfs[at]) > Bm25Scorer(col, n, false).bound(w, bound)
  {
    hide Denominator, TermScore, Byte4ToInt, IntToByte4, Scaled, BoundsOf;
    var t := NegativeK(col.rf, n, col.dls[d]);
    l, at := if d < e then PostingList([d, e], [t, t + 1]) else PostingList([e, d], [t + 1, t]), if d < e then 0 else 1;
    var b0, b1 := OneBounds(col, l.docs, l.tfs, 0), OneBounds(col, l.docs, l.tfs, 1);
    OneBoundsOf(col, l.docs, l.tfs, 0);
    OneBoundsOf(col, l.docs, l.tfs, 1);
    BoundsJoin(col, l.docs, l.tfs, 0, 1, 2, b0, b1);
    bound := Joined(b0, b1).info;
    assert Joined(b0, b1) == Bounds(bound, Joined(b0, b1).x0, Joined(b0, b1).x1);
    forall w: real | w > 0.0
      ensures Bm25Scorer(col, n, false).contrib(w, d, l.tfs[at]) > Bm25Scorer(col, n, false).bound(w, bound)
    {
      ScorerIs(col, n, w, d, t, bound);
    }
  }

  lemma ScorerIs(col: Collection, n: Norms, w: real, d: nat, tf: nat, bound: BoundInfo)
    requires n.avgdl > 0.0 && d < |col.dls|
    ensures Bm25Scorer(col, n, false).contrib(w, d, tf) == TermScore(col.rf, n, w, tf, col.dls[d])
    ensures Bm25Scorer(col, n, false).bound(w, bound) == TermScore(col.rf, n, w, bound.maxTf, bound.minDl)
  {
    assert BoundPair(false, n.model, bound) == Best(bound.maxTf, bound.minDl);
  }

  /** A query whose terms the builder wrote, each with a float weight and its term bound. */
  ghost predicate BuiltQuery(col: Collection, n: Norms, exact: bool, c: CodecKind, q: Query, ls: seq<PostingList>) {
    && ValidCollection(col) && ModelNorms(col, n, exact) && |q.terms| == |ls| <= MAX_TERMS
    && q.sc == Bm25Scorer(col, n, exact)
    && (forall t :: 0 <= t < |ls| ==> BuiltTerm(col, n, exact, c, q.terms[t], ls[t]))
  }

  ghost predicate BuiltTerm(col: Collection, n: Norms, exact: bool, c: CodecKind, t: QTerm, l: PostingList)
    requires n.avgdl > 0.0 && col.avgdl > 0.0
  {
    && Built(col, c, l, t.info) && SafeBound(col, n, exact, t.info.bound)
    && t.weight >= 0.0 && col.rf(t.weight) == t.weight
    && t.ub == Bm25Scorer(col, n, exact).bound(t.weight, t.info.bound)
  }

  lemma BuiltBlockBound(col: Collection, c: CodecKind, l: PostingList, t: TermInfo, i: nat)
    requires col.avgdl > 0.0 && Built(col, c, l, t) && i < |l.docs|
    ensures exists lo, hi :: 0 <= lo <= i < hi <= |l.docs| && BoundTrue(col, l, lo, hi, BoundOfBlock(t, i / BLOCK_SIZE))
  {
    hide BoundTrue, ValidList, FloatRounding, Fits, BlockStored, BlockDescribed;
    var b := i / BLOCK_SIZE;
    if b < |t.blocks| {
      assert BlockBoundTrue(col, l, b, t.blocks[b].bound);
      assert BlockLow(b) <= i < BlockHigh(|l.docs|, b);
      assert BoundTrue(col, l, BlockLow(b), BlockHigh(|l.docs|, b), BoundOfBlock(t, i / BLOCK_SIZE));
    } else {
      assert BoundTrue(col, l, 0, |l.docs|, BoundOfBlock(t, i / BLOCK_SIZE));
    }
  }

  /** What the builder writes meets what the query algorithms need. */
  lemma BuiltQueryIsValid(col: Collection, n: Norms, exact: bool, c: CodecKind, q: Query, ls: seq<PostingList>)
    requires BuiltQuery(col, n, exact, c, q, ls)
    ensures ValidQuery(c, q, ls)
  {
    hide ValidCollection, ModelNorms, SafeBound, Stores, BoundTrue, TermScore, ValidList;
    forall t | 0 <= t < |ls|
      ensures ValidList(ls[t]) && |ls[t].docs| == |ls[t].tfs| && Stores(c, q.terms[t].info, ls[t]) {
      assert BuiltTerm(col, n, exact, c, q.terms[t], ls[t]);
    }
    forall t, i | 0 <= t < |ls| && 0 <= i < |ls[t].docs| ensures Bounded(q, ls, t, i) {
      assert BuiltTerm(col, n, exact, c, q.terms[t], ls[t]);
      BuiltPosting(col, n, exact, c, q, ls, t, i);
    }
  }

  lemma BuiltPosting(col: Collection, n: Norms, exact: bool, c: CodecKind, q: Query, ls: seq<PostingList>, t: nat,
                     i: nat)
    requires ValidCollection(col) && ModelNorms(col, n, exact) && q.sc == Bm25Scorer(col, n, exact)
    requires t < |q.terms| == |ls| && i < |ls[t].docs| == |ls[t].tfs|
    requires BuiltTerm(col, n, exact, c, q.terms[t], ls[t])
    ensures Bounded(q, ls, t, i)
  {
    hide ValidCollection, Stores, BoundTrue, TermScore, ValidList, SafeBound;
    var l, info, w := ls[t], q.terms[t].info, q.terms[t].weight;
    BoundIsUpper(col, n, exact, l, 0, |l.docs|, info.bound, w, i);
    BuiltBlockBound(col, c, l, info, i);
    var lo, hi :| 0 <= lo <= i < hi <= |l.docs| && BoundTrue(col, l, lo, hi, BoundOfBlock(info, i / BLOCK_SIZE));
    SafePart(col, n, exact, l, info.bound, lo, hi, BoundOfBlock(info, i / BLOCK_SIZE));
    BoundIsUpper(col, n, exact, l, lo, hi, BoundOfBlock(info, i / BLOCK_SIZE), w, i);
  }

  // ---------------------------------------------------------------------------------------------
  // Dispatch
  // ---------------------------------------------------------------------------------------------

  /** search: an empty query or k of zero finds nothing; otherwise the algorithm asked for runs. */
  method Search(alg: Algorithm, m: Arithmetic, c: CodecKind, q: Query, ghost ls: seq<PostingList>, k: nat,
                numDocs: nat, buf: Accumulators) returns (hits: seq<ScoredDoc>)
    requires Ieee(m) && ValidQuery(c, q, ls) && Ordinals(ls, numDocs) && buf.Clean()
    modifies buf, buf.acc, buf.seen
    ensures IsAnswer(hits, m, c, q, ls, k) && buf.Clean()
    ensures buf.acc == old(buf.acc) || fresh(buf.acc)
    ensures buf.seen == old(buf.seen) || fresh(buf.seen)
  {
    if |q.terms| == 0 || k == 0 {
      NothingToFind(m, c, q, ls, k);
      return [];
    }
    hide *;
    var top := new TopK(k);
    match alg {
      case Exhaustive => RunExhaustive(m, c, q, ls, numDocs, buf, top);
      case Daat => DocAtATime.RunDaat(m, c, q, ls, top);
      case MaxScoreAlgorithm => MaxScore.RunMaxScore(m, c, q, ls, top);
      case WandAlgorithm => ghost var _, _ := Wand.RunWand(false, m, c, q, ls, top);
      case BlockMaxWand => ghost var _, _ := Wand.RunWand(true, m, c, q, ls, top);
    }
    hits := top.TakeSorted();
  }

  lemma NothingToFind(m: Arithmetic, c: CodecKind, q: Query, ls: seq<PostingList>, k: nat)
    requires ValidQuery(c, q, ls) && (|q.terms| == 0 || k == 0)
    ensures IsAnswer([], m, c, q, ls, k)
  {
  }

  /** Whatever the algorithm, a query has one answer: the same documents, scores and tie order. */
  method AlgorithmsAgree(alg1: Algorithm, alg2: Algorithm, m: Arithmetic, c: CodecKind, q: Query,
                         ghost ls: seq<PostingList>, k: nat, numDocs: nat, buf: Accumulators)
    returns (hits1: seq<ScoredDoc>, hits2: seq<ScoredDoc>)
    requires Ieee(m) && ValidQuery(c, q, ls) && Ordinals(ls, numDocs) && buf.Clean()
    modifies buf, buf.acc, buf.seen
    ensures hits1 == hits2
  {
    hits1 := Search(alg1, m, c, q, ls, k, numDocs, buf);
    hits2 := Search(alg2, m, c, q, ls, k, numDocs, buf);
    TopKUnique(hits1, hits2, Candidates(m, c, q, ls, END), k);
  }
}
