/** What every query algorithm of engine/src/lexical/search.cc has to compute, and when a document
    may be left unscored. */
module Scoring {
  import opened Bits
  import opened Codec
  import opened Postings
  import opened Rounding
  import opened Ranking
  import opened BoundedHeap
  import opened Sequences

  /** Contribution of a term of given weight to a document, and the bound that a BoundInfo stands for. */
  datatype Scorer = Scorer(contrib: (real, nat, nat) -> real, bound: (real, BoundInfo) -> real)

  datatype QTerm = QTerm(info: TermInfo, weight: real, ub: real)

  /** Terms in the query's canonical order. */
  datatype Query = Query(terms: seq<QTerm>, sc: Scorer)

  // ---------------------------------------------------------------------------------------------
  // Scores
  // ---------------------------------------------------------------------------------------------

  ghost function IndexOf(docs: seq<u32>, d: nat): (i: nat)
    requires d in docs
    ensures i < |docs| && docs[i] == d
  {
    var i: nat :| i < |docs| && docs[i] == d;
    i
  }

  /** A posting list for every query term. */
  ghost predicate Paired(q: Query, ls: seq<PostingList>)
    ensures Paired(q, ls) ==> |q.terms| == |ls|
  {
    |q.terms| == |ls| && forall t :: 0 <= t < |ls| ==> |ls[t].docs| == |ls[t].tfs|
  }

  /** The contribution of posting `i` of term `t`. */
  ghost function PostingScore(q: Query, ls: seq<PostingList>, t: nat, i: nat): real
    requires t < |q.terms| == |ls| && i < |ls[t].docs| == |ls[t].tfs|
  {
    q.sc.contrib(q.terms[t].weight, ls[t].docs[i], ls[t].tfs[i])
  }

  function BoundOfBlock(info: TermInfo, b: nat): BoundInfo {
    if b < |info.blocks| then info.blocks[b].bound else info.bound
  }

  ghost predicate Bounded(q: Query, ls: seq<PostingList>, t: nat, i: nat)
    requires t < |q.terms| == |ls| && i < |ls[t].docs| == |ls[t].tfs|
  {
    && 0.0 <= PostingScore(q, ls, t, i) <= q.terms[t].ub
    && PostingScore(q, ls, t, i) <= q.sc.bound(q.terms[t].weight, BoundOfBlock(q.terms[t].info, i / BLOCK_SIZE))
  }

  /** The query's terms are stored posting lists. */
  ghost predicate StoredQuery(c: CodecKind, q: Query, ls: seq<PostingList>)
    ensures StoredQuery(c, q, ls) ==> Paired(q, ls)
  {
    && Paired(q, ls)
    && (forall t :: 0 <= t < |ls| ==> ValidList(ls[t]))
    && (forall t :: 0 <= t < |ls| ==> Stores(c, q.terms[t].info, ls[t]))
  }

  /** What pruning needs besides: the terms' bounds are true, and there are not too many terms for the slack. */
  ghost predicate ValidQuery(c: CodecKind, q: Query, ls: seq<PostingList>)
    ensures ValidQuery(c, q, ls) ==> StoredQuery(c, q, ls) && |ls| <= MAX_TERMS
  {
    && StoredQuery(c, q, ls) && |ls| <= MAX_TERMS
    && (forall t, i :: 0 <= t < |ls| && 0 <= i < |ls[t].docs| ==> Bounded(q, ls, t, i))
  }

  ghost function Hits(ls: seq<PostingList>, d: nat): (h: seq<bool>)
    ensures |h| == |ls|
  {
    seq(|ls|, t requires 0 <= t < |ls| => d in ls[t].docs)
  }

  ghost function Parts(q: Query, ls: seq<PostingList>, d: nat): (p: seq<real>)
    requires Paired(q, ls)
    ensures |p| == |ls|
  {
    seq(|ls|, t requires 0 <= t < |ls| =>
      if d in ls[t].docs then PostingScore(q, ls, t, IndexOf(ls[t].docs, d)) else 0.0)
  }

  /** The rounded sum of the contributions hit among the first `n` terms, in canonical order. */
  function Fold(m: Arithmetic, contrib: seq<real>, hit: seq<bool>, n: nat): real
    requires n <= |contrib| == |hit|
  {
    if n == 0 then 0.0
    else if hit[n - 1] then m.rd(Fold(m, contrib, hit, n - 1) + contrib[n - 1])
    else Fold(m, contrib, hit, n - 1)
  }

  /** The same sum without rounding. */
  ghost function Total(contrib: seq<real>, hit: seq<bool>, n: nat): real
    requires n <= |contrib| == |hit|
  {
    if n == 0 then 0.0
    else Total(contrib, hit, n - 1) + if hit[n - 1] then contrib[n - 1] else 0.0
  }

  ghost function Exact(c: CodecKind, q: Query, ls: seq<PostingList>, d: nat): real
    requires StoredQuery(c, q, ls)
  {
    Total(Parts(q, ls, d), Hits(ls, d), |ls|)
  }

  /** The score of a document, as the header of search.cc defines it for every algorithm. */
  ghost function Score(m: Arithmetic, c: CodecKind, q: Query, ls: seq<PostingList>, d: nat): real
    requires StoredQuery(c, q, ls)
  {
    m.rf(Fold(m, Parts(q, ls, d), Hits(ls, d), |ls|))
  }

  /** Documents that match one of the first `n` terms. */
  ghost function DocsOf(ls: seq<PostingList>, n: nat): set<nat>
    requires n <= |ls|
  {
    set t: nat, i: nat | t < n && i < |ls[t].docs| :: ls[t].docs[i]
  }

  /** All candidates below document `f`. */
  ghost function Candidates(m: Arithmetic, c: CodecKind, q: Query, ls: seq<PostingList>, f: nat): set<ScoredDoc>
    requires StoredQuery(c, q, ls)
  {
    set d | d in DocsOf(ls, |ls|) && d < f :: ScoredDoc(d, Score(m, c, q, ls, d))
  }

  /** What a search returns: the `k` best of all matching documents. */
  ghost predicate IsAnswer(hits: seq<ScoredDoc>, m: Arithmetic, c: CodecKind, q: Query, ls: seq<PostingList>, k: nat)
    requires StoredQuery(c, q, ls)
  {
    IsTopK(hits, Candidates(m, c, q, ls, END), k)
  }

  lemma IndexOfIs(l: PostingList, i: nat)
    requires ValidList(l) && i < |l.docs|
    ensures IndexOf(l.docs, l.docs[i]) == i
  {
    var j := IndexOf(l.docs, l.docs[i]);
    assert i < j || j < i || i == j;
  }

  lemma MatchIsDoc(ls: seq<PostingList>, t: nat, d: nat)
    requires t < |ls| && d in ls[t].docs
    ensures d in DocsOf(ls, |ls|)
  {
    var i := IndexOf(ls[t].docs, d);
    assert ls[t].docs[i] in DocsOf(ls, |ls|);
  }

  lemma PartIs(c: CodecKind, q: Query, ls: seq<PostingList>, d: nat, t: nat)
    requires StoredQuery(c, q, ls) && t < |ls|
    ensures d !in ls[t].docs ==> Parts(q, ls, d)[t] == 0.0
    ensures forall i :: 0 <= i < |ls[t].docs| && ls[t].docs[i] == d ==> Parts(q, ls, d)[t] == PostingScore(q, ls, t, i)
  {
    if d in ls[t].docs {
      forall i | 0 <= i < |ls[t].docs| && ls[t].docs[i] == d ensures i == IndexOf(ls[t].docs, d) {
        assert ValidList(ls[t]);
        IndexOfIs(ls[t], i);
      }
    }
  }

  lemma PartsOf(c: CodecKind, q: Query, ls: seq<PostingList>, d: nat, t: nat)
    requires ValidQuery(c, q, ls) && t < |ls|
    ensures 0.0 <= Parts(q, ls, d)[t] && (d !in ls[t].docs ==> Parts(q, ls, d)[t] == 0.0)
    ensures d in ls[t].docs ==> Parts(q, ls, d)[t] <= q.terms[t].ub
    ensures forall i :: 0 <= i < |ls[t].docs| && ls[t].docs[i] == d ==> Parts(q, ls, d)[t] == PostingScore(q, ls, t, i)
  {
    PartIs(c, q, ls, d, t);
    if d in ls[t].docs {
      assert Bounded(q, ls, t, IndexOf(ls[t].docs, d));
    }
  }

  // ---------------------------------------------------------------------------------------------
  // Sums
  // ---------------------------------------------------------------------------------------------

  lemma {:induction false} FoldNear(m: Arithmetic, contrib: seq<real>, hit: seq<bool>, n: nat)
    requires Ieee(m) && n <= |contrib| == |hit| && n <= MAX_TERMS
    requires forall t :: 0 <= t < n && hit[t] ==> contrib[t] >= 0.0
    ensures Near(Fold(m, contrib, hit, n), Total(contrib, hit, n), n)
  {
    if n > 0 {
      FoldNear(m, contrib, hit, n - 1);
      var a, x := Fold(m, contrib, hit, n - 1), Total(contrib, hit, n - 1);
      if hit[n - 1] {
        assert Near(contrib[n - 1], contrib[n - 1], 0);
        NearWeaken(contrib[n - 1], contrib[n - 1], 0, n - 1);
        NearAdd(m, a, x, contrib[n - 1], contrib[n - 1], n - 1);
      } else {
        NearWeaken(a, x, n - 1, n);
      }
    }
  }

  lemma {:induction false} FoldAgrees(m: Arithmetic, a: seq<real>, b: seq<real>, hit: seq<bool>, n: nat)
    requires n <= |a| == |b| == |hit|
    requires forall t :: 0 <= t < n && hit[t] ==> a[t] == b[t]
    ensures Fold(m, a, hit, n) == Fold(m, b, hit, n)
  {
    if n > 0 {
      FoldAgrees(m, a, b, hit, n - 1);
    }
  }

  lemma {:induction false} TotalOfPart(a: seq<real>, hit: seq<bool>, b: seq<real>, more: seq<bool>, n: nat)
    requires n <= |a| == |b| == |hit| == |more|
    requires forall t :: 0 <= t < n && hit[t] ==> more[t] && a[t] == b[t]
    requires forall t :: 0 <= t < n && more[t] ==> b[t] >= 0.0
    ensures 0.0 <= Total(a, hit, n) <= Total(b, more, n)
  {
    if n > 0 {
      TotalOfPart(a, hit, b, more, n - 1);
    }
  }

  /** The sum of `v` over the indices in `s`. */
  ghost function SumAt(v: seq<real>, s: seq<nat>): real
    requires forall i :: 0 <= i < |s| ==> s[i] < |v|
  {
    if s == [] then 0.0 else SumAt(v, s[..|s| - 1]) + v[s[|s| - 1]]
  }

  lemma {:induction false} SumWithout(v: seq<real>, s: seq<nat>, j: nat)
    requires j < |s| && forall i :: 0 <= i < |s| ==> s[i] < |v|
    ensures SumAt(v, s) == SumAt(v, s[..j] + s[j + 1..]) + v[s[j]]
    decreases |s|
  {
    var n := |s| - 1;
    var r := s[..j] + s[j + 1..];
    if j < n {
      var s' := s[..n];
      SumWithout(v, s', j);
      assert r[..n - 1] == s'[..j] + s'[j + 1..] && r[n - 1] == s[n];
    } else {
      assert r == s[..n];
    }
  }

  lemma {:induction false} SumNonNegative(v: seq<real>, s: seq<nat>)
    requires forall i :: 0 <= i < |s| ==> s[i] < |v| && v[s[i]] >= 0.0
    ensures SumAt(v, s) >= 0.0
    decreases |s|
  {
    if s != [] {
      SumNonNegative(v, s[..|s| - 1]);
    }
  }

  lemma RemoveKeeps(s: seq<nat>, j: nat)
    requires Distinct(s) && j < |s|
    ensures var r := s[..j] + s[j + 1..];
            Distinct(r) && (forall i :: 0 <= i < |r| ==> r[i] == s[if i < j then i else i + 1])
            && forall x :: x in s && x != s[j] ==> x in r
  {
    var r := s[..j] + s[j + 1..];
    assert forall i :: 0 <= i < |r| ==> r[i] == s[if i < j then i else i + 1];
    forall x | x in s && x != s[j] ensures x in r {
      var i :| 0 <= i < |s| && s[i] == x;
      assert x == if i < j then r[i] else r[i - 1];
    }
  }

  /** Bounds added in any order over any terms that cover the hits exceed the hits' total. */
  lemma {:induction false} SumCovers(contrib: seq<real>, hit: seq<bool>, n: nat, v: seq<real>, s: seq<nat>)
    requires n <= |contrib| == |hit| == |v|
    requires Distinct(s) && forall i :: 0 <= i < |s| ==> s[i] < |v| && v[s[i]] >= 0.0
    requires forall t :: 0 <= t < n && hit[t] ==> t in s && contrib[t] <= v[t]
    ensures Total(contrib, hit, n) <= SumAt(v, s)
    decreases n
  {
    hide SumAt, Distinct;
    if n == 0 {
      SumNonNegative(v, s);
    } else if hit[n - 1] {
      var j :| 0 <= j < |s| && s[j] == n - 1;
      SumWithout(v, s, j);
      RemoveKeeps(s, j);
      SumCovers(contrib, hit, n - 1, v, s[..j] + s[j + 1..]);
    } else {
      SumCovers(contrib, hit, n - 1, v, s);
    }
  }

  // ---------------------------------------------------------------------------------------------
  // Pruning
  // ---------------------------------------------------------------------------------------------

  /** cannot_beat: the bound, slackened and rounded, does not exceed the list's last score. */
  ghost predicate CannotBeat(m: Arithmetic, heap: seq<ScoredDoc>, k: nat, bound: real)
    requires 0 < k
  {
    |heap| >= k && m.rf(m.rd(bound * BOUND_SLACK)) <= heap[|heap| - 1].score
  }

  /** The same, as it is computed: against the front of the binary heap. */
  predicate CannotBeatTop(m: Arithmetic, top: TopK, bound: real)
    reads top
    requires top.Valid()
    ensures CannotBeatTop(m, top, bound) <==> CannotBeat(m, top.heap, top.k, bound)
  {
    top.Full() && m.rf(m.rd(bound * BOUND_SLACK)) <= top.Threshold()
  }

  /** What cannot beat a list cannot beat what the list becomes. */
  lemma CannotBeatPersists(m: Arithmetic, heap: seq<ScoredDoc>, k: nat, x: ScoredDoc, bound: real)
    requires 0 < k && |heap| <= k && Ranked(heap) && CannotBeat(m, heap, k, bound)
    ensures CannotBeat(m, Offer(heap, k, x), k, bound)
  {
    ThresholdRises(heap, k, x);
  }

  /** No score that could be computed for `d` exceeds `theta`. */
  ghost predicate Dominated(m: Arithmetic, c: CodecKind, q: Query, ls: seq<PostingList>, d: nat, theta: real)
    requires StoredQuery(c, q, ls)
  {
    m.rf(Over(Exact(c, q, ls, d))) <= theta
  }

  /** A document all of whose terms are covered by bounds that cannot beat the list is dominated. */
  lemma BoundsDominate(m: Arithmetic, c: CodecKind, q: Query, ls: seq<PostingList>, d: nat,
                       v: seq<real>, s: seq<nat>, bound: real, theta: real)
    requires Ieee(m) && ValidQuery(c, q, ls) && |v| == |ls|
    requires Distinct(s) && forall i :: 0 <= i < |s| ==> s[i] < |v| && v[s[i]] >= 0.0
    requires forall t :: 0 <= t < |ls| && d in ls[t].docs ==> t in s && Parts(q, ls, d)[t] <= v[t]
    requires Near(bound, SumAt(v, s), MAX_TERMS + 2) && m.rf(m.rd(bound * BOUND_SLACK)) <= theta
    ensures Dominated(m, c, q, ls, d, theta)
  {
    var parts, hits := Parts(q, ls, d), Hits(ls, d);
    forall t | 0 <= t < |ls| ensures parts[t] >= 0.0 {
      PartsOf(c, q, ls, d, t);
    }
    SumCovers(parts, hits, |ls|, v, s);
    TotalOfPart(parts, hits, parts, hits, |ls|);
    PruneSafe(m, bound, SumAt(v, s), Exact(c, q, ls, d), theta);
  }

  /** Any sum over some of a dominated document's contributions stays at or below `theta`. */
  lemma DominatedSum(m: Arithmetic, c: CodecKind, q: Query, ls: seq<PostingList>, d: nat, theta: real,
                     contrib: seq<real>, hit: seq<bool>)
    requires Ieee(m) && ValidQuery(c, q, ls) && Dominated(m, c, q, ls, d, theta)
    requires |contrib| == |hit| == |ls|
    requires forall t :: 0 <= t < |ls| && hit[t] ==> d in ls[t].docs && contrib[t] == Parts(q, ls, d)[t]
    ensures m.rf(Fold(m, contrib, hit, |ls|)) <= theta
  {
    hide Parts, Over, Fold, Stores, Bounded, Ieee, ValidList, PostingScore, Total;
    var parts, hits := Parts(q, ls, d), Hits(ls, d);
    forall t | 0 <= t < |ls| ensures parts[t] >= 0.0 {
      PartsOf(c, q, ls, d, t);
    }
    TotalOfPart(contrib, hit, parts, hits, |ls|);
    FoldBelow(m, contrib, hit, Exact(c, q, ls, d), theta);
  }

  lemma FoldBelow(m: Arithmetic, contrib: seq<real>, hit: seq<bool>, x: real, theta: real)
    requires Ieee(m) && |contrib| == |hit| <= MAX_TERMS
    requires forall t :: 0 <= t < |hit| && hit[t] ==> contrib[t] >= 0.0
    requires 0.0 <= Total(contrib, hit, |hit|) <= x && m.rf(Over(x)) <= theta
    ensures m.rf(Fold(m, contrib, hit, |hit|)) <= theta
  {
    var f, y := Fold(m, contrib, hit, |hit|), Total(contrib, hit, |hit|);
    FoldNear(m, contrib, hit, |hit|);
    NearNonNegative(f, y, |hit|);
    NearOver(f, y, |hit|);
    OverMonotone(y, x);
  }

  // ---------------------------------------------------------------------------------------------
  // The frontier
  // ---------------------------------------------------------------------------------------------

  /** The list is full and no document from `g` to `f` can enter it. */
  ghost predicate AllDominated(heap: seq<ScoredDoc>, k: nat, m: Arithmetic, c: CodecKind, q: Query,
                               ls: seq<PostingList>, g: nat, f: nat)
    requires StoredQuery(c, q, ls)
  {
    forall d :: g <= d < f && d in DocsOf(ls, |ls|) ==>
      |heap| == k > 0 && Dominated(m, c, q, ls, d, heap[k - 1].score)
  }

  /** Everything below `f` is settled: documents below `g` were offered or were dominated when the
      scan passed them, and those from `g` to `f` are dominated now. */
  ghost predicate Settled(heap: seq<ScoredDoc>, k: nat, m: Arithmetic, c: CodecKind, q: Query,
                          ls: seq<PostingList>, g: nat, f: nat)
    requires StoredQuery(c, q, ls)
  {
    && g <= f
    && IsTopK(heap, Candidates(m, c, q, ls, f), k)
    && (forall i :: 0 <= i < |heap| ==> heap[i].doc < g)
    && AllDominated(heap, k, m, c, q, ls, g, f)
  }

  lemma CandidatesNext(m: Arithmetic, c: CodecKind, q: Query, ls: seq<PostingList>, f: nat)
    requires StoredQuery(c, q, ls)
    ensures Candidates(m, c, q, ls, f + 1) == Candidates(m, c, q, ls, f) +
      (if f in DocsOf(ls, |ls|) then {ScoredDoc(f, Score(m, c, q, ls, f))} else {})
    ensures ScoredDoc(f, Score(m, c, q, ls, f)) !in Candidates(m, c, q, ls, f)
  {
  }

  lemma DominatedScore(m: Arithmetic, c: CodecKind, q: Query, ls: seq<PostingList>, d: nat, theta: real)
    requires Ieee(m) && ValidQuery(c, q, ls) && Dominated(m, c, q, ls, d, theta)
    ensures Score(m, c, q, ls, d) <= theta
  {
    DominatedSum(m, c, q, ls, d, theta, Parts(q, ls, d), Hits(ls, d));
  }

  /** The frontier may pass dominated documents. */
  lemma {:induction false} SettleTo(heap: seq<ScoredDoc>, k: nat, m: Arithmetic, c: CodecKind, q: Query,
                                    ls: seq<PostingList>, g: nat, f: nat, f': nat)
    requires Ieee(m) && ValidQuery(c, q, ls)
    requires Settled(heap, k, m, c, q, ls, g, f) && f <= f' && AllDominated(heap, k, m, c, q, ls, f, f')
    ensures Settled(heap, k, m, c, q, ls, g, f')
    decreases f' - f
  {
    hide ValidQuery, Ieee, Candidates, Score, DocsOf, Dominated, Offer;
    if f < f' {
      CandidatesNext(m, c, q, ls, f);
      if f in DocsOf(ls, |ls|) {
        var x := ScoredDoc(f, Score(m, c, q, ls, f));
        DominatedScore(m, c, q, ls, f, heap[k - 1].score);
        OfferRejects(heap, k, x);
        SkipKeepsTopK(heap, Candidates(m, c, q, ls, f), k, x);
      }
      SettleTo(heap, k, m, c, q, ls, g, f + 1, f');
    }
  }

  lemma EmptySettled(k: nat, m: Arithmetic, c: CodecKind, q: Query, ls: seq<PostingList>)
    requires StoredQuery(c, q, ls)
    ensures Settled([], k, m, c, q, ls, 0, 0)
  {
  }

  /** Offering the document at the frontier, with its score, moves the frontier past it. */
  lemma SettlePush(heap: seq<ScoredDoc>, k: nat, m: Arithmetic, c: CodecKind, q: Query, ls: seq<PostingList>,
                   g: nat, d: nat)
    requires StoredQuery(c, q, ls) && 0 < k
    requires Settled(heap, k, m, c, q, ls, g, d) && d in DocsOf(ls, |ls|)
    ensures Settled(Offer(heap, k, ScoredDoc(d, Score(m, c, q, ls, d))), k, m, c, q, ls, d + 1, d + 1)
  {
    var x := ScoredDoc(d, Score(m, c, q, ls, d));
    CandidatesNext(m, c, q, ls, d);
    OfferAdds(heap, Candidates(m, c, q, ls, d), k, x);
    var h := Offer(heap, k, x);
    forall i | 0 <= i < |h| ensures h[i].doc < d + 1 {
      assert h[i] in Candidates(m, c, q, ls, d + 1);
    }
  }

  /** The part of the frontier that is only dominated may be forgotten. */
  lemma SettleRaise(heap: seq<ScoredDoc>, k: nat, m: Arithmetic, c: CodecKind, q: Query, ls: seq<PostingList>, g: nat,
                    f: nat)
    requires StoredQuery(c, q, ls) && Settled(heap, k, m, c, q, ls, g, f)
    ensures Settled(heap, k, m, c, q, ls, f, f)
  {
  }

  lemma SettleOne(heap: seq<ScoredDoc>, k: nat, m: Arithmetic, c: CodecKind, q: Query, ls: seq<PostingList>, g: nat,
                  d: nat)
    requires Ieee(m) && ValidQuery(c, q, ls) && Settled(heap, k, m, c, q, ls, g, d)
    requires |heap| == k > 0 && Dominated(m, c, q, ls, d, heap[k - 1].score)
    ensures Settled(heap, k, m, c, q, ls, d + 1, d + 1)
  {
    SettleTo(heap, k, m, c, q, ls, g, d, d + 1);
    SettleRaise(heap, k, m, c, q, ls, g, d + 1);
  }

  /** With no candidate between them, the frontier may move up. */
  lemma SettleGap(heap: seq<ScoredDoc>, k: nat, m: Arithmetic, c: CodecKind, q: Query, ls: seq<PostingList>,
                  f: nat, d: nat)
    requires StoredQuery(c, q, ls) && Settled(heap, k, m, c, q, ls, f, f) && f <= d
    requires forall e :: f <= e < d ==> e !in DocsOf(ls, |ls|)
    ensures Settled(heap, k, m, c, q, ls, d, d)
  {
    assert Candidates(m, c, q, ls, d) == Candidates(m, c, q, ls, f);
  }

  /** Once the frontier reaches the end, the list is the answer. */
  lemma SettledIsAnswer(heap: seq<ScoredDoc>, k: nat, m: Arithmetic, c: CodecKind, q: Query, ls: seq<PostingList>,
                        g: nat)
    requires StoredQuery(c, q, ls) && Settled(heap, k, m, c, q, ls, g, END)
    ensures IsAnswer(heap, m, c, q, ls, k)
  {
  }
}
