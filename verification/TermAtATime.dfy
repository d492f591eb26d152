/** run_exhaustive of engine/src/lexical/search.cc: term at a time over accumulators. */
module TermAtATime {
  import opened Bits
  import opened Varint
  import opened Codec
  import opened Postings
  import opened Rounding
  import opened Ranking
  import opened BoundedHeap
  import opened Scoring
  import opened Sequences

  /** Document `d`'s running sum after the first `t` terms and the first `x` postings of term `t`. */
  ghost function Running(m: Arithmetic, c: CodecKind, q: Query, ls: seq<PostingList>, t: nat, x: nat, d: nat): real
    requires StoredQuery(c, q, ls) && t <= |ls| && (t < |ls| ==> x <= |ls[t].docs|)
  {
    Fold(m, Parts(q, ls, d), Hits(ls, d), if t < |ls| && d in ls[t].docs[..x] then t + 1 else t)
  }

  ghost predicate Reached(ls: seq<PostingList>, t: nat, x: nat, d: nat)
    requires t <= |ls| && (t < |ls| ==> x <= |ls[t].docs|)
  {
    (exists u :: 0 <= u < t && d in ls[u].docs) || (t < |ls| && d in ls[t].docs[..x])
  }

  /** The accumulators, flags and touched list after the first `x` postings of term `t`. */
  ghost predicate Accumulated(m: Arithmetic, c: CodecKind, q: Query, ls: seq<PostingList>, t: nat, x: nat,
                              acc: seq<real>, seen: seq<bool>, touched: seq<nat>)
    requires StoredQuery(c, q, ls) && t <= |ls| && (t < |ls| ==> x <= |ls[t].docs|)
  {
    && |acc| == |seen|
    && (forall d :: 0 <= d < |acc| ==> acc[d] == Running(m, c, q, ls, t, x, d))
    && (forall d :: 0 <= d < |seen| ==> (seen[d] <==> Reached(ls, t, x, d)))
    && (forall d :: d in touched <==> 0 <= d < |seen| && seen[d])
    && Distinct(touched)
  }

  ghost predicate Ordinals(ls: seq<PostingList>, n: nat) {
    forall t, i :: 0 <= t < |ls| && 0 <= i < |ls[t].docs| ==> ls[t].docs[i] < n
  }

  lemma TakeNext(docs: seq<u32>, x: nat, d: nat)
    requires x < |docs|
    ensures d in docs[..x + 1] <==> d in docs[..x] || d == docs[x]
  {
    assert docs[..x + 1] == docs[..x] + [docs[x]];
  }

  /** Adding posting `x` of term `t` to its document's accumulator. */
  lemma StepPosting(m: Arithmetic, c: CodecKind, q: Query, ls: seq<PostingList>, t: nat, x: nat,
                    acc: seq<real>, seen: seq<bool>, touched: seq<nat>)
    requires StoredQuery(c, q, ls) && t < |ls| && x < |ls[t].docs|
    requires Accumulated(m, c, q, ls, t, x, acc, seen, touched) && ls[t].docs[x] < |acc|
    ensures var d := ls[t].docs[x];
            Accumulated(m, c, q, ls, t, x + 1, acc[d := m.rd(acc[d] + PostingScore(q, ls, t, x))],
                        seen[d := true], if seen[d] then touched else touched + [d as nat])
  {
    hide Fold, Parts, PostingScore, Bounded, Stores;
    var d := ls[t].docs[x];
    NotYet(ls[t], x);
    forall e: nat | e < |acc| ensures
      && (e != d ==> Running(m, c, q, ls, t, x + 1, e) == Running(m, c, q, ls, t, x, e))
      && (e != d ==> (Reached(ls, t, x + 1, e) <==> Reached(ls, t, x, e)))
    {
      TakeNext(ls[t].docs, x, e);
    }
    TakeNext(ls[t].docs, x, d);
    FoldAt(m, c, q, ls, t, x);
  }

  lemma NotYet(l: PostingList, x: nat)
    requires ValidList(l) && x < |l.docs|
    ensures l.docs[x] !in l.docs[..x]
  {
  }

  lemma FoldAt(m: Arithmetic, c: CodecKind, q: Query, ls: seq<PostingList>, t: nat, x: nat)
    requires StoredQuery(c, q, ls) && t < |ls| && x < |ls[t].docs|
    ensures Fold(m, Parts(q, ls, ls[t].docs[x]), Hits(ls, ls[t].docs[x]), t + 1)
         == m.rd(Fold(m, Parts(q, ls, ls[t].docs[x]), Hits(ls, ls[t].docs[x]), t) + PostingScore(q, ls, t, x))
  {
    hide Bounded, Stores, PostingScore;
    PartIs(c, q, ls, ls[t].docs[x], t);
  }

  /** The end of one term is the start of the next. */
  lemma StepTerm(m: Arithmetic, c: CodecKind, q: Query, ls: seq<PostingList>, t: nat,
                 acc: seq<real>, seen: seq<bool>, touched: seq<nat>)
    requires StoredQuery(c, q, ls) && t < |ls|
    requires Accumulated(m, c, q, ls, t, |ls[t].docs|, acc, seen, touched)
    ensures Accumulated(m, c, q, ls, t + 1, 0, acc, seen, touched)
  {
    hide Parts, PostingScore, Bounded, Stores;
    var docs := ls[t].docs;
    assert docs[..|docs|] == docs;
    forall d: nat | d < |acc|
      ensures acc[d] == Running(m, c, q, ls, t + 1, 0, d) && (seen[d] <==> Reached(ls, t + 1, 0, d)) {
      assert d in docs <==> Hits(ls, d)[t];
      if Reached(ls, t + 1, 0, d) {
        var u :| 0 <= u < t + 1 && d in ls[u].docs;
      }
    }
  }

  /** The accumulators, kept between searches (thread_local in the source) and clean in between. */
  class Accumulators {
    var acc: array<real>
    var seen: array<bool>

    ghost predicate Clean()
      reads this, acc, seen
    {
      && acc.Length == seen.Length
      && (forall d :: 0 <= d < acc.Length ==> acc[d] == 0.0)
      && (forall d :: 0 <= d < seen.Length ==> !seen[d])
    }

    constructor ()
      ensures Clean() && fresh(acc) && fresh(seen)
    {
      acc, seen := new real[0], new bool[0];
    }

    /** Room for every document. */
    method Reserve(n: nat)
      requires Clean()
      modifies this
      ensures Clean() && acc.Length >= n
      ensures acc == old(acc) || fresh(acc)
      ensures seen == old(seen) || fresh(seen)
    {
      if acc.Length < n {
        acc, seen := new real[n](_ => 0.0), new bool[n](_ => false);
      }
    }
  }

  /** Add the postings of one decoded block, the list's postings from `x0` on. */
  method AddBlock(m: Arithmetic, c: CodecKind, q: Query, ghost ls: seq<PostingList>, t: nat, ghost x0: nat,
                  docs: seq<u32>, tfs: seq<u32>, acc: array<real>, seen: array<bool>, touched0: seq<nat>)
    returns (touched: seq<nat>)
    requires StoredQuery(c, q, ls) && t < |ls| && acc.Length == seen.Length && Ordinals(ls, acc.Length)
    requires |docs| == |tfs| && x0 + |docs| <= |ls[t].docs|
    requires docs == ls[t].docs[x0..x0 + |docs|] && tfs == ls[t].tfs[x0..x0 + |docs|]
    requires Accumulated(m, c, q, ls, t, x0, acc[..], seen[..], touched0)
    modifies acc, seen
    ensures Accumulated(m, c, q, ls, t, x0 + |docs|, acc[..], seen[..], touched)
  {
    hide Accumulated, Stores, Bounded;
    touched := touched0;
    for i := 0 to |docs|
      invariant Accumulated(m, c, q, ls, t, x0 + i, acc[..], seen[..], touched)
    {
      StepPosting(m, c, q, ls, t, x0 + i, acc[..], seen[..], touched);
      var d := docs[i];
      ghost var acc0, seen0 := acc[..], seen[..];
      assert d == ls[t].docs[x0 + i] && tfs[i] == ls[t].tfs[x0 + i];
      if !seen[d] {
        seen[d] := true;
        touched := touched + [d as nat];
      }
      acc[d] := m.rd(acc[d] + q.sc.contrib(q.terms[t].weight, d, tfs[i]));
      assert seen[..] == seen0[d := true];
      assert acc[..] == acc0[d := m.rd(acc0[d] + PostingScore(q, ls, t, x0 + i))];
    }
  }

  /** Decode and add all postings of term `t`, block after block. */
  method AddTerm(m: Arithmetic, c: CodecKind, q: Query, ghost ls: seq<PostingList>, t: nat,
                 acc: array<real>, seen: array<bool>, touched0: seq<nat>) returns (touched: seq<nat>)
    requires StoredQuery(c, q, ls) && t < |ls| && acc.Length == seen.Length && Ordinals(ls, acc.Length)
    requires Accumulated(m, c, q, ls, t, 0, acc[..], seen[..], touched0)
    modifies acc, seen
    ensures Accumulated(m, c, q, ls, t + 1, 0, acc[..], seen[..], touched)
  {
    hide Accumulated, BlockDocs, BlockTfs, LastDoc, BlockOffset, BlockBytes, Bounded, DecodedBlock;
    var info := q.terms[t].info;
    ghost var l := ls[t];
    var nb := Blocks(info.df);
    var p, prev := 0, U32_MAX;
    touched := touched0;
    FirstBlock(c, l);
    assert BlockLow(0) == 0 && BlockLow(nb) >= info.df;
    for j := 0 to nb
      invariant p == BlockOffset(c, l, j) && prev == PrevDoc(l, j)
      invariant Accumulated(m, c, q, ls, t, if j < nb then BlockLow(j) else info.df, acc[..], seen[..], touched)
    {
      BlockBounds(info.df, j);
      var n := BlockHigh(info.df, j) - BlockLow(j);
      BlockDecodes(c, info, l, j);
      var r := DecodeBlock(true, c, info.bytes, p, n, prev);
      BlockSlices(l, j);
      p, prev := r.value.next, r.value.docs[n - 1];
      touched := AddBlock(m, c, q, ls, t, BlockLow(j), r.value.docs, r.value.tfs, acc, seen, touched);
    }
    StepTerm(m, c, q, ls, t, acc[..], seen[..], touched);
  }

  lemma FirstBlock(c: CodecKind, l: PostingList)
    requires ValidList(l)
    ensures BlockOffset(c, l, 0) == 0
  {
  }

  lemma BlockSlices(l: PostingList, j: nat)
    requires ValidList(l) && j < Blocks(|l.docs|)
    ensures BlockLow(j) < BlockHigh(|l.docs|, j) <= |l.docs|
    ensures BlockDocs(l, j) == l.docs[BlockLow(j)..BlockHigh(|l.docs|, j)]
    ensures BlockTfs(l, j) == l.tfs[BlockLow(j)..BlockHigh(|l.docs|, j)]
    ensures BlockDocs(l, j)[BlockHigh(|l.docs|, j) - BlockLow(j) - 1] == PrevDoc(l, j + 1)
  {
    BlockBounds(|l.docs|, j);
  }

  /** run_exhaustive: every posting of every term is added to its document's accumulator, every
      touched document is offered, and the accumulators are left clean. */
  method RunExhaustive(m: Arithmetic, c: CodecKind, q: Query, ghost ls: seq<PostingList>, numDocs: nat,
                       buf: Accumulators, top: TopK)
    requires StoredQuery(c, q, ls) && Ordinals(ls, numDocs) && buf.Clean() && top.Valid() && top.heap == []
    modifies buf, buf.acc, buf.seen, top
    ensures top.Valid() && IsAnswer(top.heap, m, c, q, ls, top.k)
    ensures buf.Clean()
    ensures buf.acc == old(buf.acc) || fresh(buf.acc)
    ensures buf.seen == old(buf.seen) || fresh(buf.seen)
  {
    hide Accumulated, Stores, Bounded, Candidates, Score, ValidList, Offered, IsTopK, Offer;
    buf.Reserve(numDocs);
    var acc, seen := buf.acc, buf.seen;
    var touched: seq<nat> := [];
    StartClean(m, c, q, ls, acc[..], seen[..]);
    for t := 0 to |q.terms|
      invariant top.Valid() && top.heap == [] && buf.acc == acc && buf.seen == seen
      invariant acc.Length == seen.Length
      invariant Accumulated(m, c, q, ls, t, 0, acc[..], seen[..], touched)
    {
      touched := AddTerm(m, c, q, ls, t, acc, seen, touched);
    }
    AllReached(m, c, q, ls, acc[..], seen[..], touched);
    NothingOffered(m, c, q, ls, top.k);
    assert touched[..0] == [] && touched[0..] == touched;
    for i := 0 to |touched|
      invariant top.Valid() && buf.acc == acc && buf.seen == seen && acc.Length == seen.Length
      invariant IsTopK(top.heap, Offered(m, c, q, ls, touched[..i]), top.k)
      invariant forall j :: i <= j < |touched| ==>
                touched[j] < acc.Length && m.rf(acc[touched[j]]) == Score(m, c, q, ls, touched[j])
      invariant forall d :: 0 <= d < acc.Length && d !in touched[i..] ==> acc[d] == 0.0 && !seen[d]
    {
      var d := touched[i];
      OfferNext(top.heap, m, c, q, ls, touched, i, top.k);
      var _ := top.Push(d, m.rf(acc[d]));
      acc[d] := 0.0;
      seen[d] := false;
      assert touched[i..] == [d] + touched[i + 1..];
    }
    assert touched[..|touched|] == touched;
  }

  lemma StartClean(m: Arithmetic, c: CodecKind, q: Query, ls: seq<PostingList>, acc: seq<real>, seen: seq<bool>)
    requires StoredQuery(c, q, ls) && |acc| == |seen|
    requires forall d :: 0 <= d < |acc| ==> acc[d] == 0.0 && !seen[d]
    ensures Accumulated(m, c, q, ls, 0, 0, acc, seen, [])
  {
  }

  /** The candidates among a list of documents. */
  ghost function Offered(m: Arithmetic, c: CodecKind, q: Query, ls: seq<PostingList>, ds: seq<nat>): set<ScoredDoc>
    requires StoredQuery(c, q, ls)
  {
    set j | 0 <= j < |ds| :: ScoredDoc(ds[j], Score(m, c, q, ls, ds[j]))
  }

  lemma NothingOffered(m: Arithmetic, c: CodecKind, q: Query, ls: seq<PostingList>, k: nat)
    requires StoredQuery(c, q, ls)
    ensures IsTopK([], Offered(m, c, q, ls, []), k)
  {
  }

  lemma OfferNext(heap: seq<ScoredDoc>, m: Arithmetic, c: CodecKind, q: Query, ls: seq<PostingList>,
                  ds: seq<nat>, i: nat, k: nat)
    requires StoredQuery(c, q, ls) && Distinct(ds) && i < |ds| && 0 < k
    requires IsTopK(heap, Offered(m, c, q, ls, ds[..i]), k)
    ensures IsTopK(Offer(heap, k, ScoredDoc(ds[i], Score(m, c, q, ls, ds[i]))), Offered(m, c, q, ls, ds[..i + 1]), k)
  {
    hide Score, IsTopK, Offer;
    var x := ScoredDoc(ds[i], Score(m, c, q, ls, ds[i]));
    OfferAdds(heap, Offered(m, c, q, ls, ds[..i]), k, x);
    assert Offered(m, c, q, ls, ds[..i + 1]) == Offered(m, c, q, ls, ds[..i]) + {x} by {
      assert ds[..i + 1] == ds[..i] + [ds[i]];
      assert forall j :: 0 <= j < i ==> ds[..i + 1][j] == ds[..i][j];
      assert x in Offered(m, c, q, ls, ds[..i + 1]) by {
        assert ds[..i + 1][i] == ds[i];
      }
    }
  }

  lemma AllReached(m: Arithmetic, c: CodecKind, q: Query, ls: seq<PostingList>,
                   acc: seq<real>, seen: seq<bool>, touched: seq<nat>)
    requires StoredQuery(c, q, ls) && Ordinals(ls, |acc|)
    requires Accumulated(m, c, q, ls, |ls|, 0, acc, seen, touched)
    ensures Distinct(touched) && Offered(m, c, q, ls, touched) == Candidates(m, c, q, ls, END)
    ensures forall j :: 0 <= j < |touched| ==>
              touched[j] < |acc| && m.rf(acc[touched[j]]) == Score(m, c, q, ls, touched[j])
    ensures forall d :: 0 <= d < |acc| && d !in touched ==> acc[d] == 0.0 && !seen[d]
  {
    hide Bounded, Stores;
    forall j | 0 <= j < |touched|
      ensures touched[j] < |acc| && m.rf(acc[touched[j]]) == Score(m, c, q, ls, touched[j])
      ensures touched[j] in DocsOf(ls, |ls|) && touched[j] < END
    {
      var d := touched[j];
      assert d in touched;
      var u :| 0 <= u < |ls| && d in ls[u].docs;
      MatchIsDoc(ls, u, d);
    }
    forall d: nat | d in DocsOf(ls, |ls|) ensures d in touched {
      var t: nat, i: nat :| t < |ls| && i < |ls[t].docs| && ls[t].docs[i] == d;
      assert Reached(ls, |ls|, 0, d);
    }
    forall d: nat | d < |acc| && d !in touched ensures acc[d] == 0.0 && !seen[d] {
      NoHits(m, Parts(q, ls, d), Hits(ls, d), |ls|);
    }
    var a, b := Offered(m, c, q, ls, touched), Candidates(m, c, q, ls, END);
    forall x | x in b ensures x in a {
      var j :| 0 <= j < |touched| && touched[j] == x.doc;
    }
  }

  lemma {:induction false} NoHits(m: Arithmetic, contrib: seq<real>, hit: seq<bool>, n: nat)
    requires n <= |contrib| == |hit| && forall t :: 0 <= t < n ==> !hit[t]
    ensures Fold(m, contrib, hit, n) == 0.0
  {
    if n > 0 {
      NoHits(m, contrib, hit, n - 1);
    }
  }
}
