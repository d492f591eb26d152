/** LexicalIndex::search of engine/src/lexical/search.cc from documents to answers: building the index of any
    documents and searching it with any algorithm ranks the documents themselves. */
module Engine {
  import opened Wrappers
  import opened Bits
  import opened ByteStrings
  import opened Codec
  import opened Postings
  import opened Bm25
  import opened Runs
  import opened TermBuilder
  import opened IndexBuilder
  import opened BuiltIndex
  import opened Rounding
  import opened Ranking
  import opened Scoring
  import opened TermAtATime
  import Search

  // ---------------------------------------------------------------------------------------------
  // Query terms
  // ---------------------------------------------------------------------------------------------

  /** The distinct terms of a query, in the order of their first occurrences. */
  function DistinctTerms(raw: seq<Bytes>): (u: seq<Bytes>)
    ensures |u| <= |raw| && forall t :: t in u <==> t in raw
  {
    if raw == [] then []
    else
      var n := |raw| - 1;
      assert raw == raw[..n] + [raw[n]];
      if raw[n] in DistinctTerms(raw[..n]) then DistinctTerms(raw[..n]) else DistinctTerms(raw[..n]) + [raw[n]]
  }

  /** How often a term occurs in the query: the boost of its clause. */
  function Boost(raw: seq<Bytes>, t: Bytes): nat {
    if raw == [] then 0 else Boost(raw[..|raw| - 1], t) + if raw[|raw| - 1] == t then 1 else 0
  }

  /** The query terms that some document holds. */
  function Present(docs: seq<Doc>, terms: seq<Bytes>): (p: seq<Bytes>)
    requires |docs| <= MAX_DOCS
    ensures |p| <= |terms| && forall t :: t in p <==> t in terms && Inverted(docs, t) != []
  {
    if terms == [] then []
    else
      var n := |terms| - 1;
      assert terms == terms[..n] + [terms[n]];
      if Inverted(docs, terms[n]) != [] then Present(docs, terms[..n]) + [terms[n]] else Present(docs, terms[..n])
  }

  datatype Clause = Clause(term: Bytes, boost: nat)

  ghost predicate ClausesOf(cs: seq<Clause>, raw: seq<Bytes>) {
    |cs| == |DistinctTerms(raw)| && forall i :: 0 <= i < |cs| ==>
      cs[i] == Clause(DistinctTerms(raw)[i], Boost(raw, DistinctTerms(raw)[i]))
  }

  lemma {:induction false} BoostAbsent(raw: seq<Bytes>, t: Bytes)
    requires t !in raw
    ensures Boost(raw, t) == 0
  {
    if raw != [] {
      assert raw == raw[..|raw| - 1] + [raw[|raw| - 1]];
      BoostAbsent(raw[..|raw| - 1], t);
    }
  }

  lemma {:induction false} DistinctOnce(raw: seq<Bytes>)
    ensures forall i, j :: 0 <= i < j < |DistinctTerms(raw)| ==> DistinctTerms(raw)[i] != DistinctTerms(raw)[j]
  {
    if raw != [] {
      DistinctOnce(raw[..|raw| - 1]);
    }
  }

  /** One clause for every distinct term, its count as boost. */
  method Clauses(raw: seq<Bytes>) returns (cs: seq<Clause>)
    ensures ClausesOf(cs, raw)
  {
    cs := [];
    for i := 0 to |raw|
      invariant ClausesOf(cs, raw[..i])
    {
      assert raw[..i + 1][..i] == raw[..i];
      var j := 0;
      while j < |cs| && cs[j].term != raw[i]
        invariant j <= |cs| && forall k :: 0 <= k < j ==> cs[k].term != raw[i]
      {
        j := j + 1;
      }
      ClauseNext(cs, raw, i, j);
      if j == |cs| {
        cs := cs + [Clause(raw[i], 1)];
      } else {
        cs := cs[j := Clause(raw[i], cs[j].boost + 1)];
      }
    }
    assert raw[..|raw|] == raw;
  }

  lemma ClauseNext(cs: seq<Clause>, raw: seq<Bytes>, i: nat, j: nat)
    requires i < |raw| && ClausesOf(cs, raw[..i]) && j <= |cs|
    requires (forall k :: 0 <= k < j ==> cs[k].term != raw[i]) && (j < |cs| ==> cs[j].term == raw[i])
    ensures ClausesOf(if j == |cs| then cs + [Clause(raw[i], 1)] else cs[j := Clause(raw[i], cs[j].boost + 1)],
                      raw[..i + 1])
  {
    var u, t := DistinctTerms(raw[..i]), raw[i];
    assert raw[..i + 1][..i] == raw[..i];
    DistinctOnce(raw[..i]);
    if j == |cs| {
      assert t !in u;
      BoostAbsent(raw[..i], t);
    } else {
      assert u[j] == t;
    }
  }

  /** Parameters of a query: the norms, whether they are the build's, and idf as a function of df. */
  datatype QueryParams = QueryParams(n: Norms, exact: bool, idf: nat -> real)

  ghost predicate ValidParams(col: Collection, p: QueryParams)
    ensures ValidParams(col, p) ==> col.avgdl > 0.0 && p.n.avgdl > 0.0
  {
    && ValidCollection(col) && (forall x: real :: col.rf(col.rf(x)) == col.rf(x))
    && Search.ModelNorms(col, p.n, p.exact) && p.n.k1 > 0.0
    && (forall df: nat :: p.idf(df) >= 0.0)
  }

  /** Under other parameters than the build's, no document that holds a query term has a negative K. */
  ghost predicate SafeFor(col: Collection, p: QueryParams, docs: seq<Doc>, raw: seq<Bytes>) {
    p.exact || forall d :: 0 <= d < |docs| && Matches(docs[d], raw) ==> SafeNorms(col.rf, p.n, docs[d].len)
  }

  /** bm25_weight. */
  function Weight(rf: real -> real, p: QueryParams, df: nat, boost: nat): real {
    var w := Mul(rf, rf(boost as real), p.idf(df));
    if p.n.model == Lucene then w else Mul(rf, w, Add(rf, p.n.k1, 1.0))
  }

  lemma WeightOk(col: Collection, p: QueryParams, df: nat, boost: nat)
    requires ValidParams(col, p)
    ensures Weight(col.rf, p, df, boost) >= 0.0 && col.rf(Weight(col.rf, p, df, boost)) == Weight(col.rf, p, df, boost)
  {
    hide FloatRounding, Search.ModelNorms;
    Rounds(col.rf, boost as real, boost as real);
    var b := col.rf(boost as real);
    MulRounds(col.rf, b, p.idf(df), p.idf(df));
    AddRounds(col.rf, p.n.k1, 1.0, 1.0);
    var w := Mul(col.rf, b, p.idf(df));
    MulRounds(col.rf, w, Add(col.rf, p.n.k1, 1.0), Add(col.rf, p.n.k1, 1.0));
  }

  // ---------------------------------------------------------------------------------------------
  // Scores of documents
  // ---------------------------------------------------------------------------------------------

  /** The contribution of a term to a document.  `stats` is the collection the statistics come from: the
      indexed one, or the whole of which it is a shard. */
  ghost function TermPart(rf: real -> real, p: QueryParams, stats: seq<Doc>, raw: seq<Bytes>, t: Bytes, doc: Doc): real
    requires p.n.avgdl > 0.0 && |stats| <= MAX_DOCS
  {
    TermScore(rf, p.n, Weight(rf, p, |Inverted(stats, t)|, Boost(raw, t)), TfIn(doc.terms, t), doc.len)
  }

  /** The contributions of the terms that the document holds, added in order with rounding. */
  ghost function Sum(m: Arithmetic, rf: real -> real, p: QueryParams, stats: seq<Doc>, raw: seq<Bytes>, ts: seq<Bytes>,
                     doc: Doc): real
    requires p.n.avgdl > 0.0 && |stats| <= MAX_DOCS
  {
    if ts == [] then 0.0
    else
      var n := |ts| - 1;
      var before := Sum(m, rf, p, stats, raw, ts[..n], doc);
      if TfIn(doc.terms, ts[n]) > 0 then m.rd(before + TermPart(rf, p, stats, raw, ts[n], doc)) else before
  }

  /** A document's score depends on its own terms and length and on the statistics, and on nothing else. */
  ghost function DocScore(m: Arithmetic, rf: real -> real, p: QueryParams, stats: seq<Doc>, raw: seq<Bytes>,
                          doc: Doc): real
    requires p.n.avgdl > 0.0 && |stats| <= MAX_DOCS
  {
    m.rf(Sum(m, rf, p, stats, raw, DistinctTerms(raw), doc))
  }

  ghost predicate Matches(doc: Doc, raw: seq<Bytes>) {
    exists t :: t in raw && TfIn(doc.terms, t) > 0
  }

  /** Every document that holds a query term, with its score. */
  ghost function Matching(m: Arithmetic, rf: real -> real, p: QueryParams, docs: seq<Doc>, stats: seq<Doc>,
                          raw: seq<Bytes>):
    (s: set<ScoredDoc>)
    requires p.n.avgdl > 0.0 && |stats| <= MAX_DOCS
    ensures forall x :: x in s <==> x.doc < |docs| && Matches(docs[x.doc], raw)
                                    && x.score == DocScore(m, rf, p, stats, raw, docs[x.doc])
  {
    set d: nat | d < |docs| && Matches(docs[d], raw) :: ScoredDoc(d, DocScore(m, rf, p, stats, raw, docs[d]))
  }

  /** The score's parts and hits over the terms present, as the algorithms see them. */
  ghost function DocParts(rf: real -> real, p: QueryParams, stats: seq<Doc>, raw: seq<Bytes>, ts: seq<Bytes>, doc: Doc):
    (s: seq<real>)
    requires p.n.avgdl > 0.0 && |stats| <= MAX_DOCS
    ensures |s| == |ts| && forall i :: 0 <= i < |s| ==> s[i] == TermPart(rf, p, stats, raw, ts[i], doc)
  {
    seq(|ts|, i requires 0 <= i < |ts| => TermPart(rf, p, stats, raw, ts[i], doc))
  }

  ghost function DocHits(ts: seq<Bytes>, doc: Doc): (h: seq<bool>)
    ensures |h| == |ts| && forall i :: 0 <= i < |h| ==> (h[i] <==> TfIn(doc.terms, ts[i]) > 0)
  {
    seq(|ts|, i requires 0 <= i < |ts| => TfIn(doc.terms, ts[i]) > 0)
  }

  lemma {:induction false} SumIsFold(m: Arithmetic, rf: real -> real, p: QueryParams, stats: seq<Doc>, raw: seq<Bytes>,
                                     ts: seq<Bytes>, n: nat, doc: Doc)
    requires p.n.avgdl > 0.0 && |stats| <= MAX_DOCS && n <= |ts|
    ensures Fold(m, DocParts(rf, p, stats, raw, ts, doc), DocHits(ts, doc), n)
         == Sum(m, rf, p, stats, raw, ts[..n], doc)
  {
    hide TfIn, TermPart;
    if n > 0 {
      SumIsFold(m, rf, p, stats, raw, ts, n - 1, doc);
      assert ts[..n][..n - 1] == ts[..n - 1];
    }
  }

  /** Terms that no document of a collection holds add nothing to the scores of its documents, so that the
      terms present may differ from shard to shard. */
  lemma {:induction false} AbsentAddNothing(m: Arithmetic, rf: real -> real, p: QueryParams, docs: seq<Doc>,
                                            stats: seq<Doc>, raw: seq<Bytes>, ts: seq<Bytes>, d: nat)
    requires p.n.avgdl > 0.0 && |stats| <= MAX_DOCS && ValidDocs(docs) && d < |docs|
    ensures Sum(m, rf, p, stats, raw, Present(docs, ts), docs[d]) == Sum(m, rf, p, stats, raw, ts, docs[d])
  {
    hide *;
    if ts == [] {
      NothingPresent(docs, ts);
    } else {
      var n := |ts| - 1;
      var ps := Present(docs, ts[..n]);
      AbsentAddNothing(m, rf, p, docs, stats, raw, ts[..n], d);
      SumNext(m, rf, p, stats, raw, ts[..n], ts[n], docs[d]);
      SumNext(m, rf, p, stats, raw, ps, ts[n], docs[d]);
      assert ts[..n] + [ts[n]] == ts && ts[..n + 1] == ts;
      PresentNext(docs, ts, n);
      if Inverted(docs, ts[n]) == [] {
        NotHeld(docs, ts[n], d);
        assert ps + [] == ps;
      }
    }
  }

  lemma NothingPresent(docs: seq<Doc>, ts: seq<Bytes>)
    requires |docs| <= MAX_DOCS && ts == []
    ensures Present(docs, ts) == ts
  {
  }

  lemma SumNext(m: Arithmetic, rf: real -> real, p: QueryParams, stats: seq<Doc>, raw: seq<Bytes>, ts: seq<Bytes>,
                t: Bytes, doc: Doc)
    requires p.n.avgdl > 0.0 && |stats| <= MAX_DOCS
    ensures Sum(m, rf, p, stats, raw, ts + [t], doc)
         == var a := Sum(m, rf, p, stats, raw, ts, doc);
            if TfIn(doc.terms, t) > 0 then m.rd(a + TermPart(rf, p, stats, raw, t, doc)) else a
  {
    assert (ts + [t])[..|ts|] == ts;
  }

  lemma NotHeld(docs: seq<Doc>, t: Bytes, d: nat)
    requires ValidDocs(docs) && Inverted(docs, t) == [] && d < |docs|
    ensures TfIn(docs[d].terms, t) == 0
  {
    hide TfIn, ValidDoc, Inverted;
    ListHas(docs, t, d);
  }

  /** The posting lists of the terms present. */
  ghost function ListsOf(docs: seq<Doc>, ts: seq<Bytes>): (ls: seq<PostingList>)
    requires |docs| <= MAX_DOCS
    ensures |ls| == |ts| && forall i :: 0 <= i < |ls| ==> ls[i] == ListOf(docs, ts[i])
  {
    seq(|ts|, i requires 0 <= i < |ts| => ListOf(docs, ts[i]))
  }

  /** A query term as the search makes it. */
  ghost predicate IsQTerm(col: Collection, p: QueryParams, docs: seq<Doc>, stats: seq<Doc>, raw: seq<Bytes>,
                          c: CodecKind, t: Bytes, q: QTerm)
    requires col.avgdl > 0.0 && p.n.avgdl > 0.0 && |docs| <= MAX_DOCS && |stats| <= MAX_DOCS
  {
    && Built(col, c, ListOf(docs, t), q.info)
    && q.weight == Weight(col.rf, p, |Inverted(stats, t)|, Boost(raw, t))
    && q.ub == Search.Bm25Scorer(col, p.n, p.exact).bound(q.weight, q.info.bound)
  }

  ghost predicate IsQuery(col: Collection, p: QueryParams, docs: seq<Doc>, stats: seq<Doc>, raw: seq<Bytes>,
                          c: CodecKind, ts: seq<Bytes>, q: Query)
    requires col.avgdl > 0.0 && p.n.avgdl > 0.0 && |docs| <= MAX_DOCS && |stats| <= MAX_DOCS
  {
    && |q.terms| == |ts| && q.sc == Search.Bm25Scorer(col, p.n, p.exact)
    && (forall i :: 0 <= i < |ts| ==> IsQTerm(col, p, docs, stats, raw, c, ts[i], q.terms[i]))
  }

  lemma TermIsSafe(col: Collection, p: QueryParams, docs: seq<Doc>, raw: seq<Bytes>, c: CodecKind, t: Bytes,
                   info: TermInfo)
    requires ValidParams(col, p) && ValidDocs(docs) && LengthsOf(col, docs) && SafeFor(col, p, docs, raw)
    requires Built(col, c, ListOf(docs, t), info) && t in raw
    ensures Search.SafeBound(col, p.n, p.exact, info.bound)
  {
    hide FloatRounding, TfIn, Inverted, ValidDoc, SafeNorms, BestIs, Stores;
    var l := ListOf(docs, t);
    var j :| 0 <= j < |l.docs| && col.dls[l.docs[j]] == info.bound.minDl;
    ListHas(docs, t, l.docs[j]);
  }

  lemma QueryIsBuilt(col: Collection, p: QueryParams, docs: seq<Doc>, stats: seq<Doc>, raw: seq<Bytes>, c: CodecKind,
                     ts: seq<Bytes>, q: Query)
    requires ValidParams(col, p) && ValidDocs(docs) && LengthsOf(col, docs) && SafeFor(col, p, docs, raw)
    requires |stats| <= MAX_DOCS && IsQuery(col, p, docs, stats, raw, c, ts, q) && |ts| <= MAX_TERMS
    requires forall t :: t in ts ==> t in raw
    ensures Search.BuiltQuery(col, p.n, p.exact, c, q, ListsOf(docs, ts)) && ValidQuery(c, q, ListsOf(docs, ts))
  {
    hide Built, FloatRounding, Search.ModelNorms, Search.SafeBound, SafeFor, ListOf, Weight, Search.Bm25Scorer,
      ValidQuery, ValidDoc;
    var ls := ListsOf(docs, ts);
    forall t | 0 <= t < |ls| ensures Search.BuiltTerm(col, p.n, p.exact, c, q.terms[t], ls[t]) {
      assert IsQTerm(col, p, docs, stats, raw, c, ts[t], q.terms[t]);
      TermIsSafe(col, p, docs, raw, c, ts[t], q.terms[t].info);
      WeightOk(col, p, |Inverted(stats, ts[t])|, Boost(raw, ts[t]));
    }
    Search.BuiltQueryIsValid(col, p.n, p.exact, c, q, ls);
  }

  // ---------------------------------------------------------------------------------------------
  // Lists and documents
  // ---------------------------------------------------------------------------------------------

  /** A term's list holds a document exactly if the document holds the term. */
  lemma ListHas(docs: seq<Doc>, t: Bytes, d: nat)
    requires ValidDocs(docs)
    ensures d in ListOf(docs, t).docs <==> d < |docs| && TfIn(docs[d].terms, t) > 0
    ensures forall i :: 0 <= i < |ListOf(docs, t).docs| && ListOf(docs, t).docs[i] == d ==>
              ListOf(docs, t).tfs[i] == TfIn(docs[d].terms, t)
  {
    hide Inverted, TfIn, ValidDoc;
    InvertedAscends(docs, t);
    var l, ps := ListOf(docs, t), Inverted(docs, t);
    forall i | 0 <= i < |l.docs| && l.docs[i] == d ensures d < |docs| && l.tfs[i] == TfIn(docs[d].terms, t) > 0 {
      assert PostingOk(docs, t, ps[i]);
    }
    if d < |docs| && TfIn(docs[d].terms, t) > 0 {
      var i := InvertedComplete(docs, t, d);
      assert l.docs[i] == d;
    }
  }

  /** The score the algorithms compute is the document's. */
  lemma ScoreIsDocScore(m: Arithmetic, col: Collection, p: QueryParams, docs: seq<Doc>, stats: seq<Doc>,
                        raw: seq<Bytes>, c: CodecKind, q: Query, d: nat)
    requires ValidParams(col, p) && ValidDocs(docs) && LengthsOf(col, docs) && d < |docs| && |stats| <= MAX_DOCS
    requires IsQuery(col, p, docs, stats, raw, c, Present(docs, DistinctTerms(raw)), q)
    requires ValidQuery(c, q, ListsOf(docs, Present(docs, DistinctTerms(raw))))
    ensures Score(m, c, q, ListsOf(docs, Present(docs, DistinctTerms(raw))), d)
         == DocScore(m, col.rf, p, stats, raw, docs[d])
  {
    hide FloatRounding, Search.ModelNorms, ValidDoc, Built, Present, Fold, ValidQuery, Stores, Inverted, Sum, TermPart,
      TfIn;
    var ts := Present(docs, DistinctTerms(raw));
    var ls := ListsOf(docs, ts);
    var parts, hits := DocParts(col.rf, p, stats, raw, ts, docs[d]), DocHits(ts, docs[d]);
    forall i | 0 <= i < |ts|
      ensures Hits(ls, d)[i] == hits[i]
      ensures Hits(ls, d)[i] ==> Parts(q, ls, d)[i] == parts[i]
    {
      PartIsTermPart(col, p, docs, stats, raw, c, ts, q, d, i);
    }
    assert Hits(ls, d) == hits;
    FoldAgrees(m, Parts(q, ls, d), parts, hits, |ls|);
    SumIsFold(m, col.rf, p, stats, raw, ts, |ts|, docs[d]);
    assert ts[..|ts|] == ts;
    AbsentAddNothing(m, col.rf, p, docs, stats, raw, DistinctTerms(raw), d);
  }

  lemma PartIsTermPart(col: Collection, p: QueryParams, docs: seq<Doc>, stats: seq<Doc>, raw: seq<Bytes>, c: CodecKind,
                       ts: seq<Bytes>, q: Query, d: nat, i: nat)
    requires ValidParams(col, p) && ValidDocs(docs) && LengthsOf(col, docs) && d < |docs| && i < |ts|
    requires |stats| <= MAX_DOCS
    requires IsQuery(col, p, docs, stats, raw, c, ts, q) && Paired(q, ListsOf(docs, ts))
    ensures Hits(ListsOf(docs, ts), d)[i] <==> TfIn(docs[d].terms, ts[i]) > 0
    ensures Hits(ListsOf(docs, ts), d)[i] ==>
              Parts(q, ListsOf(docs, ts), d)[i] == TermPart(col.rf, p, stats, raw, ts[i], docs[d])
  {
    hide FloatRounding, Search.ModelNorms, ValidDoc, Built, TermScore, Inverted, TfIn, Weight;
    ListHas(docs, ts[i], d);
    assert IsQTerm(col, p, docs, stats, raw, c, ts[i], q.terms[i]);
    var l := ListOf(docs, ts[i]);
    if d in l.docs {
      var j := IndexOf(l.docs, d);
      assert l.docs[j] == d;
    }
  }

  /** The candidates of the algorithms are the matching documents. */
  lemma CandidatesAreMatching(m: Arithmetic, col: Collection, p: QueryParams, docs: seq<Doc>, stats: seq<Doc>,
                              raw: seq<Bytes>, c: CodecKind, q: Query)
    requires ValidParams(col, p) && ValidDocs(docs) && LengthsOf(col, docs) && |stats| <= MAX_DOCS
    requires IsQuery(col, p, docs, stats, raw, c, Present(docs, DistinctTerms(raw)), q)
    requires ValidQuery(c, q, ListsOf(docs, Present(docs, DistinctTerms(raw))))
    ensures Scoring.Candidates(m, c, q, ListsOf(docs, Present(docs, DistinctTerms(raw))), END)
         == Matching(m, col.rf, p, docs, stats, raw)
  {
    hide FloatRounding, Search.ModelNorms, ValidDoc, Built, Fold, ValidQuery, Stores, Inverted, Score, DocScore, TfIn,
      DistinctTerms, IsQuery, ListOf, Matches;
    var ls := ListsOf(docs, Present(docs, DistinctTerms(raw)));
    forall d: nat | d < |docs| ensures Score(m, c, q, ls, d) == DocScore(m, col.rf, p, stats, raw, docs[d]) {
      ScoreIsDocScore(m, col, p, docs, stats, raw, c, q, d);
    }
    forall d: nat ensures d in Scoring.DocsOf(ls, |ls|) <==> d < |docs| && Matches(docs[d], raw) {
      MatchesInLists(docs, raw, d);
    }
  }

  lemma MatchesInLists(docs: seq<Doc>, raw: seq<Bytes>, d: nat)
    requires ValidDocs(docs)
    ensures var ls := ListsOf(docs, Present(docs, DistinctTerms(raw))); d in Scoring.DocsOf(ls, |ls|) <==>
              d < |docs| && Matches(docs[d], raw)
  {
    hide Inverted, TfIn, ValidDoc, ListOf;
    var ts := Present(docs, DistinctTerms(raw));
    var ls := ListsOf(docs, ts);
    if d in Scoring.DocsOf(ls, |ls|) {
      var i, j: nat :| 0 <= i < |ls| && j < |ls[i].docs| && ls[i].docs[j] == d;
      ListHas(docs, ts[i], d);
      assert ts[i] in ts;
    }
    if d < |docs| && Matches(docs[d], raw) {
      var t :| t in raw && TfIn(docs[d].terms, t) > 0;
      var k := InvertedComplete(docs, t, d);
      assert t in ts;
      var i :| 0 <= i < |ts| && ts[i] == t;
      ListHas(docs, t, d);
      MatchIsDoc(ls, i, d);
    }
  }

  // ---------------------------------------------------------------------------------------------
  // Searching
  // ---------------------------------------------------------------------------------------------

  lemma PresentNext(docs: seq<Doc>, terms: seq<Bytes>, i: nat)
    requires |docs| <= MAX_DOCS && i < |terms|
    ensures Present(docs, terms[..i + 1])
         == Present(docs, terms[..i]) + if Inverted(docs, terms[i]) != [] then [terms[i]] else []
  {
    assert terms[..i + 1][..i] == terms[..i];
  }

  /** An opened index: a shard's also has the whole collection's frequency of every term. */
  datatype Served = Served(index: Index, globalDf: seq<nat>)

  predicate Sized(s: Served) {
    |s.index.strs| == |s.index.infos| && (s.globalDf == [] || |s.globalDf| == |s.index.strs|)
  }

  function IdfDf(s: Served, id: nat): nat
    requires Sized(s) && id < |s.index.strs|
  {
    if s.globalDf == [] then s.index.infos[id].df else s.globalDf[id]
  }

  /** The index of `docs` with the frequencies of `stats`. */
  ghost predicate Serves(s: Served, col: Collection, c: CodecKind, docs: seq<Doc>, stats: seq<Doc>)
    requires col.avgdl > 0.0 && |docs| <= MAX_DOCS && |stats| <= MAX_DOCS
    ensures Serves(s, col, c, docs, stats) ==> Sized(s) && IsIndexOf(s.index, col, c, docs) && Ascending(s.index.strs)
  {
    && IsIndexOf(s.index, col, c, docs) && Sized(s)
    && forall id :: 0 <= id < |s.index.strs| ==> IdfDf(s, id) == |Inverted(stats, s.index.strs[id])|
  }

  /** An index that is no shard has its own statistics. */
  lemma ServesItself(index: Index, col: Collection, c: CodecKind, docs: seq<Doc>)
    requires col.avgdl > 0.0 && |docs| <= MAX_DOCS && IsIndexOf(index, col, c, docs)
    ensures Serves(Served(index, []), col, c, docs, docs)
  {
    hide Inverted, Less, Built;
    forall id | 0 <= id < |index.strs| ensures index.infos[id].df == |Inverted(docs, index.strs[id])| {
      EntrySize(index, col, c, docs, id);
    }
  }

  /** The global frequencies of a shard's terms, or None if the global index lacks one. */
  method GlobalDf(index: Index, global: Index, ghost col: Collection, ghost c: CodecKind, ghost stats: seq<Doc>)
    returns (r: Option<seq<nat>>)
    requires col.avgdl > 0.0 && |stats| <= MAX_DOCS && IsIndexOf(global, col, c, stats)
    ensures r.None? <==> exists t :: t in index.strs && Inverted(stats, t) == []
    ensures r.Some? ==> |r.value| == |index.strs|
    ensures r.Some? ==> forall i :: 0 <= i < |r.value| ==> r.value[i] == |Inverted(stats, index.strs[i])|
  {
    hide Inverted, Less, Built, IsIndexOf;
    var gdf: seq<nat> := [];
    IndexAscends(global, col, c, stats);
    for i := 0 to |index.strs|
      invariant |gdf| == i
      invariant forall j :: 0 <= j < i ==>
                gdf[j] == |Inverted(stats, index.strs[j])| && Inverted(stats, index.strs[j]) != []
    {
      var g := TermId(global, index.strs[i]);
      InIndex(global, col, c, stats, index.strs[i], g);
      if g < 0 {
        return None;
      }
      gdf := gdf + [global.infos[g].df];
    }
    r := Some(gdf);
  }

  lemma IndexAscends(index: Index, col: Collection, c: CodecKind, docs: seq<Doc>)
    requires col.avgdl > 0.0 && |docs| <= MAX_DOCS && IsIndexOf(index, col, c, docs)
    ensures Ascending(index.strs)
  {
  }

  /** Look up the terms of a query and give each its weight and bound. */
  method MakeQuery(col: Collection, p: QueryParams, s: Served, ghost docs: seq<Doc>, ghost stats: seq<Doc>,
                   c: CodecKind, raw: seq<Bytes>)
    returns (q: Query)
    requires ValidParams(col, p) && ValidDocs(docs) && |stats| <= MAX_DOCS && Serves(s, col, c, docs, stats)
    ensures IsQuery(col, p, docs, stats, raw, c, Present(docs, DistinctTerms(raw)), q)
  {
    hide *;
    var cs := Clauses(raw);
    var terms: seq<QTerm> := [];
    var sc := Search.Bm25Scorer(col, p.n, p.exact);
    ghost var all := DistinctTerms(raw);
    NoTerms(col, p, docs, stats, raw, c, cs);
    for i := 0 to |cs|
      invariant IsQuery(col, p, docs, stats, raw, c, Present(docs, all[..i]), Query(terms, sc))
    {
      PresentNext(docs, all, i);
      ClauseAt(cs, raw, i);
      var id := TermId(s.index, cs[i].term);
      InIndex(s.index, col, c, docs, cs[i].term, id);
      if id >= 0 {
        ServedDf(s, col, c, docs, stats, id);
        var info := s.index.infos[id];
        var w := Weight(col.rf, p, IdfDf(s, id), cs[i].boost);
        var term := QTerm(info, w, sc.bound(w, info.bound));
        TermAdded(col, p, docs, stats, raw, c, Present(docs, all[..i]), Query(terms, sc), all[i], term);
        terms := terms + [term];
      } else {
        assert Present(docs, all[..i]) + [] == Present(docs, all[..i]);
      }
    }
    assert all[..|cs|] == all;
    q := Query(terms, sc);
  }

  lemma NoTerms(col: Collection, p: QueryParams, docs: seq<Doc>, stats: seq<Doc>, raw: seq<Bytes>, c: CodecKind,
                cs: seq<Clause>)
    requires col.avgdl > 0.0 && p.n.avgdl > 0.0 && |docs| <= MAX_DOCS && |stats| <= MAX_DOCS && ClausesOf(cs, raw)
    ensures |cs| == |DistinctTerms(raw)|
    ensures IsQuery(col, p, docs, stats, raw, c, Present(docs, DistinctTerms(raw)[..0]),
                    Query([], Search.Bm25Scorer(col, p.n, p.exact)))
  {
  }

  lemma ServedDf(s: Served, col: Collection, c: CodecKind, docs: seq<Doc>, stats: seq<Doc>, id: nat)
    requires col.avgdl > 0.0 && |docs| <= MAX_DOCS && |stats| <= MAX_DOCS && Serves(s, col, c, docs, stats)
    requires id < |s.index.strs|
    ensures IdfDf(s, id) == |Inverted(stats, s.index.strs[id])|
  {
  }

  lemma ClauseAt(cs: seq<Clause>, raw: seq<Bytes>, i: nat)
    requires ClausesOf(cs, raw) && i < |cs|
    ensures i < |DistinctTerms(raw)| && cs[i] == Clause(DistinctTerms(raw)[i], Boost(raw, DistinctTerms(raw)[i]))
  {
  }

  /** What term_id's answer says of the documents. */
  lemma InIndex(index: Index, col: Collection, c: CodecKind, docs: seq<Doc>, t: Bytes, id: int)
    requires col.avgdl > 0.0 && |docs| <= MAX_DOCS && IsIndexOf(index, col, c, docs)
    requires if id < 0 then t !in index.strs else id < |index.strs| && index.strs[id] == t
    ensures id >= 0 <==> Inverted(docs, t) != []
    ensures id >= 0 ==> id < |index.infos| && Built(col, c, ListOf(docs, t), index.infos[id])
                        && index.infos[id].df == |Inverted(docs, t)|
  {
    hide Inverted, Less, Built;
    if id >= 0 {
      assert index.strs[id] in index.strs;
      EntrySize(index, col, c, docs, id);
    }
  }

  lemma TermAdded(col: Collection, p: QueryParams, docs: seq<Doc>, stats: seq<Doc>, raw: seq<Bytes>, c: CodecKind,
                  ts: seq<Bytes>, q: Query, t: Bytes, term: QTerm)
    requires ValidParams(col, p) && |docs| <= MAX_DOCS && |stats| <= MAX_DOCS
    requires IsQuery(col, p, docs, stats, raw, c, ts, q)
    requires Built(col, c, ListOf(docs, t), term.info)
    requires term.weight == Weight(col.rf, p, |Inverted(stats, t)|, Boost(raw, t))
    requires term.ub == q.sc.bound(term.weight, term.info.bound)
    ensures IsQuery(col, p, docs, stats, raw, c, ts + [t], Query(q.terms + [term], q.sc))
  {
    hide Built, FloatRounding, Search.ModelNorms, ListOf, Weight, Search.Bm25Scorer, Inverted;
    assert IsQTerm(col, p, docs, stats, raw, c, t, term);
  }

  lemma EntrySize(index: Index, col: Collection, c: CodecKind, docs: seq<Doc>, id: nat)
    requires col.avgdl > 0.0 && |docs| <= MAX_DOCS && IsIndexOf(index, col, c, docs) && id < |index.strs|
    ensures index.infos[id].df == |Inverted(docs, index.strs[id])|
  {
    hide Inverted, Less;
    assert Built(col, c, ListOf(docs, index.strs[id]), index.infos[id]);
  }

  lemma ListOrdinals(docs: seq<Doc>, ts: seq<Bytes>)
    requires ValidDocs(docs)
    ensures Ordinals(ListsOf(docs, ts), |docs|)
  {
    hide Inverted, TfIn, ValidDoc, ListOf;
    var ls := ListsOf(docs, ts);
    forall t, i | 0 <= t < |ls| && 0 <= i < |ls[t].docs| ensures ls[t].docs[i] < |docs| {
      ListHas(docs, ts[t], ls[t].docs[i]);
    }
  }

  /** Search the index of a document collection.  Whatever the algorithm, the codec and the way the index
      was built, the answer is the k best of all documents that hold a query term. */
  method SearchIndex(alg: Search.Algorithm, m: Arithmetic, col: Collection, p: QueryParams, s: Served,
                     ghost docs: seq<Doc>, ghost stats: seq<Doc>, c: CodecKind, raw: seq<Bytes>, k: nat, numDocs: nat,
                     buf: Accumulators)
    returns (hits: seq<ScoredDoc>)
    requires Ieee(m) && ValidParams(col, p) && ValidDocs(docs) && LengthsOf(col, docs) && SafeFor(col, p, docs, raw)
    requires |stats| <= MAX_DOCS && Serves(s, col, c, docs, stats)
    requires |DistinctTerms(raw)| <= MAX_TERMS && numDocs == |docs| && buf.Clean()
    modifies buf, buf.acc, buf.seen
    ensures buf.Clean() && IsTopK(hits, Matching(m, col.rf, p, docs, stats, raw), k)
  {
    hide *;
    var q := MakeQuery(col, p, s, docs, stats, c, raw);
    ghost var ts := Present(docs, DistinctTerms(raw));
    PresentAre(docs, raw);
    QueryIsBuilt(col, p, docs, stats, raw, c, ts, q);
    ListOrdinals(docs, ts);
    hits := Search.Search(alg, m, c, q, ListsOf(docs, ts), k, numDocs, buf);
    AnswerIsTopK(hits, m, c, q, ListsOf(docs, ts), k);
    CandidatesAreMatching(m, col, p, docs, stats, raw, c, q);
  }

  lemma PresentAre(docs: seq<Doc>, raw: seq<Bytes>)
    requires |docs| <= MAX_DOCS
    ensures |Present(docs, DistinctTerms(raw))| <= |DistinctTerms(raw)|
    ensures forall t :: t in Present(docs, DistinctTerms(raw)) ==> t in raw
  {
  }

  lemma AnswerIsTopK(hits: seq<ScoredDoc>, m: Arithmetic, c: CodecKind, q: Query, ls: seq<PostingList>, k: nat)
    requires ValidQuery(c, q, ls) && IsAnswer(hits, m, c, q, ls, k)
    ensures IsTopK(hits, Scoring.Candidates(m, c, q, ls, END), k)
  {
  }

  /** Build an index of the documents and search it. */
  method BuildAndSearch(alg: Search.Algorithm, m: Arithmetic, col: Collection, p: QueryParams, docs: seq<Doc>,
                        c: CodecKind, hash: Bytes -> nat, cap: nat, raw: seq<Bytes>, k: nat)
    returns (hits: seq<ScoredDoc>)
    requires Ieee(m) && ValidParams(col, p) && ValidDocs(docs) && LengthsOf(col, docs) && SafeFor(col, p, docs, raw)
    requires |DistinctTerms(raw)| <= MAX_TERMS
    ensures IsTopK(hits, Matching(m, col.rf, p, docs, docs, raw), k)
  {
    hide *;
    CollectionOk(col, p);
    DocsFit(docs);
    var buf := new Accumulators();
    var index := Build(col, c, docs, hash, cap);
    ServesItself(index, col, c, docs);
    hits := SearchIndex(alg, m, col, p, Served(index, []), docs, docs, c, raw, k, |docs|, buf);
  }

  /** Two indexes of the same documents, built with any codecs, hashes and spill thresholds, and searched
      with any algorithms, give the same list. */
  method SearchTwice(alg1: Search.Algorithm, alg2: Search.Algorithm, m: Arithmetic, col: Collection, p: QueryParams,
                     docs: seq<Doc>, c1: CodecKind, c2: CodecKind, hash1: Bytes -> nat, hash2: Bytes -> nat,
                     cap1: nat, cap2: nat, raw: seq<Bytes>, k: nat)
    returns (hits1: seq<ScoredDoc>, hits2: seq<ScoredDoc>)
    requires Ieee(m) && ValidParams(col, p) && ValidDocs(docs) && LengthsOf(col, docs) && SafeFor(col, p, docs, raw)
    requires |DistinctTerms(raw)| <= MAX_TERMS
    ensures hits1 == hits2
  {
    hide *;
    CollectionOk(col, p);
    DocsFit(docs);
    hits1 := BuildAndSearch(alg1, m, col, p, docs, c1, hash1, cap1, raw, k);
    hits2 := BuildAndSearch(alg2, m, col, p, docs, c2, hash2, cap2, raw, k);
    TopKUnique(hits1, hits2, Matching(m, col.rf, p, docs, docs, raw), k);
  }

  lemma CollectionOk(col: Collection, p: QueryParams)
    requires ValidParams(col, p)
    ensures ValidCollection(col) && p.n.avgdl > 0.0
  {
  }
}
