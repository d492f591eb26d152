/** The score that queries rank by, as the formula of BM25: what the operations of engine/include/hs/lexical/bm25.hpp
    come to when nothing is rounded. */
module Formula {
  import opened ByteStrings
  import opened Rounding
  import opened Bm25
  import opened Sequences
  import Ranking
  import opened IndexBuilder
  import opened BuiltIndex
  import opened Engine

  ghost predicate ExactArithmetic(m: Arithmetic) {
    forall x: real :: m.rd(x) == x && m.rf(x) == x
  }

  /** The documents that hold a term. */
  ghost function Holding(docs: seq<Doc>, t: Bytes): set<nat> {
    set d: nat | d < |docs| && exists f :: f > 0 && TermCount(t, f) in docs[d].terms
  }

  /** The length that the model takes for the document's. */
  ghost function Length(n: Norms, dl: nat): nat {
    if n.model == Lucene then Byte4ToInt(IntToByte4(dl)) else dl
  }

  ghost function K(n: Norms, dl: nat): real
    requires n.avgdl > 0.0
  {
    n.k1 * ((1.0 - n.b) + n.b * (Length(n, dl) as real) / n.avgdl)
  }

  /** What a query term that occurs `f` times in the document adds: how often it occurs in the query, times its
      idf, times f / (f + K); for the textbook model times k1 + 1. */
  ghost function Part(p: QueryParams, stats: seq<Doc>, raw: seq<Bytes>, t: Bytes, f: nat, dl: nat): real
    requires p.n.avgdl > 0.0 && f as real + K(p.n, dl) != 0.0
  {
    var w := multiset(raw)[t] as real * p.idf(|Holding(stats, t)|) * (f as real / (f as real + K(p.n, dl)));
    if p.n.model == Lucene then w else w * (p.n.k1 + 1.0)
  }

  /** The sum over the terms that the document holds. */
  ghost function Total(p: QueryParams, stats: seq<Doc>, raw: seq<Bytes>, ts: seq<Bytes>, doc: Doc): real
    requires p.n.avgdl > 0.0 && K(p.n, doc.len) > 0.0
  {
    if ts == [] then 0.0
    else
      var n := |ts| - 1;
      var f := TfIn(doc.terms, ts[n]);
      Total(p, stats, raw, ts[..n], doc) + if f > 0 then Part(p, stats, raw, ts[n], f, doc.len) else 0.0
  }

  lemma {:induction false} BoostIsCount(raw: seq<Bytes>, t: Bytes)
    ensures Boost(raw, t) == multiset(raw)[t]
  {
    if raw != [] {
      var n := |raw| - 1;
      BoostIsCount(raw[..n], t);
      assert raw == raw[..n] + [raw[n]];
    }
  }

  /** The distinct terms stand in the order in which they first occur. */
  lemma {:induction false} FirstOccurrences(raw: seq<Bytes>, i: nat, j: nat)
    requires i < j < |DistinctTerms(raw)|
    ensures exists k :: 0 <= k < |raw| && DistinctTerms(raw)[i] in raw[..k] && DistinctTerms(raw)[j] !in raw[..k]
                        && raw[k] == DistinctTerms(raw)[j]
  {
    var n := |raw| - 1;
    var u, before := DistinctTerms(raw), DistinctTerms(raw[..n]);
    assert raw == raw[..n] + [raw[n]];
    DistinctOnce(raw);
    if j < |before| {
      FirstOccurrences(raw[..n], i, j);
      var k :| 0 <= k < n && before[i] in raw[..n][..k] && before[j] !in raw[..n][..k] && raw[..n][k] == before[j];
      assert raw[..n][..k] == raw[..k] && raw[k] == u[j];
    } else {
      assert u[j] == raw[n] && u[i] == before[i] && before[i] in before;
    }
  }

  /** A listed frequency is the term's frequency. */
  lemma {:induction false} TfIsListed(d: Doc, terms: seq<TermCount>, t: Bytes)
    requires ValidDoc(d) && terms <= d.terms
    ensures TfIn(terms, t) > 0 ==> TermCount(t, TfIn(terms, t)) in terms
    ensures forall f :: TermCount(t, f) in terms ==> TfIn(terms, t) == f
  {
    if terms != [] {
      var n := |terms| - 1;
      TfIsListed(d, terms[..n], t);
      assert terms == terms[..n] + [terms[n]];
      forall f | TermCount(t, f) in terms ensures TfIn(terms, t) == f {
        if terms[n].term == t {
          var i :| 0 <= i < |terms| && terms[i] == TermCount(t, f);
          assert d.terms[i].term == d.terms[n].term ==> i == n;
        }
      }
    }
  }

  /** The length of a posting list is the number of documents that hold the term. */
  lemma DfIsHolding(docs: seq<Doc>, t: Bytes)
    requires ValidDocs(docs)
    ensures |Inverted(docs, t)| == |Holding(docs, t)|
  {
    hide TfIn, Inverted, ValidDoc;
    var ds := ListOf(docs, t).docs;
    InvertedAscends(docs, t);
    var ns: seq<nat> := seq(|ds|, i requires 0 <= i < |ds| => ds[i] as nat);
    forall d: nat ensures d in Holding(docs, t) <==> d in Members(ns) {
      ListHas(docs, t, d);
      if d < |docs| {
        DocHolds(docs, t, d);
      }
      if d in ds {
        var i :| 0 <= i < |ds| && ds[i] == d;
        assert ns[i] == d;
      }
      if d in ns {
        var i :| 0 <= i < |ns| && ns[i] == d;
        assert ds[i] == d;
      }
    }
    assert Holding(docs, t) == Members(ns);
    ListAscends(docs, t);
    MembersSize(ns);
  }

  lemma DocHolds(docs: seq<Doc>, t: Bytes, d: nat)
    requires ValidDocs(docs) && d < |docs|
    ensures TfIn(docs[d].terms, t) > 0 <==> exists f :: f > 0 && TermCount(t, f) in docs[d].terms
  {
    hide TfIn;
    TfIsListed(docs[d], docs[d].terms, t);
  }

  lemma ListAscends(docs: seq<Doc>, t: Bytes)
    requires ValidDocs(docs)
    ensures var ds := ListOf(docs, t).docs;
            |ds| == |Inverted(docs, t)| && forall i, j :: 0 <= i < j < |ds| ==> ds[i] < ds[j]
  {
    hide TfIn, Inverted, ValidDoc;
    InvertedAscends(docs, t);
  }

  // ---------------------------------------------------------------------------------------------
  // Arithmetic
  // ---------------------------------------------------------------------------------------------

  lemma Quotient(a: real, b: real, q: real)
    requires b != 0.0 && q * b == a
    ensures a / b == q
  {
  }

  lemma TwoProducts(x: real, y: real, z: real)
    ensures (x * y) * z == x * (y * z) == (x * z) * y
  {
  }

  /** w - w / (1 + f / k) is w * f / (f + k). */
  lemma Saturation(w: real, f: real, k: real)
    requires f >= 0.0 && k > 0.0
    ensures 1.0 + f * (1.0 / k) != 0.0 && w - w / (1.0 + f * (1.0 / k)) == w * (f / (f + k))
  {
    var d, q := 1.0 + f * (1.0 / k), f / (f + k);
    Quotient(f, k, f * (1.0 / k)) by {
      TwoProducts(f, 1.0 / k, k);
    }
    assert d * k == f + k by {
      TwoProducts(f, 1.0 / k, k);
    }
    assert d > 0.0;
    assert (1.0 - q) * d == 1.0 by {
      assert q * (f + k) == f;
      TwoProducts(q, d, k);
      assert (q * d) * k == f;
      assert ((1.0 - q) * d) * k == d * k - (q * d) * k == k;
    }
    TwoProducts(w, 1.0 - q, d);
    Quotient(w, d, w * (1.0 - q));
  }

  lemma WeightIs(rf: real -> real, p: QueryParams, df: nat, boost: nat)
    requires ExactRounding(rf)
    ensures var w := boost as real * p.idf(df);
            Weight(rf, p, df, boost) == if p.n.model == Lucene then w else w * (p.n.k1 + 1.0)
  {
    assert Add(rf, p.n.k1, 1.0) == p.n.k1 + 1.0;
    assert Mul(rf, rf(boost as real), p.idf(df)) == boost as real * p.idf(df);
  }

  lemma TermIsPart(rf: real -> real, p: QueryParams, stats: seq<Doc>, raw: seq<Bytes>, t: Bytes, f: nat, dl: nat)
    requires ExactRounding(rf) && p.n.avgdl > 0.0 && K(p.n, dl) > 0.0 && ValidDocs(stats)
    ensures TermScore(rf, p.n, Weight(rf, p, |Inverted(stats, t)|, Boost(raw, t)), f, dl)
         == Part(p, stats, raw, t, f, dl)
  {
    hide *;
    BoostIsCount(raw, t);
    DfIsHolding(stats, t);
    WeightIs(rf, p, |Holding(stats, t)|, multiset(raw)[t]);
    ScoreIs(rf, p.n, Weight(rf, p, |Inverted(stats, t)|, Boost(raw, t)), f, dl);
    PartIs(p, stats, raw, t, f, dl);
  }

  lemma PartIs(p: QueryParams, stats: seq<Doc>, raw: seq<Bytes>, t: Bytes, f: nat, dl: nat)
    requires p.n.avgdl > 0.0 && K(p.n, dl) > 0.0
    ensures var w := multiset(raw)[t] as real * p.idf(|Holding(stats, t)|);
            Part(p, stats, raw, t, f, dl)
            == (if p.n.model == Lucene then w else w * (p.n.k1 + 1.0)) * (f as real / (f as real + K(p.n, dl)))
  {
    hide K, Holding;
    var w, q := multiset(raw)[t] as real * p.idf(|Holding(stats, t)|), f as real / (f as real + K(p.n, dl));
    TwoProducts(w, p.n.k1 + 1.0, q);
  }

  /** Nothing is rounded. */
  lemma Exactly(rf: real -> real, a: real, b: real)
    requires ExactRounding(rf)
    ensures rf(a) == a && Mul(rf, a, b) == a * b && Add(rf, a, b) == a + b && Sub(rf, a, b) == a - b
    ensures b != 0.0 ==> Div(rf, a, b) == a / b
  {
  }

  lemma DenominatorIsK(rf: real -> real, n: Norms, dl: nat)
    requires ExactRounding(rf) && n.avgdl > 0.0
    ensures Denominator(rf, n, ModelLength(n.model, dl)) == K(n, dl)
  {
    hide *;
    var l := ModelLength(n.model, dl) as real;
    var p := n.b * l;
    var q := p / n.avgdl;
    var s := 1.0 - n.b;
    Exactly(rf, l, 0.0);
    Exactly(rf, n.b, l);
    Exactly(rf, p, n.avgdl);
    Exactly(rf, 1.0, n.b);
    Exactly(rf, s, q);
    Exactly(rf, n.k1, s + q);
    DenominatorUnfolded(rf, n, ModelLength(n.model, dl), l, p, q, s, s + q);
    KUnfolded(n, dl, l, p, q);
  }

  lemma DenominatorUnfolded(rf: real -> real, n: Norms, len: nat, l: real, p: real, q: real, s: real, t: real)
    requires n.avgdl > 0.0 && l == len as real && rf(l) == l && Mul(rf, n.b, l) == p && Div(rf, p, n.avgdl) == q
    requires Sub(rf, 1.0, n.b) == s && Add(rf, s, q) == t
    ensures Denominator(rf, n, len) == Mul(rf, n.k1, t)
  {
    hide Mul, Add, Sub, Div;
  }

  lemma KUnfolded(n: Norms, dl: nat, l: real, p: real, q: real)
    requires n.avgdl > 0.0 && l == ModelLength(n.model, dl) as real && p == n.b * l && q == p / n.avgdl
    ensures K(n, dl) == n.k1 * ((1.0 - n.b) + q)
  {
    hide Byte4ToInt, IntToByte4;
  }

  lemma ScoreIs(rf: real -> real, n: Norms, w: real, f: nat, dl: nat)
    requires ExactRounding(rf) && n.avgdl > 0.0 && K(n, dl) > 0.0
    ensures TermScore(rf, n, w, f, dl) == w * (f as real / (f as real + K(n, dl)))
  {
    hide K, Denominator, ModelLength, ScoreScaled, ScaledTf, Inv, ExactRounding;
    DenominatorIsK(rf, n, dl);
    var k := K(n, dl);
    InverseIs(rf, n, dl);
    Saturation(w, f as real, k);
    ScaledIs(rf, f, 1.0 / k);
    var x := f as real * (1.0 / k);
    assert ScaledTf(rf, f, Inv(rf, n, dl)) == x;
    ExactScore(rf, w, x);
    assert TermScore(rf, n, w, f, dl) == ScoreScaled(rf, w, x);
  }

  lemma InverseIs(rf: real -> real, n: Norms, dl: nat)
    requires ExactRounding(rf) && n.avgdl > 0.0 && K(n, dl) > 0.0
    ensures Inv(rf, n, dl) == 1.0 / K(n, dl)
  {
    hide K, Denominator, ModelLength;
    DenominatorIsK(rf, n, dl);
    assert Div(rf, 1.0, K(n, dl)) == 1.0 / K(n, dl);
  }

  lemma ScaledIs(rf: real -> real, f: nat, x: real)
    requires ExactRounding(rf)
    ensures ScaledTf(rf, f, x) == f as real * x
  {
    assert rf(f as real) == f as real;
  }

  /** A document's score is the sum of BM25 over the query's distinct terms. */
  lemma ScoreIsFormula(m: Arithmetic, rf: real -> real, p: QueryParams, stats: seq<Doc>, raw: seq<Bytes>, doc: Doc)
    requires ExactArithmetic(m) && ExactRounding(rf) && p.n.avgdl > 0.0 && ValidDocs(stats) && K(p.n, doc.len) > 0.0
    ensures DocScore(m, rf, p, stats, raw, doc) == Total(p, stats, raw, DistinctTerms(raw), doc)
  {
    hide K, ExactRounding, Total;
    SumIsTotal(m, rf, p, stats, raw, DistinctTerms(raw), doc);
  }

  lemma {:induction false} SumIsTotal(m: Arithmetic, rf: real -> real, p: QueryParams, stats: seq<Doc>, raw: seq<Bytes>,
                                      ts: seq<Bytes>, doc: Doc)
    requires ExactArithmetic(m) && ExactRounding(rf) && p.n.avgdl > 0.0 && ValidDocs(stats) && K(p.n, doc.len) > 0.0
    ensures Sum(m, rf, p, stats, raw, ts, doc) == Total(p, stats, raw, ts, doc)
  {
    hide K, ExactRounding, Part, Weight, TermScore, TfIn, Boost, Inverted;
    if ts != [] {
      var n := |ts| - 1;
      SumIsTotal(m, rf, p, stats, raw, ts[..n], doc);
      TermIsPart(rf, p, stats, raw, ts[n], TfIn(doc.terms, ts[n]), doc.len);
    }
  }

  /** What a search ranks: every document that holds a query term, by that sum. */
  lemma MatchingIsFormula(m: Arithmetic, rf: real -> real, p: QueryParams, docs: seq<Doc>, stats: seq<Doc>,
                          raw: seq<Bytes>, d: nat)
    requires ExactArithmetic(m) && ExactRounding(rf) && p.n.avgdl > 0.0 && ValidDocs(docs) && ValidDocs(stats)
    requires d < |docs| && K(p.n, docs[d].len) > 0.0
    ensures forall x :: x in Matching(m, rf, p, docs, stats, raw) && x.doc == d ==>
              x.score == Total(p, stats, raw, DistinctTerms(raw), docs[d])
    ensures (exists x :: x in Matching(m, rf, p, docs, stats, raw) && x.doc == d) <==>
            exists t, f :: t in raw && f > 0 && TermCount(t, f) in docs[d].terms
  {
    hide K, ExactRounding, Total, DocScore, TfIn, DistinctTerms;
    ScoreIsFormula(m, rf, p, stats, raw, docs[d]);
    forall t ensures TfIn(docs[d].terms, t) > 0 <==> exists f :: f > 0 && TermCount(t, f) in docs[d].terms {
      DocHolds(docs, t, d);
    }
    if Matches(docs[d], raw) {
      var t :| t in raw && TfIn(docs[d].terms, t) > 0;
      assert Ranking.ScoredDoc(d, DocScore(m, rf, p, stats, raw, docs[d])) in Matching(m, rf, p, docs, stats, raw);
    }
  }
}
