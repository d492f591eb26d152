/** From documents to an index and from the index to answers: the merge loop of
    engine/src/lexical/index_builder.cc, term_id of engine/src/lexical/index.cc, and the query that
    LexicalIndex::search of engine/src/lexical/search.cc makes of its terms. */
module BuiltIndex {
  import opened Bits
  import opened ByteStrings
  import opened Codec
  import opened Postings
  import opened Bm25
  import opened Runs
  import opened TermBuilder
  import opened Vocabulary
  import opened IndexBuilder

  /** Terms in byte order, each with its entry. */
  datatype Index = Index(strs: seq<Bytes>, infos: seq<TermInfo>)

  function ListOf(docs: seq<Doc>, s: Bytes): PostingList
    requires |docs| <= MAX_DOCS
  {
    PostingList(DocsOf(Inverted(docs, s)), TfsOf(Inverted(docs, s)))
  }

  /** The index of a document collection: its terms, each with the postings of the direct inversion and
      true bounds. */
  ghost predicate IsIndexOf(index: Index, col: Collection, c: CodecKind, docs: seq<Doc>)
    requires col.avgdl > 0.0 && |docs| <= MAX_DOCS
  {
    && |index.strs| == |index.infos| && Ascending(index.strs)
    && (forall i :: 0 <= i < |index.strs| ==> Built(col, c, ListOf(docs, index.strs[i]), index.infos[i]))
    && (forall s :: Inverted(docs, s) != [] <==> s in index.strs)
  }

  /** The collection's lengths are the documents'. */
  ghost predicate LengthsOf(col: Collection, docs: seq<Doc>) {
    |col.dls| == |docs| && forall d :: 0 <= d < |docs| ==> col.dls[d] == docs[d].len
  }

  // ---------------------------------------------------------------------------------------------
  // Term order
  // ---------------------------------------------------------------------------------------------

  /** `order` lists the ids below `n`, by string. */
  ghost predicate Ordered(order: seq<nat>, strs: seq<Bytes>, n: nat)
    ensures Ordered(order, strs, n) ==> |order| == n <= |strs| && forall i :: 0 <= i < n ==> order[i] < n
  {
    && n <= |strs| && |order| == n
    && (forall i :: 0 <= i < |order| ==> order[i] < n)
    && ByString(order, strs)
    && (forall id :: 0 <= id < n ==> id in order)
  }

  ghost predicate ByString(order: seq<nat>, strs: seq<Bytes>)
    requires forall i :: 0 <= i < |order| ==> order[i] < |strs|
  {
    forall i, j :: 0 <= i < j < |order| ==> Less(strs[order[i]], strs[order[j]])
  }

  method SortIds(strs: seq<Bytes>) returns (order: seq<nat>)
    requires AllDistinct(strs)
    ensures Ordered(order, strs, |strs|)
  {
    hide Less;
    order := [];
    for id := 0 to |strs|
      invariant Ordered(order, strs, id)
    {
      var p := id;
      while p > 0 && Less(strs[id], strs[order[p - 1]])
        invariant p <= id && (p < id ==> Less(strs[id], strs[order[p]]))
      {
        p := p - 1;
      }
      InsertId(order, strs, id, p);
      order := order[..p] + [id] + order[p..];
    }
  }

  lemma InsertId(order: seq<nat>, strs: seq<Bytes>, id: nat, p: nat)
    requires AllDistinct(strs) && id < |strs| && Ordered(order, strs, id) && p <= id
    requires p < id ==> Less(strs[id], strs[order[p]])
    requires p > 0 ==> !Less(strs[id], strs[order[p - 1]])
    ensures Ordered(order[..p] + [id] + order[p..], strs, id + 1)
  {
    hide Less, ByString;
    var r := order[..p] + [id] + order[p..];
    assert forall i :: 0 <= i < |r| ==> r[i] == if i < p then order[i] else if i == p then id else order[i - 1];
    ByStringInsert(order, strs, id, p);
    forall x | 0 <= x < id + 1 ensures x in r {
      if x < id {
        assert x in order;
        var i :| 0 <= i < |order| && order[i] == x;
        assert r[if i < p then i else i + 1] == x;
      } else {
        assert r[p] == id;
      }
    }
  }

  lemma ByStringInsert(order: seq<nat>, strs: seq<Bytes>, id: nat, p: nat)
    requires AllDistinct(strs) && id < |strs| && p <= |order| && forall i :: 0 <= i < |order| ==> order[i] < id
    requires ByString(order, strs)
    requires p < |order| ==> Less(strs[id], strs[order[p]])
    requires p > 0 ==> !Less(strs[id], strs[order[p - 1]])
    ensures var r := order[..p] + [id] + order[p..];
            (forall i :: 0 <= i < |r| ==> r[i] < |strs|) && ByString(r, strs)
  {
    hide Less, AllDistinct;
    var r := order[..p] + [id] + order[p..];
    assert forall i :: 0 <= i < |r| ==> r[i] == if i < p then order[i] else if i == p then id else order[i - 1];
    if p > 0 {
      LastBelow(strs, order[p - 1], id);
    }
    forall i | 0 <= i < p ensures Less(strs[order[i]], strs[id]) {
      if i < p - 1 {
        LessTransitive(strs[order[i]], strs[order[p - 1]], strs[id]);
      }
    }
    forall i | p <= i < |order| ensures Less(strs[id], strs[order[i]]) {
      if p < i {
        LessTransitive(strs[id], strs[order[p]], strs[order[i]]);
      }
    }
  }

  lemma LastBelow(strs: seq<Bytes>, a: nat, id: nat)
    requires AllDistinct(strs) && a < id < |strs| && !Less(strs[id], strs[a])
    ensures Less(strs[a], strs[id])
  {
    LessTotal(strs[a], strs[id]);
  }

  // ---------------------------------------------------------------------------------------------
  // The build
  // ---------------------------------------------------------------------------------------------

  /** A term's postings suit the builder: it never finds a term without postings or out of order. */
  lemma NeverRefused(col: Collection, docs: seq<Doc>, s: Bytes)
    requires ValidDocs(docs) && LengthsOf(col, docs) && Inverted(docs, s) != []
    ensures var l := ListOf(docs, s); l.docs != [] && Postings.Increasing(l.docs) && Fits(col, l.docs, l.tfs)
  {
    hide Inverted, TfIn, ValidDoc;
    InvertedAscends(docs, s);
    var l, ps := ListOf(docs, s), Inverted(docs, s);
    forall i | 0 <= i < |l.docs| ensures l.docs[i] < |col.dls| && 0 < l.tfs[i] <= col.dls[l.docs[i]] {
      assert PostingOk(docs, s, ps[i]);
    }
  }

  /** Invert all documents, spilling whenever `cap` entries are buffered. */
  method Invert(docs: seq<Doc>, hash: Bytes -> nat, cap: nat) returns (inv: Inverter)
    requires ValidDocs(docs)
    ensures fresh(inv) && fresh(inv.vocab) && inv.Valid() && inv.docs == docs && inv.buffer == []
  {
    hide *;
    inv := new Inverter(hash, cap);
    assert docs[..0] == [];
    for i := 0 to |docs|
      invariant fresh(inv) && fresh(inv.vocab) && inv.Valid() && inv.docs == docs[..i]
    {
      DocOk(docs, i);
      var _ := inv.Consume(docs[i]);
      assert docs[..i + 1] == docs[..i] + [docs[i]];
    }
    assert docs[..|docs|] == docs;
    Readied(inv);
    inv.Flush();
    StillValid(inv, docs);
  }

  lemma DocOk(docs: seq<Doc>, i: nat)
    requires ValidDocs(docs) && i < |docs|
    ensures ValidDoc(docs[i]) && |docs[..i]| < MAX_DOCS
  {
  }

  lemma Readied(inv: Inverter)
    requires inv.Valid()
    ensures inv.Ready() && InVocab(inv.Stream(), |inv.vocab.strs|) && Inverts(inv.Stream(), inv.vocab.strs, inv.docs)
  {
  }

  lemma StillValid(inv: Inverter, docs: seq<Doc>)
    requires inv.Ready() && inv.docs == docs && Inverts(inv.Stream(), inv.vocab.strs, docs)
    ensures inv.Valid()
  {
  }

  lemma Spilled(inv: Inverter)
    requires inv.Valid() && inv.buffer == []
    ensures inv.vocab.Valid() && AllDistinct(inv.vocab.strs) && AllHold(inv.runs, inv.parts)
    ensures Inverts(Flat(inv.parts), inv.vocab.strs, inv.docs)
    ensures inv.vocab.StringsOk() && |inv.vocab.off| > 0
  {
    assert Flat(inv.parts) + [] == Flat(inv.parts);
  }

  /** The strings of the ids, read back from the arena. */
  method Strings(v: Vocab) returns (strs: seq<Bytes>)
    requires v.StringsOk()
    ensures strs == v.strs
  {
    hide Vocab.StringsOk;
    strs := [];
    for id := 0 to v.Size()
      invariant strs == v.strs[..id]
    {
      strs := strs + [v.Str(id)];
    }
  }

  /** The merge of one term over the runs gives the direct inversion of the documents. */
  method MergedTerm(runs: seq<Run>, id: nat, ghost parts: seq<seq<Entry>>, ghost strs: seq<Bytes>, ghost docs: seq<Doc>)
    returns (dl: seq<u32>, tl: seq<u32>)
    requires AllHold(runs, parts) && Inverts(Flat(parts), strs, docs) && id < |strs| && |docs| <= MAX_DOCS
    ensures PostingList(dl, tl) == ListOf(docs, strs[id]) && Inverted(docs, strs[id]) != []
  {
    hide Of, Inverted, AllHold, ValidDocs, InVocab, Flat;
    dl, tl := MergeTerm(runs, id, parts);
  }

  /** build_index: whatever the spill threshold, the index of the documents; the errors for a term
      without postings and for postings out of order cannot occur. */
  method Build(col: Collection, c: CodecKind, docs: seq<Doc>, hash: Bytes -> nat, cap: nat) returns (index: Index)
    requires ValidCollection(col) && ValidDocs(docs) && LengthsOf(col, docs)
    ensures |docs| <= MAX_DOCS && IsIndexOf(index, col, c, docs)
  {
    hide *;
    DocsFit(docs);
    var inv := Invert(docs, hash, cap);
    Spilled(inv);
    var strs := Strings(inv.vocab);
    var runs := inv.runs;
    ghost var parts := inv.parts;
    var order := SortIds(strs);
    OrderSize(order, strs);
    var out: seq<Bytes>, infos: seq<TermInfo> := [], [];
    for oi := 0 to |order|
      invariant |out| == |infos| == oi
      invariant forall i :: 0 <= i < oi ==> order[i] < |strs| && out[i] == strs[order[i]]
      invariant forall i :: 0 <= i < oi ==> Built(col, c, ListOf(docs, out[i]), infos[i])
    {
      IdInRange(order, strs, oi);
      var dl, tl := MergedTerm(runs, order[oi], parts, strs, docs);
      NeverRefused(col, docs, strs[order[oi]]);
      var r := BuildTerm(col, c, dl, tl);
      out, infos := out + [strs[order[oi]]], infos + [r.t];
    }
    index := Index(out, infos);
    AllTerms(index, col, c, docs, strs, order, Flat(parts));
  }

  lemma DocsFit(docs: seq<Doc>)
    requires ValidDocs(docs)
    ensures |docs| <= MAX_DOCS
  {
  }

  lemma OrderSize(order: seq<nat>, strs: seq<Bytes>)
    requires Ordered(order, strs, |strs|)
    ensures |order| == |strs|
  {
  }

  lemma IdInRange(order: seq<nat>, strs: seq<Bytes>, i: nat)
    requires Ordered(order, strs, |strs|) && i < |order|
    ensures order[i] < |strs|
  {
  }

  lemma AllTerms(index: Index, col: Collection, c: CodecKind, docs: seq<Doc>, strs: seq<Bytes>, order: seq<nat>,
                 stream: seq<Entry>)
    requires col.avgdl > 0.0 && |docs| <= MAX_DOCS && Inverts(stream, strs, docs) && Ordered(order, strs, |strs|)
    requires |index.strs| == |index.infos| == |order|
    requires forall i :: 0 <= i < |order| ==> order[i] < |strs| && index.strs[i] == strs[order[i]]
    requires forall i :: 0 <= i < |order| ==> Built(col, c, ListOf(docs, index.strs[i]), index.infos[i])
    ensures IsIndexOf(index, col, c, docs)
  {
    hide Less, Built, Inverted, Of, ValidDocs, InVocab;
    forall s ensures Inverted(docs, s) != [] <==> s in index.strs {
      if s in strs {
        var id :| 0 <= id < |strs| && strs[id] == s;
        assert id in order;
        var i :| 0 <= i < |order| && order[i] == id;
        assert index.strs[i] == s && Of(stream, id) == Inverted(docs, s);
      } else {
        assert forall i :: 0 <= i < |index.strs| ==> index.strs[i] in strs;
      }
    }
  }

  /** term_id: the place of a term, or -1. */
  method TermId(index: Index, term: Bytes) returns (id: int)
    requires Ascending(index.strs)
    ensures if id < 0 then id == -1 && term !in index.strs else id < |index.strs| && index.strs[id] == term
  {
    hide Less;
    var lo, hi := 0, |index.strs|;
    while lo < hi
      invariant 0 <= lo <= hi <= |index.strs|
      invariant forall i :: 0 <= i < lo ==> Less(index.strs[i], term)
      invariant forall i :: hi <= i < |index.strs| ==> Less(term, index.strs[i])
    {
      var mid := (lo + hi) / 2;
      LessTotal(index.strs[mid], term);
      if index.strs[mid] == term {
        return mid;
      }
      if Less(index.strs[mid], term) {
        forall i | 0 <= i < mid ensures Less(index.strs[i], term) {
          LessTransitive(index.strs[i], index.strs[mid], term);
        }
        lo := mid + 1;
      } else {
        forall i | mid < i < |index.strs| ensures Less(term, index.strs[i]) {
          LessTransitive(term, index.strs[mid], index.strs[i]);
        }
        hi := mid;
      }
    }
    LessTotal(term, term);
    id := -1;
  }
}
