/** build_index of engine/src/lexical/index_builder.cc: inversion through spilled runs, and the index that the
    merge writes. */
module IndexBuilder {
  import opened Bits
  import opened ByteStrings
  import opened Codec
  import opened Postings
  import opened Runs
  import opened TermBuilder
  import opened Vocabulary

  const MAX_DOCS: nat := 0xFFFF_FFF0

  // ---------------------------------------------------------------------------------------------
  // Documents, and inversion in memory
  // ---------------------------------------------------------------------------------------------

  datatype TermCount = TermCount(term: Bytes, tf: u32)

  /** An analyzed document: each of its terms once, with its count, and its length in tokens. */
  datatype Doc = Doc(terms: seq<TermCount>, len: u32)

  ghost predicate ValidDoc(d: Doc) {
    && (forall i :: 0 <= i < |d.terms| ==> 0 < d.terms[i].tf <= d.len)
    && (forall i, j :: 0 <= i < j < |d.terms| ==> d.terms[i].term != d.terms[j].term)
  }

  /** How often a term occurs; zero if it does not. */
  function TfIn(terms: seq<TermCount>, s: Bytes): u32 {
    if terms == [] then 0
    else if terms[|terms| - 1].term == s then terms[|terms| - 1].tf
    else TfIn(terms[..|terms| - 1], s)
  }

  function PartOf(terms: seq<TermCount>, ord: u32, s: Bytes): seq<Posting> {
    if TfIn(terms, s) > 0 then [Posting(ord, TfIn(terms, s))] else []
  }

  /** The postings of a term, straight from the documents. */
  function Inverted(docs: seq<Doc>, s: Bytes): (ps: seq<Posting>)
    requires |docs| <= MAX_DOCS
  {
    if docs == [] then []
    else
      var n := |docs| - 1;
      Inverted(docs[..n], s) + PartOf(docs[n].terms, n, s)
  }

  ghost predicate ValidDocs(docs: seq<Doc>)
    ensures ValidDocs(docs) ==> |docs| <= MAX_DOCS
  {
    |docs| <= MAX_DOCS && forall d :: 0 <= d < |docs| ==> ValidDoc(docs[d])
  }

  lemma {:induction false} TfOfTerm(d: Doc, terms: seq<TermCount>, s: Bytes)
    requires ValidDoc(d) && terms <= d.terms
    ensures TfIn(terms, s) <= d.len && (TfIn(terms, s) > 0 <==> exists i :: 0 <= i < |terms| && terms[i].term == s)
    decreases |terms|
  {
    if terms != [] {
      var n := |terms| - 1;
      assert terms[n] == d.terms[n];
      TfOfTerm(d, terms[..n], s);
      if i :| 0 <= i < n && terms[i].term == s {
        assert terms[..n][i].term == s;
      }
    }
  }

  ghost predicate Listed(docs: seq<Doc>, s: Bytes, ps: seq<Posting>) {
    && (forall i, j :: 0 <= i < j < |ps| ==> ps[i].doc < ps[j].doc)
    && (forall i :: 0 <= i < |ps| ==> PostingOk(docs, s, ps[i]))
  }

  /** A term's postings ascend by document and name its documents with its counts there. */
  lemma {:induction false} InvertedAscends(docs: seq<Doc>, s: Bytes)
    requires ValidDocs(docs)
    ensures Listed(docs, s, Inverted(docs, s))
  {
    if docs != [] {
      var n := |docs| - 1;
      InvertedAscends(docs[..n], s);
      TfOfTerm(docs[n], docs[n].terms, s);
      AscendsOn(docs, s, Inverted(docs[..n], s));
    }
  }

  lemma AscendsOn(docs: seq<Doc>, s: Bytes, ps: seq<Posting>)
    requires 0 < |docs| <= MAX_DOCS && Listed(docs[..|docs| - 1], s, ps)
    requires TfIn(docs[|docs| - 1].terms, s) <= docs[|docs| - 1].len
    ensures Listed(docs, s, ps + PartOf(docs[|docs| - 1].terms, |docs| - 1, s))
  {
    hide TfIn;
    forall i | 0 <= i < |ps| ensures ps[i].doc < |docs| - 1 && PostingOk(docs, s, ps[i]) {
      assert PostingOk(docs[..|docs| - 1], s, ps[i]);
    }
  }

  ghost predicate PostingOk(docs: seq<Doc>, s: Bytes, p: Posting) {
    p.doc < |docs| && p.tf == TfIn(docs[p.doc].terms, s) && 0 < p.tf <= docs[p.doc].len
  }

  /** No document is missing. */
  lemma {:induction false} InvertedComplete(docs: seq<Doc>, s: Bytes, d: nat) returns (i: nat)
    requires |docs| <= MAX_DOCS && d < |docs| && TfIn(docs[d].terms, s) > 0
    ensures i < |Inverted(docs, s)| && Inverted(docs, s)[i].doc == d
    decreases |docs|
  {
    var n := |docs| - 1;
    if d < n {
      i := InvertedComplete(docs[..n], s, d);
    } else {
      i := |Inverted(docs, s)| - 1;
    }
  }

  // ---------------------------------------------------------------------------------------------
  // Inversion through runs
  // ---------------------------------------------------------------------------------------------

  /** What has been spilled and buffered is the inversion of `docs` and of the terms `terms` of one more. */
  ghost predicate Meaning(stream: seq<Entry>, strs: seq<Bytes>, docs: seq<Doc>, terms: seq<TermCount>) {
    && |docs| < MAX_DOCS && InVocab(stream, |strs|)
    && (forall t :: 0 <= t < |strs| ==>
          Of(stream, t) == Inverted(docs, strs[t]) + PartOf(terms, |docs|, strs[t]) && Of(stream, t) != [])
    && (forall s :: s !in strs ==> Inverted(docs, s) == [] && TfIn(terms, s) == 0)
  }

  ghost predicate Inverts(stream: seq<Entry>, strs: seq<Bytes>, docs: seq<Doc>) {
    && ValidDocs(docs) && InVocab(stream, |strs|)
    && (forall t :: 0 <= t < |strs| ==> Of(stream, t) == Inverted(docs, strs[t]) && Of(stream, t) != [])
    && (forall s :: s !in strs ==> Inverted(docs, s) == [])
  }

  lemma StartDoc(stream: seq<Entry>, strs: seq<Bytes>, docs: seq<Doc>)
    requires Inverts(stream, strs, docs) && |docs| < MAX_DOCS
    ensures Meaning(stream, strs, docs, [])
  {
    hide Inverted, Of;
    forall t | 0 <= t < |strs| ensures Of(stream, t) == Inverted(docs, strs[t]) + PartOf([], |docs|, strs[t]) {
      assert PartOf([], |docs|, strs[t]) == [];
    }
  }

  lemma EndDoc(stream: seq<Entry>, strs: seq<Bytes>, docs: seq<Doc>, d: Doc)
    requires ValidDocs(docs) && ValidDoc(d) && Meaning(stream, strs, docs, d.terms)
    ensures Inverts(stream, strs, docs + [d])
  {
    hide Of, TfIn;
    var more := docs + [d];
    assert more[..|docs|] == docs;
    forall s ensures Inverted(more, s) == Inverted(docs, s) + PartOf(d.terms, |docs|, s) {
    }
  }

  /** One term of a document. */
  lemma NextTerm(stream: seq<Entry>, strs: seq<Bytes>, docs: seq<Doc>, d: Doc, j: nat, strs': seq<Bytes>, id: nat)
    requires ValidDoc(d) && j < |d.terms| && Meaning(stream, strs, docs, d.terms[..j]) && AllDistinct(strs')
    requires strs' == (if d.terms[j].term in strs then strs else strs + [d.terms[j].term])
    requires id < |strs'| && strs'[id] == d.terms[j].term
    ensures Meaning(stream + [Entry(id, |docs|, d.terms[j].tf)], strs', docs, d.terms[..j + 1])
  {
    hide Inverted, Of, TfIn;
    var e := Entry(id, |docs|, d.terms[j].tf);
    var more := stream + [e];
    forall t | 0 <= t < |strs'|
      ensures Of(more, t) == Inverted(docs, strs'[t]) + PartOf(d.terms[..j + 1], |docs|, strs'[t]) && Of(more, t) != []
    {
      OneTerm(stream, strs, docs, d, j, strs', id, t);
    }
    assert forall i :: 0 <= i < |strs| ==> strs[i] == strs'[i] && strs[i] in strs';
    forall s | s !in strs' ensures Inverted(docs, s) == [] && TfIn(d.terms[..j + 1], s) == 0 {
      assert d.terms[j].term != s by {
        assert strs'[id] in strs';
      }
      TfNext(d.terms, j, s);
    }
  }

  lemma TfNext(terms: seq<TermCount>, j: nat, s: Bytes)
    requires j < |terms|
    ensures TfIn(terms[..j + 1], s) == if terms[j].term == s then terms[j].tf else TfIn(terms[..j], s)
  {
    assert terms[..j + 1][..j] == terms[..j];
  }

  lemma OneTerm(stream: seq<Entry>, strs: seq<Bytes>, docs: seq<Doc>, d: Doc, j: nat, strs': seq<Bytes>, id: nat,
                t: nat)
    requires ValidDoc(d) && j < |d.terms| && Meaning(stream, strs, docs, d.terms[..j]) && AllDistinct(strs')
    requires strs' == (if d.terms[j].term in strs then strs else strs + [d.terms[j].term])
    requires id < |strs'| && strs'[id] == d.terms[j].term && t < |strs'|
    ensures var more := stream + [Entry(id, |docs|, d.terms[j].tf)];
            Of(more, t) == Inverted(docs, strs'[t]) + PartOf(d.terms[..j + 1], |docs|, strs'[t]) && Of(more, t) != []
  {
    hide Inverted, TfIn, Of, InVocab, ValidDoc;
    OfSnoc(stream, Entry(id, |docs|, d.terms[j].tf), t);
    TfNext(d.terms, j, strs'[t]);
    NotTwice(d, j);
    SameString(strs', t, id);
    if t >= |strs| {
      NotInVocab(stream, |strs|, t);
      assert strs'[t] !in strs;
    }
  }

  lemma OfSnoc(stream: seq<Entry>, e: Entry, t: nat)
    ensures Of(stream + [e], t) == Of(stream, t) + if e.term == t then [Posting(e.doc, e.tf)] else []
  {
    assert (stream + [e])[..|stream|] == stream;
  }

  lemma SameString(strs: seq<Bytes>, t: nat, id: nat)
    requires AllDistinct(strs) && t < |strs| && id < |strs|
    ensures strs[t] == strs[id] <==> t == id
  {
  }

  lemma NotTwice(d: Doc, j: nat)
    requires ValidDoc(d) && j < |d.terms|
    ensures TfIn(d.terms[..j], d.terms[j].term) == 0 && d.terms[j].tf > 0
  {
    TfOfTerm(d, d.terms[..j], d.terms[j].term);
  }

  class Inverter {
    const vocab: Vocab
    const cap: nat
    var buffer: seq<Entry>
    var runs: seq<Run>
    var dls: seq<u32>
    ghost var parts: seq<seq<Entry>>
    ghost var docs: seq<Doc>

    ghost function Stream(): seq<Entry>
      reads this
    {
      Flat(parts) + buffer
    }

    ghost predicate Ready()
      reads this, vocab
    {
      && vocab.Valid() && AllHold(runs, parts) && |dls| == |docs| && ValidDocs(docs)
      && (forall d :: 0 <= d < |docs| ==> dls[d] == docs[d].len)
    }

    ghost predicate Valid()
      reads this, vocab
    {
      Ready() && Inverts(Stream(), vocab.strs, docs)
    }

    constructor (hash: Bytes -> nat, cap: nat)
      ensures Valid() && docs == [] && fresh(vocab) && parts == [] && buffer == [] && runs == []
    {
      vocab := new Vocab(hash);
      this.cap := cap;
      buffer, runs, dls, parts, docs := [], [], [], [], [];
    }

    /** flush_run, unless the buffer is empty. */
    method Flush()
      requires Ready() && InVocab(Stream(), |vocab.strs|)
      modifies this
      ensures Ready() && Stream() == old(Stream()) && docs == old(docs) && buffer == []
    {
      hide Holds, Vocab.StringsOk, TableOk, AllDistinct, ValidDocs, InVocab;
      if buffer == [] {
        return;
      }
      TailInVocab(Flat(parts), buffer, |vocab.strs|);
      var run := FlushRun(buffer, vocab.Size());
      FlatNext(parts, buffer);
      runs := runs + [run];
      parts := parts + [buffer];
      buffer := [];
    }

    /** consume: number a document's terms and buffer them, spilling whenever the buffer is full, even in
        the middle of a document. */
    method Consume(d: Doc) returns (ok: bool)
      requires Valid() && ValidDoc(d)
      modifies this, vocab
      ensures ok == (|old(docs)| < MAX_DOCS)
      ensures Valid() && docs == if ok then old(docs) + [d] else old(docs)
    {
      hide *;
      DocCount();
      if |dls| >= MAX_DOCS {
        return false;
      }
      var ord := |dls|;
      StartDoc(Stream(), vocab.strs, docs);
      Opened();
      for j := 0 to |d.terms|
        invariant Ready() && docs == old(docs) && Meaning(Stream(), vocab.strs, docs, d.terms[..j])
      {
        Push(d, j, ord);
      }
      assert d.terms[..|d.terms|] == d.terms;
      Close(d);
      return true;
    }

    lemma DocCount()
      requires Valid()
      ensures |dls| == |docs| <= MAX_DOCS < 0x1_0000_0000 && Inverts(Stream(), vocab.strs, docs)
    {
    }

    lemma Opened()
      requires Valid() && Meaning(Stream(), vocab.strs, docs, [])
      ensures Ready() && forall terms: seq<TermCount> :: terms[..0] == []
    {
    }

    method Push(d: Doc, j: nat, ord: u32)
      requires Ready() && ValidDoc(d) && j < |d.terms| && ord == |docs|
      requires Meaning(Stream(), vocab.strs, docs, d.terms[..j])
      modifies this, vocab
      ensures Ready() && docs == old(docs) && Meaning(Stream(), vocab.strs, docs, d.terms[..j + 1])
    {
      hide Meaning, Of, Holds, Vocab.StringsOk, TableOk, ValidDoc;
      ghost var before := vocab.strs;
      var id := vocab.GetOrAdd(d.terms[j].term);
      NextTerm(Stream(), before, docs, d, j, vocab.strs, id);
      assert (Flat(parts) + buffer) + [Entry(id, ord, d.terms[j].tf)]
             == Flat(parts) + (buffer + [Entry(id, ord, d.terms[j].tf)]);
      buffer := buffer + [Entry(id, ord, d.terms[j].tf)];
      if |buffer| >= cap {
        MeaningVocab(Stream(), vocab.strs, docs, d.terms[..j + 1]);
        Flush();
      }
    }

    method Close(d: Doc)
      requires Ready() && ValidDoc(d) && Meaning(Stream(), vocab.strs, docs, d.terms)
      modifies this`dls, this`docs
      ensures Valid() && docs == old(docs) + [d]
    {
      EndDoc(Stream(), vocab.strs, docs, d);
      dls := dls + [d.len];
      docs := docs + [d];
    }
  }

  lemma MeaningVocab(stream: seq<Entry>, strs: seq<Bytes>, docs: seq<Doc>, terms: seq<TermCount>)
    requires Meaning(stream, strs, docs, terms)
    ensures InVocab(stream, |strs|)
  {
  }

  lemma TailInVocab(a: seq<Entry>, b: seq<Entry>, v: nat)
    requires InVocab(a + b, v)
    ensures InVocab(b, v)
  {
    forall i | 0 <= i < |b| ensures b[i].term < v {
      assert (a + b)[|a| + i] == b[i];
    }
  }

  lemma FlatNext(parts: seq<seq<Entry>>, b: seq<Entry>)
    ensures Flat(parts + [b]) + [] == Flat(parts) + b
  {
    assert (parts + [b])[..|parts|] == parts;
  }
}
