/** An index on disk: what engine/src/lexical/index_builder.cc writes for a document collection is what
    engine/src/lexical/index.cc opens. */
module StoredIndex {
  import opened Bits
  import opened ByteStrings
  import opened Varint
  import opened Codec
  import opened Postings
  import opened TermBuilder
  import opened IndexBuilder
  import opened BuiltIndex
  import opened Lexicon
  import opened LexiconReader
  import opened LexiconRoundTrip

  /** Sizes the formats can express: 32-bit lengths and offsets within a term, 64-bit occurrence counts. */
  ghost predicate Storable(index: Index, cfs: seq<nat>)
    requires |index.strs| == |index.infos|
  {
    && |cfs| == |index.strs|
    && (forall i :: 0 <= i < |cfs| ==> index.infos[i].df <= cfs[i] < TWO64)
    && (forall i :: 0 <= i < |cfs| ==> |index.strs[i]| <= U32_MAX && |index.infos[i].bytes| < TWO32)
  }

  /** Bounds are frequencies and lengths of documents, and so fit 32 bits. */
  lemma BoundIsSmall(col: Collection, l: PostingList, lo: nat, hi: nat, b: BoundInfo)
    requires col.avgdl > 0.0 && Fits(col, l.docs, l.tfs) && hi <= |l.docs| && BoundTrue(col, l, lo, hi, b)
    ensures BoundFits(b)
  {
    hide Scaled;
    var x0: real, x1: real :| BoundsOf(col, l.docs, l.tfs, lo, hi, Bounds(b, x0, x1));
  }

  lemma OffsetsAscend(c: CodecKind, t: TermInfo, l: PostingList, b: nat)
    requires Stores(c, t, l) && b < Blocks(t.df)
    ensures BlockOffset(c, l, b) <= BlockOffset(c, l, b + 1) <= |t.bytes|
  {
    hide BytesOfBlock;
    assert BlockStored(c, t, l, b);
  }

  lemma LastsAscend(l: PostingList, b: nat)
    requires ValidList(l) && b + 1 < Blocks(|l.docs|)
    ensures LastDoc(l, b) <= LastDoc(l, b + 1)
  {
    BlockBounds(|l.docs|, b);
    BlockBounds(|l.docs|, b + 1);
  }

  lemma ListSize(l: PostingList)
    requires ValidList(l)
    ensures 0 < |l.docs| <= U32_MAX
  {
    IncreasingSize(l.docs, |l.docs| - 1);
  }

  lemma {:induction false} IncreasingSize(docs: seq<u32>, i: nat)
    requires Increasing(docs) && i < |docs|
    ensures i <= docs[i]
  {
    if i > 0 {
      IncreasingSize(docs, i - 1);
    }
  }

  /** A built entry can be written and read. */
  lemma BuiltFits(col: Collection, c: CodecKind, l: PostingList, t: TermInfo, str: Bytes, cf: nat)
    requires col.avgdl > 0.0 && Built(col, c, l, t) && |t.bytes| < TWO32 && |str| <= U32_MAX && t.df <= cf < TWO64
    ensures WellFormed(Lexicon.Term.Term(str, cf, [t]), 1)
  {
    hide BoundTrue, BlockStored, BlockOffset, LastDoc, BoundFits, Fits, ValidList;
    ListSize(l);
    SizeOfTable(t.df);
    BoundIsSmall(col, l, 0, |l.docs|, t.bound);
    forall j | 0 <= j < |t.blocks|
      ensures BoundFits(t.blocks[j].bound) && t.blocks[j].off < TWO32
      ensures j > 0 ==> t.blocks[j - 1].lastDoc <= t.blocks[j].lastDoc && t.blocks[j - 1].off <= t.blocks[j].off
    {
      assert BlockBoundTrue(col, l, j, t.blocks[j].bound) && BlockDescribed(c, t, l, j);
      BoundIsSmall(col, l, BlockLow(j), BlockHigh(|l.docs|, j), t.blocks[j].bound);
      OffsetsAscend(c, t, l, j);
      if j > 0 {
        assert BlockDescribed(c, t, l, j - 1);
        OffsetsAscend(c, t, l, j - 1);
        LastsAscend(l, j - 1);
      }
    }
  }

  lemma SizeOfTable(df: nat)
    requires df > 0
    ensures TableSize(df) == (if Blocks(df) == 1 then 0 else Blocks(df))
  {
  }

  function TermsOf(index: Index, cfs: seq<nat>): (terms: seq<Term>)
    requires |index.strs| == |index.infos| == |cfs|
    ensures |terms| == |index.strs|
    ensures forall i :: 0 <= i < |terms| ==> terms[i] == Lexicon.Term.Term(index.strs[i], cfs[i], [index.infos[i]])
  {
    seq(|index.strs|, i requires 0 <= i < |index.strs| => Lexicon.Term.Term(index.strs[i], cfs[i], [index.infos[i]]))
  }

  lemma TermsFit(index: Index, col: Collection, c: CodecKind, docs: seq<Doc>, cfs: seq<nat>)
    requires col.avgdl > 0.0 && |docs| <= MAX_DOCS && IsIndexOf(index, col, c, docs) && Storable(index, cfs)
    ensures AllWellFormed(TermsOf(index, cfs), 1)
  {
    hide Built, WellFormed, Inverted, Less;
    var terms := TermsOf(index, cfs);
    forall i | 0 <= i < |terms| ensures WellFormed(terms[i], 1) {
      BuiltFits(col, c, ListOf(docs, index.strs[i]), index.infos[i], index.strs[i], cfs[i]);
    }
  }

  /** The number of rows that the statistics record. */
  method CountRows(terms: seq<Term>) returns (n: nat)
    requires AllWellFormed(terms, 1)
    ensures n == |Rows(terms, 1)|
  {
    hide WellFormed, RowsOf;
    n := 0;
    assert terms[0..] == terms;
    for i := 0 to |terms|
      invariant n + |Rows(terms[i..], 1)| == |Rows(terms, 1)|
    {
      assert terms[i..][1..] == terms[i + 1..];
      n := n + TableSize(terms[i].infos[0].df);
    }
  }

  /** Write an index of documents and open it: nothing is lost. */
  method WriteAndOpen(col: Collection, c: CodecKind, ghost docs: seq<Doc>, index: Index, cfs: seq<nat>)
    returns (back: Index)
    requires col.avgdl > 0.0 && |docs| <= MAX_DOCS && IsIndexOf(index, col, c, docs) && Storable(index, cfs)
    ensures back == index
  {
    hide IsIndexOf, WellFormed, AllWellFormed, Storable, IsFiles, Rows, OpenTerms, OpenTermOf, InFile, EntryInFile;
    IndexSizes(index, col, c, docs, cfs);
    TermsFit(index, col, c, docs, cfs);
    var terms := TermsOf(index, cfs);
    var rows := CountRows(terms);
    var f := Write(terms, 1);
    var tb := Reopen(f, 1, |terms|, rows, terms);
    var strs: seq<Bytes>, infos: seq<TermInfo> := [], [];
    for i := 0 to |tb.terms|
      invariant |tb.terms| == |terms| && tb == Tables(OpenTerms(terms, 1), Rows(terms, 1))
      invariant strs == index.strs[..i] && infos == index.infos[..i]
    {
      ViewsRestored(f, terms, 1, i, 0);
      strs, infos := strs + [TermString(f, tb, i)], infos + [Entry(f, tb, 0, i)];
    }
    assert index.strs[..|terms|] == index.strs && index.infos[..|terms|] == index.infos;
    back := Index(strs, infos);
  }

  lemma IndexSizes(index: Index, col: Collection, c: CodecKind, docs: seq<Doc>, cfs: seq<nat>)
    requires col.avgdl > 0.0 && |docs| <= MAX_DOCS && IsIndexOf(index, col, c, docs) && Storable(index, cfs)
    ensures |index.strs| == |index.infos| == |cfs|
  {
  }

  // ---------------------------------------------------------------------------------------------
  // Posting lists
  // ---------------------------------------------------------------------------------------------

  /** LexicalIndex::postings: block after block, each from where the last one ended, is the whole list. */
  method ReadPostings(neon: bool, c: CodecKind, t: TermInfo, ghost l: PostingList) returns (r: Result<PostingList>)
    ensures Stores(c, t, l) ==> r == Ok(l)
  {
    hide Stores, ReadUpTo, DecodedBlock, Blocks, BlockLow, BlockHigh;
    ghost var good := Stores(c, t, l);
    var docs: seq<u32>, tfs: seq<u32> := [], [];
    var p: nat, prev: u32 := 0, U32_MAX;
    if good {
      ListStart(c, t, l);
    }
    for b := 0 to Blocks(t.df)
      invariant good ==> ReadUpTo(c, l, b, docs, tfs, p, prev)
    {
      RangeOfBlock(t.df, b);
      if good {
        BlockFollows(c, t, l, b, docs, tfs, p, prev);
      }
      var d :- DecodeBlock(neon, c, t.bytes, p, BlockHigh(t.df, b) - BlockLow(b), prev);
      docs, tfs, p := docs + d.docs, tfs + d.tfs, d.next;
      if d.docs != [] {
        prev := d.docs[|d.docs| - 1];
      }
    }
    if good {
      ListEnd(c, t, l, docs, tfs, p, prev);
    }
    r := Ok(PostingList(docs, tfs));
  }

  lemma RangeOfBlock(df: nat, b: nat)
    requires b < Blocks(df)
    ensures BlockLow(b) <= BlockHigh(df, b)
  {
    BlockBounds(df, b);
  }

  ghost predicate ReadUpTo(c: CodecKind, l: PostingList, b: nat, docs: seq<u32>, tfs: seq<u32>, p: nat, prev: u32) {
    && ValidList(l) && b <= Blocks(|l.docs|) && p == BlockOffset(c, l, b) && prev == PrevDoc(l, b)
    && (var n := if b * BLOCK_SIZE < |l.docs| then b * BLOCK_SIZE else |l.docs|;
        docs == l.docs[..n] && tfs == l.tfs[..n])
  }

  lemma ListStart(c: CodecKind, t: TermInfo, l: PostingList)
    requires Stores(c, t, l)
    ensures ReadUpTo(c, l, 0, [], [], 0, U32_MAX)
  {
  }

  lemma ListEnd(c: CodecKind, t: TermInfo, l: PostingList, docs: seq<u32>, tfs: seq<u32>, p: nat, prev: u32)
    requires Stores(c, t, l) && ReadUpTo(c, l, Blocks(t.df), docs, tfs, p, prev)
    ensures PostingList(docs, tfs) == l
  {
    hide BlockOffset, BlockStored, BlockDescribed;
    assert l.docs[..|l.docs|] == l.docs && l.tfs[..|l.tfs|] == l.tfs;
  }

  lemma BlockFollows(c: CodecKind, t: TermInfo, l: PostingList, b: nat, docs: seq<u32>, tfs: seq<u32>, p: nat,
                     prev: u32)
    requires Stores(c, t, l) && b < Blocks(t.df) && ReadUpTo(c, l, b, docs, tfs, p, prev)
    ensures var d := DecodedBlock(c, t.bytes, p, BlockHigh(t.df, b) - BlockLow(b), prev);
            && d.Ok? && d.value.docs != []
            && ReadUpTo(c, l, b + 1, docs + d.value.docs, tfs + d.value.tfs, d.value.next,
                        d.value.docs[|d.value.docs| - 1])
  {
    hide DecodedBlock, BlockOffset, BlockStored, BlockDescribed;
    BlockDecodes(c, t, l, b);
    BlockBounds(t.df, b);
    var lo, hi := BlockLow(b), BlockHigh(t.df, b);
    assert l.docs[..lo] + l.docs[lo..hi] == l.docs[..hi] && l.tfs[..lo] + l.tfs[lo..hi] == l.tfs[..hi];
  }
}
