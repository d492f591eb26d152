/** What a term's entry in the index holds (engine/include/hs/lexical/index.hpp), and the posting
    list that it stands for. */
module Postings {
  import opened Bits
  import opened Varint
  import opened Codec

  /** The document ordinal of an exhausted cursor; every real ordinal is smaller. */
  const END: u32 := U32_MAX

  datatype Best = Best(tf: nat, dl: nat)

  /** Score bounds of a posting range: for each model the best-scoring posting under the build
      parameters, and the pair that is safe under any others. */
  datatype BoundInfo = BoundInfo(maxTf: nat, minDl: nat, lucene: Best, textbook: Best)

  datatype BlockInfo = BlockInfo(lastDoc: u32, off: nat, bound: BoundInfo)

  /** `bytes` are the postings from the term's first; `blocks` is empty for a one-block term. */
  datatype TermInfo = TermInfo(df: nat, bytes: seq<byte>, blocks: seq<BlockInfo>, bound: BoundInfo)

  datatype PostingList = PostingList(docs: seq<u32>, tfs: seq<u32>)

  predicate Increasing(docs: seq<u32>) {
    forall i, j :: 0 <= i < j < |docs| ==> docs[i] < docs[j]
  }

  ghost predicate ValidList(l: PostingList) {
    && |l.docs| == |l.tfs| > 0
    && Increasing(l.docs)
    && (forall i :: 0 <= i < |l.docs| ==> l.docs[i] < END)
    && (forall i :: 0 <= i < |l.tfs| ==> l.tfs[i] > 0)
  }

  function Blocks(df: nat): nat {
    (df + BLOCK_SIZE - 1) / BLOCK_SIZE
  }

  function BlockLow(b: nat): nat {
    b * BLOCK_SIZE
  }

  function BlockHigh(df: nat, b: nat): nat {
    if df < (b + 1) * BLOCK_SIZE then df else (b + 1) * BLOCK_SIZE
  }

  ghost function BlockDocs(l: PostingList, b: nat): seq<u32>
    requires ValidList(l) && b < Blocks(|l.docs|)
  {
    l.docs[BlockLow(b)..BlockHigh(|l.docs|, b)]
  }

  ghost function BlockTfs(l: PostingList, b: nat): seq<u32>
    requires ValidList(l) && b < Blocks(|l.docs|)
  {
    l.tfs[BlockLow(b)..BlockHigh(|l.docs|, b)]
  }

  ghost function LastDoc(l: PostingList, b: nat): u32
    requires ValidList(l) && b < Blocks(|l.docs|)
  {
    l.docs[BlockHigh(|l.docs|, b) - 1]
  }

  /** The document before block `b`, which its first gap is counted from. */
  ghost function PrevDoc(l: PostingList, b: nat): u32
    requires ValidList(l) && b <= Blocks(|l.docs|)
  {
    if b == 0 then U32_MAX else LastDoc(l, b - 1)
  }

  ghost function BytesOfBlock(c: CodecKind, l: PostingList, b: nat): seq<byte>
    requires ValidList(l) && b < Blocks(|l.docs|)
  {
    BlockBytes(c, BlockDocs(l, b), BlockTfs(l, b), PrevDoc(l, b))
  }

  ghost function BlockOffset(c: CodecKind, l: PostingList, b: nat): nat
    requires ValidList(l) && b <= Blocks(|l.docs|)
  {
    if b == 0 then 0 else BlockOffset(c, l, b - 1) + |BytesOfBlock(c, l, b - 1)|
  }

  ghost predicate BlockStored(c: CodecKind, t: TermInfo, l: PostingList, b: nat)
    requires ValidList(l) && b < Blocks(|l.docs|)
  {
    BytesAt(t.bytes, BlockOffset(c, l, b), BytesOfBlock(c, l, b))
  }

  ghost predicate BlockDescribed(c: CodecKind, t: TermInfo, l: PostingList, b: nat)
    requires ValidList(l) && b < Blocks(|l.docs|)
  {
    b < |t.blocks| && t.blocks[b].lastDoc == LastDoc(l, b) && t.blocks[b].off == BlockOffset(c, l, b)
  }

  /** Entry `t` stores posting list `l`: its blocks lie one after another, and a term of several
      blocks records each block's last document and offset. */
  ghost predicate Stores(c: CodecKind, t: TermInfo, l: PostingList) {
    && ValidList(l)
    && t.df == |l.docs|
    && (forall b :: 0 <= b < Blocks(t.df) ==> BlockStored(c, t, l, b))
    && (if Blocks(t.df) == 1 then t.blocks == []
        else |t.blocks| == Blocks(t.df)
             && forall b :: 0 <= b < Blocks(t.df) ==> BlockDescribed(c, t, l, b))
  }

  lemma BlockBounds(df: nat, b: nat)
    requires b < Blocks(df)
    ensures 0 <= BlockLow(b) < BlockHigh(df, b) <= df
    ensures BlockHigh(df, b) - BlockLow(b) <= BLOCK_SIZE
    ensures b + 1 < Blocks(df) ==> BlockHigh(df, b) == BlockLow(b + 1)
    ensures b + 1 == Blocks(df) ==> BlockHigh(df, b) == df
  {
  }

  /** Decoding any block from its offset and its predecessor's last document yields its postings and
      leads to the next block: random access and a sequential scan read the same list. */
  lemma BlockDecodes(c: CodecKind, t: TermInfo, l: PostingList, b: nat)
    requires Stores(c, t, l) && b < Blocks(t.df)
    ensures DecodedBlock(c, t.bytes, BlockOffset(c, l, b), BlockHigh(t.df, b) - BlockLow(b), PrevDoc(l, b))
         == Ok(Decoded(BlockDocs(l, b), BlockTfs(l, b), BlockOffset(c, l, b + 1)))
  {
    hide DecodedBlock, BlockBytes;
    assert BlockStored(c, t, l, b);
    DecodeInvertsEncode(c, BlockDocs(l, b), BlockTfs(l, b), PrevDoc(l, b), t.bytes, BlockOffset(c, l, b));
  }
}
