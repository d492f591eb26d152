/** engine/src/lexical/index_builder.cc, lines 509 to 588: one term's postings become coded blocks, a
    block table and score bounds. */
module TermBuilder {
  import opened Bits
  import opened Numbers
  import opened Codec
  import opened Postings
  import opened Bm25
  import Varint

  /** What is known of the collection when postings are written. */
  datatype Collection = Collection(rf: real -> real, k1: real, b: real, avgdl: real, dls: seq<u32>)

  function BuildNorms(col: Collection, model: Model): Norms {
    Norms(model, col.k1, col.b, col.avgdl)
  }

  ghost predicate ValidCollection(col: Collection)
    ensures ValidCollection(col) ==> col.avgdl > 0.0
  {
    && FloatRounding(col.rf) && col.k1 > 0.0 && 0.0 <= col.b <= 1.0 && col.avgdl > 0.0
    && |col.dls| <= 0xFFFF_FFF0
  }

  /** Every document of the list is in the collection, and is at least as long as its frequency. */
  ghost predicate Fits(col: Collection, docs: seq<u32>, tfs: seq<u32>) {
    && |docs| == |tfs|
    && (forall i :: 0 <= i < |docs| ==> docs[i] < |col.dls| && 0 < tfs[i] <= col.dls[docs[i]])
  }

  // ---------------------------------------------------------------------------------------------
  // Bounds
  // ---------------------------------------------------------------------------------------------

  /** The scaled frequency of posting `i` under the build parameters. */
  function Scaled(col: Collection, model: Model, docs: seq<u32>, tfs: seq<u32>, i: nat): real
    requires col.avgdl > 0.0 && i < |docs| == |tfs| && docs[i] < |col.dls|
  {
    ScaledTf(col.rf, tfs[i], Inv(col.rf, BuildNorms(col, model), col.dls[docs[i]]))
  }

  /** `best` is the frequency and length of a posting from `lo` to `hi` whose scaled frequency, `x`,
      is the largest. */
  ghost predicate BestIs(col: Collection, model: Model, docs: seq<u32>, tfs: seq<u32>, lo: nat, hi: nat,
                         best: Best, x: real)
    requires col.avgdl > 0.0 && Fits(col, docs, tfs) && hi <= |docs|
  {
    && (forall i :: lo <= i < hi ==> Scaled(col, model, docs, tfs, i) <= x)
    && (exists i :: lo <= i < hi && IsBest(col, model, docs, tfs, i, best, x))
  }

  ghost predicate IsBest(col: Collection, model: Model, docs: seq<u32>, tfs: seq<u32>, i: nat, best: Best, x: real)
    requires col.avgdl > 0.0 && Fits(col, docs, tfs) && i < |docs|
  {
    best == Best(tfs[i], col.dls[docs[i]]) && x == Scaled(col, model, docs, tfs, i)
  }

  /** `maxTf` and `minDl` are the largest frequency and the shortest length from `lo` to `hi`. */
  ghost predicate Extremes(col: Collection, docs: seq<u32>, tfs: seq<u32>, lo: nat, hi: nat, maxTf: nat, minDl: nat)
    requires Fits(col, docs, tfs) && hi <= |docs|
  {
    && (forall i :: lo <= i < hi ==> tfs[i] <= maxTf && minDl <= col.dls[docs[i]])
    && (exists i :: lo <= i < hi && tfs[i] == maxTf)
    && (exists i :: lo <= i < hi && col.dls[docs[i]] == minDl)
  }

  /** A BoundInfo as the builder computes it, with each model's largest scaled frequency. */
  datatype Bounds = Bounds(info: BoundInfo, x0: real, x1: real)

  ghost predicate BoundsOf(col: Collection, docs: seq<u32>, tfs: seq<u32>, lo: nat, hi: nat, bs: Bounds)
    requires col.avgdl > 0.0 && Fits(col, docs, tfs) && hi <= |docs|
  {
    && Extremes(col, docs, tfs, lo, hi, bs.info.maxTf, bs.info.minDl)
    && BestIs(col, Lucene, docs, tfs, lo, hi, bs.info.lucene, bs.x0)
    && BestIs(col, Textbook, docs, tfs, lo, hi, bs.info.textbook, bs.x1)
  }

  const NO_BOUNDS: Bounds := Bounds(BoundInfo(0, U32_MAX, Best(0, 0), Best(0, 0)), -1.0, -1.0)

  /** Take the other range's extremes, and its best postings where they score higher. */
  function Joined(a: Bounds, b: Bounds): Bounds {
    Bounds(BoundInfo(Max(a.info.maxTf, b.info.maxTf), Min(a.info.minDl, b.info.minDl),
                     if b.x0 > a.x0 then b.info.lucene else a.info.lucene,
                     if b.x1 > a.x1 then b.info.textbook else a.info.textbook),
           if b.x0 > a.x0 then b.x0 else a.x0,
           if b.x1 > a.x1 then b.x1 else a.x1)
  }

  lemma ScaledPositive(col: Collection, model: Model, docs: seq<u32>, tfs: seq<u32>, i: nat)
    requires ValidCollection(col) && Fits(col, docs, tfs) && i < |docs|
    ensures Scaled(col, model, docs, tfs, i) >= 0.0
  {
    hide Inv, ScaledTf, FloatRounding;
    var n, dl := BuildNorms(col, model), col.dls[docs[i]];
    UsualNormsSafe(col.rf, n, dl);
    InvAntitone(col.rf, n, dl, dl);
    ScaledMonotone(col.rf, tfs[i], Inv(col.rf, n, dl), tfs[i], Inv(col.rf, n, dl));
  }

  lemma BestJoins(col: Collection, model: Model, docs: seq<u32>, tfs: seq<u32>, lo: nat, mid: nat, hi: nat,
                  a: Best, x: real, b: Best, y: real)
    requires ValidCollection(col) && Fits(col, docs, tfs) && lo <= mid < hi <= |docs|
    requires BestIs(col, model, docs, tfs, mid, hi, b, y)
    requires if lo == mid then x == -1.0 else BestIs(col, model, docs, tfs, lo, mid, a, x)
    ensures BestIs(col, model, docs, tfs, lo, hi, if y > x then b else a, if y > x then y else x)
  {
    hide Scaled;
    var j :| mid <= j < hi && IsBest(col, model, docs, tfs, j, b, y);
    ScaledPositive(col, model, docs, tfs, j);
    if y > x {
      assert IsBest(col, model, docs, tfs, j, b, y);
    } else {
      var i :| lo <= i < mid && IsBest(col, model, docs, tfs, i, a, x);
      assert IsBest(col, model, docs, tfs, i, a, x);
    }
  }

  /** Bounds of adjacent ranges join to the bounds of both. */
  lemma BoundsJoin(col: Collection, docs: seq<u32>, tfs: seq<u32>, lo: nat, mid: nat, hi: nat, a: Bounds, b: Bounds)
    requires ValidCollection(col) && Fits(col, docs, tfs) && lo <= mid < hi <= |docs|
    requires BoundsOf(col, docs, tfs, mid, hi, b)
    requires if lo == mid then a == NO_BOUNDS else BoundsOf(col, docs, tfs, lo, mid, a)
    ensures BoundsOf(col, docs, tfs, lo, hi, Joined(a, b))
  {
    hide BestIs;
    BestJoins(col, Lucene, docs, tfs, lo, mid, hi, a.info.lucene, a.x0, b.info.lucene, b.x0);
    BestJoins(col, Textbook, docs, tfs, lo, mid, hi, a.info.textbook, a.x1, b.info.textbook, b.x1);
    ExtremesJoin(col, docs, tfs, lo, mid, hi, a, b);
  }

  lemma ExtremesJoin(col: Collection, docs: seq<u32>, tfs: seq<u32>, lo: nat, mid: nat, hi: nat, a: Bounds, b: Bounds)
    requires Fits(col, docs, tfs) && lo <= mid < hi <= |docs|
    requires Extremes(col, docs, tfs, mid, hi, b.info.maxTf, b.info.minDl)
    requires if lo == mid then a == NO_BOUNDS else Extremes(col, docs, tfs, lo, mid, a.info.maxTf, a.info.minDl)
    ensures Extremes(col, docs, tfs, lo, hi, Joined(a, b).info.maxTf, Joined(a, b).info.minDl)
  {
    var i :| mid <= i < hi && tfs[i] == b.info.maxTf;
    var j :| mid <= j < hi && col.dls[docs[j]] == b.info.minDl;
    if lo < mid {
      var k :| lo <= k < mid && tfs[k] == a.info.maxTf;
      var m :| lo <= m < mid && col.dls[docs[m]] == a.info.minDl;
    }
  }

  function OneBounds(col: Collection, docs: seq<u32>, tfs: seq<u32>, i: nat): Bounds
    requires col.avgdl > 0.0 && i < |docs| == |tfs| && docs[i] < |col.dls|
  {
    var best := Best(tfs[i], col.dls[docs[i]]);
    Bounds(BoundInfo(best.tf, best.dl, best, best),
           Scaled(col, Lucene, docs, tfs, i), Scaled(col, Textbook, docs, tfs, i))
  }

  lemma OneBoundsOf(col: Collection, docs: seq<u32>, tfs: seq<u32>, i: nat)
    requires col.avgdl > 0.0 && Fits(col, docs, tfs) && i < |docs|
    ensures BoundsOf(col, docs, tfs, i, i + 1, OneBounds(col, docs, tfs, i))
  {
    hide Scaled;
    var bs := OneBounds(col, docs, tfs, i);
    assert IsBest(col, Lucene, docs, tfs, i, bs.info.lucene, bs.x0);
    assert IsBest(col, Textbook, docs, tfs, i, bs.info.textbook, bs.x1);
  }

  /** bound_of: one pass over the postings from `lo` to `hi`. */
  method BoundOf(col: Collection, docs: seq<u32>, tfs: seq<u32>, lo: nat, hi: nat) returns (bs: Bounds)
    requires ValidCollection(col) && Fits(col, docs, tfs) && lo < hi <= |docs|
    ensures BoundsOf(col, docs, tfs, lo, hi, bs)
  {
    hide BoundsOf, OneBounds, Joined, FloatRounding;
    bs := NO_BOUNDS;
    for i := lo to hi
      invariant if i == lo then bs == NO_BOUNDS else BoundsOf(col, docs, tfs, lo, i, bs)
    {
      OneBoundsOf(col, docs, tfs, i);
      BoundsJoin(col, docs, tfs, lo, i, i + 1, bs, OneBounds(col, docs, tfs, i));
      bs := Joined(bs, OneBounds(col, docs, tfs, i));
    }
  }

  // ---------------------------------------------------------------------------------------------
  // Blocks
  // ---------------------------------------------------------------------------------------------

  lemma {:induction false} GapsTake(docs: seq<u32>, prev: u32, lo: nat, hi: nat)
    requires lo < hi <= |docs|
    ensures Gaps(docs, prev)[lo..hi] == Gaps(docs[lo..hi], if lo == 0 then prev else docs[lo - 1])
    decreases hi
  {
    var g := Gaps(docs, prev);
    if lo == 0 {
      if hi > 1 {
        GapsTake(docs[1..], docs[0], 0, hi - 1);
        assert docs[1..][..hi - 1] == docs[..hi][1..];
        assert g[0..hi] == [g[0]] + g[1..][0..hi - 1];
      } else {
        assert Gaps(docs[0..1][1..], docs[0]) == [];
        assert g[0..1] == [g[0]];
      }
    } else {
      GapsTake(docs[1..], docs[0], lo - 1, hi - 1);
      assert docs[1..][lo - 1..hi - 1] == docs[lo..hi];
      assert g[lo..hi] == g[1..][lo - 1..hi - 1];
    }
  }

  /** The gaps and frequencies of a block of the whole list's are those of the block on its own. */
  lemma BlockColumns(c: CodecKind, l: PostingList, b: nat)
    requires ValidList(l) && b < Blocks(|l.docs|)
    ensures var lo, hi := BlockLow(b), BlockHigh(|l.docs|, b);
            lo < hi <= |l.docs| && l.docs[hi - 1] == LastDoc(l, b)
            && EncodedBlock(c, Gaps(l.docs, U32_MAX)[lo..hi], MinusOne(l.tfs)[lo..hi]) == BytesOfBlock(c, l, b)
  {
    hide EncodedBlock, Gaps, ValidList, Blocks;
    BlockBounds(|l.docs|, b);
    var lo, hi := BlockLow(b), BlockHigh(|l.docs|, b);
    PrevDocIs(l, b);
    GapsTake(l.docs, U32_MAX, lo, hi);
    TfsPositive(l);
    assert MinusOne(l.tfs)[lo..hi] == MinusOne(l.tfs[lo..hi]);
  }

  lemma PrevDocIs(l: PostingList, b: nat)
    requires ValidList(l) && b < Blocks(|l.docs|)
    ensures BlockLow(b) <= |l.docs| && PrevDoc(l, b) == if BlockLow(b) == 0 then U32_MAX else l.docs[BlockLow(b) - 1]
  {
    BlockBounds(|l.docs|, b);
    if b > 0 {
      BlockBounds(|l.docs|, b - 1);
    }
  }

  lemma TfsPositive(l: PostingList)
    requires ValidList(l)
    ensures |l.docs| == |l.tfs| && forall i :: 0 <= i < |l.tfs| ==> l.tfs[i] > 0
  {
  }

  /** A block table entry: the block's last document, offset and bounds. */
  ghost predicate BlockBuilt(col: Collection, c: CodecKind, l: PostingList, b: nat, info: BlockInfo)
    requires col.avgdl > 0.0 && ValidList(l) && Fits(col, l.docs, l.tfs) && b < Blocks(|l.docs|)
  {
    && info.lastDoc == LastDoc(l, b) && info.off == BlockOffset(c, l, b)
    && BoundTrue(col, l, BlockLow(b), BlockHigh(|l.docs|, b), info.bound)
  }

  /** `bound` holds the extremes and the best postings of a range. */
  ghost predicate BoundTrue(col: Collection, l: PostingList, lo: nat, hi: nat, bound: BoundInfo)
    requires col.avgdl > 0.0 && Fits(col, l.docs, l.tfs) && hi <= |l.docs|
  {
    exists x0: real, x1: real :: BoundsOf(col, l.docs, l.tfs, lo, hi, Bounds(bound, x0, x1))
  }

  /** A term's entry stores its postings and true bounds of them, as a whole and block by block. */
  ghost predicate Built(col: Collection, c: CodecKind, l: PostingList, t: TermInfo)
    requires col.avgdl > 0.0
  {
    && ValidList(l) && Fits(col, l.docs, l.tfs) && Stores(c, t, l)
    && BoundTrue(col, l, 0, |l.docs|, t.bound)
    && (forall b :: 0 <= b < |t.blocks| ==> BlockBoundTrue(col, l, b, t.blocks[b].bound))
  }

  ghost predicate BlockBoundTrue(col: Collection, l: PostingList, b: nat, bound: BoundInfo)
    requires col.avgdl > 0.0 && Fits(col, l.docs, l.tfs)
  {
    BlockHigh(|l.docs|, b) <= |l.docs| && BoundTrue(col, l, BlockLow(b), BlockHigh(|l.docs|, b), bound)
  }

  /** All blocks before `b` are in `bytes`, in `table` and in the bounds. */
  ghost predicate Progress(col: Collection, c: CodecKind, l: PostingList, b: nat, bytes: seq<byte>,
                           table: seq<BlockInfo>, bs: Bounds)
    requires col.avgdl > 0.0
  {
    && ValidList(l) && Fits(col, l.docs, l.tfs) && b <= Blocks(|l.docs|)
    && BytesDone(c, l, b, bytes) && TableDone(col, c, l, b, table) && BoundsDone(col, l, b, bs)
  }

  ghost predicate BytesDone(c: CodecKind, l: PostingList, b: nat, bytes: seq<byte>)
    requires ValidList(l) && b <= Blocks(|l.docs|)
  {
    && |bytes| == BlockOffset(c, l, b)
    && (forall j :: 0 <= j < b ==> Varint.BytesAt(bytes, BlockOffset(c, l, j), BytesOfBlock(c, l, j)))
  }

  ghost predicate TableDone(col: Collection, c: CodecKind, l: PostingList, b: nat, table: seq<BlockInfo>)
    requires col.avgdl > 0.0 && ValidList(l) && Fits(col, l.docs, l.tfs) && b <= Blocks(|l.docs|)
  {
    |table| == b && forall j :: 0 <= j < b ==> BlockBuilt(col, c, l, j, table[j])
  }

  ghost predicate BoundsDone(col: Collection, l: PostingList, b: nat, bs: Bounds)
    requires col.avgdl > 0.0 && Fits(col, l.docs, l.tfs)
  {
    if b == 0 then bs == NO_BOUNDS
    else BlockHigh(|l.docs|, b - 1) <= |l.docs| && BoundsOf(col, l.docs, l.tfs, 0, BlockHigh(|l.docs|, b - 1), bs)
  }

  lemma BytesStay(bytes: seq<byte>, p: nat, part: seq<byte>, more: seq<byte>)
    requires Varint.BytesAt(bytes, p, part)
    ensures Varint.BytesAt(bytes + more, p, part)
  {
    assert (bytes + more)[p..p + |part|] == bytes[p..p + |part|];
  }

  /** Encode one block and extend the table and the term's bounds. */
  method AddBlock(col: Collection, c: CodecKind, docs: seq<u32>, tfs: seq<u32>, gaps: seq<u32>, tfm1: seq<u32>, b: nat,
                  bytes0: seq<byte>, table0: seq<BlockInfo>, bs0: Bounds)
    returns (bytes: seq<byte>, table: seq<BlockInfo>, bs: Bounds)
    requires ValidCollection(col) && Progress(col, c, PostingList(docs, tfs), b, bytes0, table0, bs0)
    requires b < Blocks(|docs|) && gaps == Gaps(docs, U32_MAX) && tfm1 == MinusOne(tfs)
    ensures Progress(col, c, PostingList(docs, tfs), b + 1, bytes, table, bs)
  {
    hide EncodedBlock, Gaps, BoundsOf, Joined, BytesOfBlock, Fits, FloatRounding, Varint.BytesAt, LastDoc, BlockLow,
      BlockHigh, BlockOffset, BlockBuilt;
    ghost var l := PostingList(docs, tfs);
    var lo, hi := BlockLow(b), BlockHigh(|docs|, b);
    BlockBounds(|docs|, b);
    BlockColumns(c, l, b);
    var blk := BoundOf(col, docs, tfs, lo, hi);
    bs := Joined(bs0, blk);
    table := table0 + [BlockInfo(docs[hi - 1], |bytes0|, blk.info)];
    bytes := EncodeBlock(c, gaps[lo..hi], tfm1[lo..hi], bytes0);
    BlockAdded(col, c, l, b, bytes0, table0, bs0, blk);
  }

  lemma BlockAdded(col: Collection, c: CodecKind, l: PostingList, b: nat, bytes: seq<byte>, table: seq<BlockInfo>,
                   bs: Bounds, blk: Bounds)
    requires ValidCollection(col) && Progress(col, c, l, b, bytes, table, bs) && b < Blocks(|l.docs|)
    requires BlockHigh(|l.docs|, b) <= |l.docs|
    requires BoundsOf(col, l.docs, l.tfs, BlockLow(b), BlockHigh(|l.docs|, b), blk)
    ensures Progress(col, c, l, b + 1, bytes + BytesOfBlock(c, l, b),
                     table + [BlockInfo(LastDoc(l, b), |bytes|, blk.info)], Joined(bs, blk))
  {
    hide *;
    BlockBounds(|l.docs|, b);
    ProgressParts(col, c, l, b, bytes, table, bs);
    BoundsNext(col, l, b, bs, blk);
    TableNext(col, c, l, b, table, blk, |bytes|);
    BlocksStay(c, l, b, bytes);
    ProgressWhole(col, c, l, b + 1, bytes + BytesOfBlock(c, l, b),
                  table + [BlockInfo(LastDoc(l, b), |bytes|, blk.info)], Joined(bs, blk));
  }

  lemma ProgressParts(col: Collection, c: CodecKind, l: PostingList, b: nat, bytes: seq<byte>, table: seq<BlockInfo>,
                      bs: Bounds)
    requires col.avgdl > 0.0 && Progress(col, c, l, b, bytes, table, bs)
    ensures ValidList(l) && Fits(col, l.docs, l.tfs) && |l.docs| == |l.tfs| && b <= Blocks(|l.docs|)
    ensures BytesDone(c, l, b, bytes) && TableDone(col, c, l, b, table) && BoundsDone(col, l, b, bs)
    ensures |bytes| == BlockOffset(c, l, b)
  {
  }

  lemma ProgressWhole(col: Collection, c: CodecKind, l: PostingList, b: nat, bytes: seq<byte>, table: seq<BlockInfo>,
                      bs: Bounds)
    requires col.avgdl > 0.0 && ValidList(l) && Fits(col, l.docs, l.tfs) && b <= Blocks(|l.docs|)
    requires BytesDone(c, l, b, bytes) && TableDone(col, c, l, b, table) && BoundsDone(col, l, b, bs)
    ensures Progress(col, c, l, b, bytes, table, bs)
  {
  }

  lemma BoundsNext(col: Collection, l: PostingList, b: nat, bs: Bounds, blk: Bounds)
    requires ValidCollection(col) && ValidList(l) && Fits(col, l.docs, l.tfs) && b < Blocks(|l.docs|)
    requires BoundsDone(col, l, b, bs) && BlockHigh(|l.docs|, b) <= |l.docs|
    requires BoundsOf(col, l.docs, l.tfs, BlockLow(b), BlockHigh(|l.docs|, b), blk)
    ensures BoundsDone(col, l, b + 1, Joined(bs, blk))
  {
    hide BoundsOf, Joined, FloatRounding, ValidList, Blocks;
    BlockBounds(|l.docs|, b);
    if b > 0 {
      BlockBounds(|l.docs|, b - 1);
      assert BlockHigh(|l.docs|, b - 1) == BlockLow(b);
    }
    BoundsJoin(col, l.docs, l.tfs, 0, BlockLow(b), BlockHigh(|l.docs|, b), bs, blk);
  }

  lemma TableNext(col: Collection, c: CodecKind, l: PostingList, b: nat, table: seq<BlockInfo>, blk: Bounds, off: nat)
    requires col.avgdl > 0.0 && ValidList(l) && Fits(col, l.docs, l.tfs) && b < Blocks(|l.docs|)
    requires TableDone(col, c, l, b, table) && off == BlockOffset(c, l, b)
    requires BlockHigh(|l.docs|, b) <= |l.docs|
    requires BoundsOf(col, l.docs, l.tfs, BlockLow(b), BlockHigh(|l.docs|, b), blk)
    ensures TableDone(col, c, l, b + 1, table + [BlockInfo(LastDoc(l, b), off, blk.info)])
  {
    hide BoundsOf, ValidList, BlockOffset, LastDoc, BlockLow, BlockHigh, Blocks;
    BoundIsTrue(col, l, BlockLow(b), BlockHigh(|l.docs|, b), blk);
  }

  lemma BlocksStay(c: CodecKind, l: PostingList, b: nat, bytes: seq<byte>)
    requires ValidList(l) && b < Blocks(|l.docs|) && BytesDone(c, l, b, bytes)
    ensures BytesDone(c, l, b + 1, bytes + BytesOfBlock(c, l, b))
  {
    hide BytesOfBlock, Varint.BytesAt, ValidList;
    var part := BytesOfBlock(c, l, b);
    forall j | 0 <= j < b ensures Varint.BytesAt(bytes + part, BlockOffset(c, l, j), BytesOfBlock(c, l, j)) {
      BytesStay(bytes, BlockOffset(c, l, j), BytesOfBlock(c, l, j), part);
    }
    BytesAtEnd(bytes, part);
  }

  lemma BytesAtEnd(bytes: seq<byte>, part: seq<byte>)
    ensures Varint.BytesAt(bytes + part, |bytes|, part)
  {
  }

  datatype BuildError = NoPostings | OutOfOrder
  datatype BuildResult = Term(t: TermInfo) | Refused(error: BuildError)

  /** Gaps and frequencies less one of a whole list, refusing a list that does not increase. */
  method Columns(docs: seq<u32>, tfs: seq<u32>) returns (ok: bool, gaps: seq<u32>, tfm1: seq<u32>)
    requires |docs| == |tfs| && forall i :: 0 <= i < |tfs| ==> tfs[i] > 0
    ensures ok <==> Increasing(docs)
    ensures ok ==> gaps == Gaps(docs, U32_MAX) && tfm1 == MinusOne(tfs)
  {
    gaps, tfm1, ok := [], [], true;
    var prev := U32_MAX;
    for i := 0 to |docs|
      invariant |gaps| == |tfm1| == i
      invariant Increasing(docs[..i]) && prev == if i == 0 then U32_MAX else docs[i - 1]
      invariant gaps == Gaps(docs, U32_MAX)[..i] && tfm1 == MinusOne(tfs)[..i]
    {
      if i > 0 && docs[i] <= docs[i - 1] {
        assert !(docs[i - 1] < docs[i]);
        return false, [], [];
      }
      GapsTake(docs, U32_MAX, i, i + 1);
      assert Gaps(docs[i..i + 1], prev) == [GapOf(docs[i], prev)] by { assert docs[i..i + 1][1..] == []; }
      gaps := gaps + [GapOf(docs[i], prev)];
      tfm1 := tfm1 + [tfs[i] - 1];
      prev := docs[i];
    }
    assert docs[..|docs|] == docs;
  }

  /** The merge loop's body for one term: an entry exactly when the list is not empty and increases. */
  method BuildTerm(col: Collection, c: CodecKind, docs: seq<u32>, tfs: seq<u32>) returns (r: BuildResult)
    requires ValidCollection(col) && Fits(col, docs, tfs)
    ensures r.Term? <==> docs != [] && Increasing(docs)
    ensures r.Term? ==> Built(col, c, PostingList(docs, tfs), r.t)
    ensures r.Refused? ==> r.error == if docs == [] then NoPostings else OutOfOrder
  {
    hide Increasing, Gaps, Progress, FloatRounding, Built;
    if docs == [] {
      return Refused(NoPostings);
    }
    var ok, gaps, tfm1 := Columns(docs, tfs);
    if !ok {
      return Refused(OutOfOrder);
    }
    var bytes, table, bs := [], [], NO_BOUNDS;
    ListIsValid(col, docs, tfs);
    StartBlocks(col, c, PostingList(docs, tfs));
    for b := 0 to Blocks(|docs|)
      invariant Progress(col, c, PostingList(docs, tfs), b, bytes, table, bs)
    {
      bytes, table, bs := AddBlock(col, c, docs, tfs, gaps, tfm1, b, bytes, table, bs);
    }
    var t := TermInfo(|docs|, bytes, if Blocks(|docs|) > 1 then table else [], bs.info);
    TermIsBuilt(col, c, PostingList(docs, tfs), bytes, table, bs, t);
    r := Term(t);
  }

  lemma ListIsValid(col: Collection, docs: seq<u32>, tfs: seq<u32>)
    requires ValidCollection(col) && Fits(col, docs, tfs) && docs != [] && Increasing(docs)
    ensures ValidList(PostingList(docs, tfs)) && Blocks(|docs|) > 0
  {
  }

  lemma StartBlocks(col: Collection, c: CodecKind, l: PostingList)
    requires col.avgdl > 0.0 && ValidList(l) && Fits(col, l.docs, l.tfs)
    ensures Progress(col, c, l, 0, [], [], NO_BOUNDS)
  {
  }

  lemma TermIsBuilt(col: Collection, c: CodecKind, l: PostingList, bytes: seq<byte>, table: seq<BlockInfo>, bs: Bounds,
                    t: TermInfo)
    requires col.avgdl > 0.0 && ValidList(l) && Progress(col, c, l, Blocks(|l.docs|), bytes, table, bs)
    requires t == TermInfo(|l.docs|, bytes, if Blocks(|l.docs|) > 1 then table else [], bs.info)
    ensures Built(col, c, l, t)
  {
    hide BytesOfBlock, BoundsOf, FloatRounding, Varint.BytesAt, LastDoc, Fits, BoundTrue;
    var nb := Blocks(|l.docs|);
    assert nb > 0;
    BlockBounds(|l.docs|, nb - 1);
    BoundIsTrue(col, l, 0, |l.docs|, bs);
    forall b | 0 <= b < nb
      ensures BlockStored(c, t, l, b) && BlockBuilt(col, c, l, b, table[b]) && BlockHigh(|l.docs|, b) <= |l.docs| {
      BlockBounds(|l.docs|, b);
    }
  }

  lemma BoundIsTrue(col: Collection, l: PostingList, lo: nat, hi: nat, bs: Bounds)
    requires col.avgdl > 0.0 && Fits(col, l.docs, l.tfs) && hi <= |l.docs| && BoundsOf(col, l.docs, l.tfs, lo, hi, bs)
    ensures BoundTrue(col, l, lo, hi, bs.info)
  {
    assert Bounds(bs.info, bs.x0, bs.x1) == bs;
  }
}
