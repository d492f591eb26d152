/** The posting cursor of engine/src/lexical/search.cc: a decoded block, a position in it, and a block
    pointer that `ShallowNext` moves ahead of the decoded block. */
module Cursors {
  import opened Bits
  import opened Varint
  import opened Codec
  import opened Postings

  /** Where a block begins, and the document before it. */
  lemma BlockBegins(c: CodecKind, t: TermInfo, l: PostingList, b: nat)
    requires Stores(c, t, l) && b < Blocks(t.df) && (b > 0 ==> t.blocks != [])
    ensures ValidList(l) && t.df == |l.docs| && (t.blocks != [] ==> |t.blocks| == Blocks(t.df))
    ensures (if t.blocks == [] then 0 else t.blocks[b].off) == BlockOffset(c, l, b)
    ensures (if b == 0 then U32_MAX else t.blocks[b - 1].lastDoc) == PrevDoc(l, b)
  {
    hide BlockStored, ValidList;
    if b > 0 {
      assert BlockDescribed(c, t, l, b - 1);
    }
    assert t.blocks != [] ==> BlockDescribed(c, t, l, b);
  }

  class Cursor {
    const codec: CodecKind
    const t: TermInfo
    const nb: nat
    ghost const l: PostingList

    var singleLast: u32
    var blk: nat
    var decoded: nat
    var pos: nat
    var n: nat
    var doc: u32
    var docs: seq<u32>
    var tfs: seq<u32>

    /** The largest target given to ShallowNext. */
    ghost var shallow: nat

    ghost predicate Loaded(b: nat)
      reads this
    {
      && Stores(codec, t, l) && nb == Blocks(t.df) && b < nb
      && decoded == b
      && docs == BlockDocs(l, b) && tfs == BlockTfs(l, b) && n == |docs|
    }

    ghost predicate Valid()
      reads this
      ensures Valid() ==> ValidList(l) && t.df == |l.docs| && blk <= Blocks(|l.docs|)
    {
      && Loaded(decoded)
      && blk <= nb
      && (t.blocks == [] ==> singleLast == LastDoc(l, 0))
      && (doc < END ==> pos < n && doc == docs[pos])
      && (forall b :: 0 <= b < blk ==> Skipped(b))
    }

    /** A block before the block pointer ends below a shallow target or below the current document. */
    ghost predicate Skipped(b: nat)
      reads this
      requires ValidList(l) && b < Blocks(|l.docs|)
    {
      LastDoc(l, b) < shallow || LastDoc(l, b) < doc
    }

    /** Index of the current posting; the list's length once exhausted. */
    ghost function At(): (i: nat)
      reads this
      requires Valid()
      ensures i <= |l.docs|
      ensures if doc == END then i == |l.docs| else i < |l.docs| && l.docs[i] == doc && l.tfs[i] == tfs[pos]
    {
      BlockBounds(t.df, decoded);
      if doc == END then |l.docs| else BlockLow(decoded) + pos
    }

    /** Every posting passed lies below `f`, and no shallow target lies above it. */
    ghost predicate Behind(f: nat)
      reads this
      requires Valid()
      ensures Behind(f) ==> shallow <= f
    {
      (forall i :: 0 <= i < At() ==> l.docs[i] < f) && shallow <= f
    }

    constructor (codec: CodecKind, t: TermInfo, ghost l: PostingList)
      requires Stores(codec, t, l)
      ensures Valid() && this.codec == codec && this.t == t && this.l == l
      ensures At() == 0 && blk == 0 && shallow == 0 && Behind(0)
      ensures l.docs != [] && doc == l.docs[0]
    {
      this.codec, this.t, this.l := codec, t, l;
      nb := Blocks(t.df);
      blk, pos, shallow := 0, 0, 0;
      singleLast, decoded, n, doc := 0, 0, 0, END;
      docs, tfs := [], [];
      new;
      Decode(0);
      doc := docs[0];
      if t.blocks == [] {
        singleLast := docs[n - 1];
      }
    }

    function Doc(): (d: u32)
      reads this
      ensures d == doc <= END
    {
      doc
    }

    function Tf(): u32
      reads this
      requires Valid() && doc < END
    {
      tfs[pos]
    }

    /** last_of: the last document of a block, from the block table. */
    function LastOf(b: nat): (d: u32)
      reads this
      requires Stores(codec, t, l) && nb == Blocks(t.df) && b < nb
      requires t.blocks == [] ==> singleLast == LastDoc(l, 0)
      ensures d == LastDoc(l, b)
    {
      assert t.blocks != [] ==> BlockDescribed(codec, t, l, b);
      if t.blocks == [] then singleLast else t.blocks[b].lastDoc
    }

    method Decode(b: nat)
      requires Stores(codec, t, l) && nb == Blocks(t.df) && b < nb
      requires b > 0 ==> t.blocks != []
      modifies this`decoded, this`n, this`docs, this`tfs
      ensures Loaded(b)
    {
      hide Stores, DecodedBlock, BlockOffset, PrevDoc;
      BlockBounds(t.df, b);
      BlockBegins(codec, t, l, b);
      var count := BlockHigh(t.df, b) - BlockLow(b);
      var prev := if b == 0 then U32_MAX else t.blocks[b - 1].lastDoc;
      var off := if t.blocks == [] then 0 else t.blocks[b].off;
      BlockDecodes(codec, t, l, b);
      var r := DecodeBlock(true, codec, t.bytes, off, count, prev);
      docs, tfs := r.value.docs, r.value.tfs;
      n, decoded := count, b;
    }

    method Next()
      requires Valid() && doc < END
      modifies this
      ensures Valid() && At() == old(At()) + 1 && shallow == old(shallow)
      ensures doc > old(doc)
    {
      hide Stores, ValidList, LastDoc, BlockDocs, BlockTfs;
      BlockBounds(t.df, decoded);
      NextPosting(l, decoded, pos);
      if pos + 1 < n {
        pos := pos + 1;
        doc := docs[pos];
        forall b | 0 <= b < blk ensures Skipped(b) {
          assert old(Skipped(b));
        }
      } else if decoded + 1 < nb {
        NextBlock();
      } else {
        pos := pos + 1;
        doc := END;
        LastsBelowEnd(l);
        assert forall b :: 0 <= b < blk ==> Skipped(b);
      }
    }

    /** Go on to the first posting of the next block. */
    method NextBlock()
      requires Valid() && doc < END && pos + 1 == n && decoded + 1 < nb
      modifies this
      ensures Valid() && At() == old(At()) + 1 && shallow == old(shallow) && doc > old(doc) && doc < END
    {
      hide Stores, ValidList, LastDoc, BlockDocs, BlockTfs;
      NextBegins(l, decoded, pos);
      TableNeeded(codec, t, l, decoded + 1);
      blk := decoded + 1;
      Decode(blk);
      pos := 0;
      doc := docs[0];
    }

    /** find_block: gallop, then binary search.  Its answer is the first block from `b` whose last
        document reaches `target`, as a linear scan would find it. */
    method FindBlock(b: nat, target: u32) returns (r: nat)
      requires Stores(codec, t, l) && nb == Blocks(t.df) && b <= nb
      requires t.blocks == [] ==> singleLast == LastDoc(l, 0)
      ensures b <= r <= nb
      ensures forall j :: b <= j < r ==> LastDoc(l, j) < target
      ensures r < nb ==> LastDoc(l, r) >= target
    {
      if t.blocks == [] {
        return if b == 0 && singleLast >= target then 0 else nb;
      }
      forall j | 0 <= j < nb ensures t.blocks[j].lastDoc == LastDoc(l, j) {
        assert BlockDescribed(codec, t, l, j);
      }
      LastDocsIncrease(l);
      r := Gallop(t.blocks, b, target);
    }

    /** next_geq: move to the first posting at or after `target`, from the current one on.  The precondition is
        the caller's: no shallow target was larger. */
    method NextGeq(target: u32)
      requires Valid() && shallow <= target
      modifies this
      ensures Valid() && shallow == old(shallow)
      ensures old(At()) <= At() && doc >= target
      ensures old(doc) < target ==> old(At()) < At()
      ensures old(doc) >= target ==> At() == old(At()) && blk == old(blk)
      ensures forall i :: old(At()) <= i < At() ==> l.docs[i] < target
    {
      if doc >= target {
        return;
      }
      ghost var at0 := At();
      var b := if blk < decoded then decoded else blk;
      ghost var from := b;
      BlocksBefore(l, decoded, at0);
      forall j | 0 <= j < from ensures LastDoc(l, j) < target {
        assert j < blk ==> Skipped(j);
      }
      b := FindBlock(b, target);
      SkippedBlocks(l, at0, b, target);
      LastsBelowEnd(l);
      if b >= nb {
        blk := nb;
        doc := END;
        return;
      }
      Land(b, target);
    }

    /** The end of next_geq: the first posting of block `b`, from the current one on, at or after `target`. */
    method Land(b: nat, target: u32)
      requires Valid() && doc < target && decoded <= b < nb && LastDoc(l, b) >= target
      requires forall j :: 0 <= j < b ==> LastDoc(l, j) < target
      modifies this
      ensures Valid() && doc >= target && doc < END && shallow == old(shallow)
      ensures old(At()) < At()
      ensures forall i :: old(At()) <= i < At() && i >= b * BLOCK_SIZE ==> l.docs[i] < target
    {
      hide Stores, ValidList, LastDoc, BlockDocs, BlockTfs;
      ghost var at0 := At();
      BlockBounds(t.df, decoded);
      BlockBounds(t.df, b);
      LastOfBlock(l, b);
      NextPosting(l, decoded, pos);
      MoveTo(b);
      ghost var pos0 := pos;
      Scan(target);
      NextPosting(l, b, pos);
      PassedInBlock(l, b, at0, pos0, pos, target);
    }

    method MoveTo(b: nat)
      requires Valid() && b < nb
      modifies this`blk, this`pos, this`decoded, this`n, this`docs, this`tfs
      ensures Loaded(b) && blk == b && pos == if b == old(decoded) then old(pos) else 0
    {
      if b != decoded {
        Decode(b);
        pos := 0;
      }
      blk := b;
    }

    method Scan(target: u32)
      requires pos < n == |docs| && docs[n - 1] >= target
      modifies this`pos, this`doc
      ensures old(pos) <= pos < n && doc == docs[pos] >= target
      ensures forall k :: old(pos) <= k < pos ==> docs[k] < target
    {
      while docs[pos] < target
        invariant old(pos) <= pos < n
        invariant forall k :: old(pos) <= k < pos ==> docs[k] < target
        decreases n - pos
      {
        pos := pos + 1;
      }
      doc := docs[pos];
    }

    /** Move the block pointer, not the postings, to the block that may contain `target`. */
    method ShallowNext(target: u32)
      requires Valid()
      modifies this`blk, this`shallow
      ensures Valid() && At() == old(At())
      ensures shallow == if old(shallow) < target then target else old(shallow)
      ensures old(blk) <= blk
      ensures forall b :: old(blk) <= b < blk ==> LastDoc(l, b) < target
      ensures blk < nb ==> LastDoc(l, blk) >= target
    {
      hide Stores, BlockDocs, BlockTfs;
      ghost var blk0 := blk;
      blk := FindBlock(blk, target);
      shallow := if shallow < target then target else shallow;
      forall b | 0 <= b < blk ensures Skipped(b) {
        assert b < blk0 ==> old(Skipped(b));
      }
    }

    function BlockValid(): bool
      reads this
    {
      blk < nb
    }

    function BlockBound(): BoundInfo
      reads this
      requires Valid() && BlockValid()
    {
      assert t.blocks != [] ==> BlockDescribed(codec, t, l, blk);
      if t.blocks == [] then t.bound else t.blocks[blk].bound
    }

    function BlockLast(): u32
      reads this
      requires Valid()
    {
      if blk >= nb then END - 1 else LastOf(blk)
    }
  }

  /** The gallop and binary search of find_block over a block table. */
  method Gallop(blocks: seq<BlockInfo>, b: nat, target: u32) returns (r: nat)
    requires b <= |blocks|
    requires forall i, j :: 0 <= i < j < |blocks| ==> blocks[i].lastDoc < blocks[j].lastDoc
    ensures b <= r <= |blocks|
    ensures forall j :: b <= j < r ==> blocks[j].lastDoc < target
    ensures r < |blocks| ==> blocks[r].lastDoc >= target
  {
    var nb := |blocks|;
    var step, lo := 1, b;
    while lo < nb && blocks[lo].lastDoc < target
      invariant b <= lo <= nb && step >= 1
      invariant forall j :: b <= j < lo ==> blocks[j].lastDoc < target
      decreases nb - lo
    {
      var hi := if nb < lo + step then nb else lo + step;
      if hi == nb || blocks[hi - 1].lastDoc >= target {
        var low, high := lo, hi;
        while low < high
          invariant lo <= low <= high <= hi
          invariant forall j :: b <= j < low ==> blocks[j].lastDoc < target
          invariant high < hi ==> blocks[high].lastDoc >= target
        {
          var m := (low + high) / 2;
          if blocks[m].lastDoc < target {
            low := m + 1;
          } else {
            high := m;
          }
        }
        return low;
      }
      lo := hi;
      step := step * 2;
    }
    return lo;
  }

  lemma LastDocsIncrease(l: PostingList)
    requires ValidList(l)
    ensures forall i, j :: 0 <= i < j < Blocks(|l.docs|) ==> LastDoc(l, i) < LastDoc(l, j)
  {
    forall i, j | 0 <= i < j < Blocks(|l.docs|) ensures LastDoc(l, i) < LastDoc(l, j) {
      BlockBounds(|l.docs|, i);
      BlockBounds(|l.docs|, j);
    }
  }

  lemma PassedInBlock(l: PostingList, b: nat, at0: nat, pos0: nat, pos: nat, target: u32)
    requires ValidList(l) && b < Blocks(|l.docs|) && pos0 <= pos < |BlockDocs(l, b)|
    requires forall k :: pos0 <= k < pos ==> BlockDocs(l, b)[k] < target
    requires pos0 == 0 || at0 == BlockLow(b) + pos0
    ensures BlockLow(b) + pos < |l.docs| && l.docs[BlockLow(b) + pos] == BlockDocs(l, b)[pos]
    ensures forall i :: at0 <= i < BlockLow(b) + pos && i >= b * BLOCK_SIZE ==> l.docs[i] < target
  {
    BlockBounds(|l.docs|, b);
    forall i | at0 <= i < BlockLow(b) + pos && i >= b * BLOCK_SIZE ensures l.docs[i] < target {
      assert l.docs[i] == BlockDocs(l, b)[i - BlockLow(b)];
    }
  }

  /** The next posting of a list is the block's next, the next block's first, or none. */
  lemma NextPosting(l: PostingList, b: nat, pos: nat)
    requires ValidList(l) && b < Blocks(|l.docs|) && pos < |BlockDocs(l, b)|
    ensures BlockHigh(|l.docs|, b) - BlockLow(b) == |BlockDocs(l, b)| && BlockLow(b) + pos < |l.docs|
    ensures BlockDocs(l, b)[pos] == l.docs[BlockLow(b) + pos]
    ensures pos + 1 < |BlockDocs(l, b)| ==> BlockDocs(l, b)[pos] < BlockDocs(l, b)[pos + 1] < END
    ensures pos + 1 == |BlockDocs(l, b)| && b + 1 == Blocks(|l.docs|) ==> BlockLow(b) + pos + 1 == |l.docs|
    ensures BlockDocs(l, b)[pos] < END
  {
    BlockBounds(|l.docs|, b);
  }

  /** The first posting of the next block follows the last one of this. */
  lemma NextBegins(l: PostingList, b: nat, pos: nat)
    requires ValidList(l) && b + 1 < Blocks(|l.docs|) && pos + 1 == |BlockDocs(l, b)|
    ensures BlockLow(b + 1) == BlockLow(b) + pos + 1 < |l.docs| && BlockDocs(l, b + 1) != []
    ensures BlockDocs(l, b)[pos] < BlockDocs(l, b + 1)[0] < END
    ensures forall j :: 0 <= j < b + 1 ==> LastDoc(l, j) < BlockDocs(l, b + 1)[0]
  {
    BlockBounds(|l.docs|, b);
    BlockBounds(|l.docs|, b + 1);
    BlocksBefore(l, b + 1, BlockLow(b + 1));
    NextPosting(l, b, pos);
  }

  lemma LastOfBlock(l: PostingList, b: nat)
    requires ValidList(l) && b < Blocks(|l.docs|)
    ensures |BlockDocs(l, b)| > 0 && BlockDocs(l, b)[|BlockDocs(l, b)| - 1] == LastDoc(l, b)
  {
    BlockBounds(|l.docs|, b);
  }

  lemma TableNeeded(c: CodecKind, t: TermInfo, l: PostingList, b: nat)
    requires Stores(c, t, l) && 0 < b < Blocks(t.df)
    ensures t.blocks != []
  {
  }

  lemma BlocksBefore(l: PostingList, d: nat, at: nat)
    requires ValidList(l) && d < Blocks(|l.docs|) && BlockLow(d) <= at < |l.docs|
    ensures forall b :: 0 <= b < d ==> LastDoc(l, b) < l.docs[at]
  {
    forall b | 0 <= b < d ensures LastDoc(l, b) < l.docs[at] {
      BlockBounds(|l.docs|, b);
    }
  }

  /** The postings of blocks that end below `target` lie below it. */
  lemma SkippedBlocks(l: PostingList, at: nat, b: nat, target: u32)
    requires ValidList(l) && b <= Blocks(|l.docs|) && forall j :: 0 <= j < b ==> LastDoc(l, j) < target
    ensures forall i :: at <= i < |l.docs| && i < b * BLOCK_SIZE ==> l.docs[i] < target
  {
    forall i | at <= i < |l.docs| && i < b * BLOCK_SIZE ensures l.docs[i] < target {
      var j := i / BLOCK_SIZE;
      BlockBounds(|l.docs|, j);
      assert LastDoc(l, j) < target;
      assert i <= BlockHigh(|l.docs|, j) - 1;
    }
  }

  lemma LastsBelowEnd(l: PostingList)
    requires ValidList(l)
    ensures forall b :: 0 <= b < Blocks(|l.docs|) ==> LastDoc(l, b) < END
  {
    forall b | 0 <= b < Blocks(|l.docs|) ensures LastDoc(l, b) < END {
      BlockBounds(|l.docs|, b);
    }
  }
}
