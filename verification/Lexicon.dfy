/** The files of an index: the lexicon and the block table as engine/src/lexical/index_builder.cc writes them. */
module Lexicon {
  import opened Bits
  import opened Varint
  import opened ByteStrings
  import opened Codec
  import opened Postings

  /** A term as it is written: its string, how often it occurs, and its entry for each codec. */
  datatype Term = Term(str: Bytes, cf: nat, infos: seq<TermInfo>)

  /** terms.bin, lexicon.bin, blocks.bin and one file of postings for each codec. */
  datatype Files = Files(strs: seq<byte>, lex: seq<byte>, blk: seq<byte>, posts: seq<seq<byte>>)

  // ---------------------------------------------------------------------------------------------
  // What can be written
  // ---------------------------------------------------------------------------------------------

  predicate BoundFits(b: BoundInfo) {
    && b.maxTf <= U32_MAX && b.minDl <= U32_MAX && b.lucene.tf <= U32_MAX && b.lucene.dl <= U32_MAX
    && b.textbook.tf <= U32_MAX && b.textbook.dl <= U32_MAX
  }

  /** How many rows of the block table a term has: none if one block holds all its postings. */
  function TableSize(df: nat): nat {
    if df <= BLOCK_SIZE then 0 else Blocks(df)
  }

  /** The entry of one codec agrees with that of the first in all that does not depend on the codec. */
  ghost predicate Agrees(a: TermInfo, t: TermInfo) {
    && a.df == t.df && a.bound == t.bound && |a.blocks| == |t.blocks| == TableSize(t.df) && |a.bytes| < TWO64
    && (forall j :: 0 <= j < |a.blocks| ==>
          a.blocks[j].lastDoc == t.blocks[j].lastDoc && a.blocks[j].bound == t.blocks[j].bound
          && a.blocks[j].off < TWO32)
    && (forall j :: 0 < j < |a.blocks| ==> a.blocks[j - 1].off <= a.blocks[j].off)
  }

  /** Numbers have the widths that the builder gives them, and rows ascend. */
  ghost predicate WellFormed(t: Term, nc: nat)
    ensures WellFormed(t, nc) ==> |t.infos| == nc > 0 && t.infos[0].df <= t.cf < TWO64 && BoundFits(t.infos[0].bound)
    ensures WellFormed(t, nc) ==> |t.infos[0].blocks| == TableSize(t.infos[0].df)
    ensures WellFormed(t, nc) ==> |t.str| <= U32_MAX && t.infos[0].df <= U32_MAX
  {
    && |t.infos| == nc > 0 && |t.str| <= U32_MAX && t.infos[0].df <= U32_MAX && t.infos[0].df <= t.cf < TWO64
    && BoundFits(t.infos[0].bound)
    && (forall c :: 0 <= c < nc ==> Agrees(t.infos[c], t.infos[0]))
    && (forall j :: 0 <= j < |t.infos[0].blocks| ==> BoundFits(t.infos[0].blocks[j].bound))
    && (forall j :: 0 < j < |t.infos[0].blocks| ==> t.infos[0].blocks[j - 1].lastDoc <= t.infos[0].blocks[j].lastDoc)
  }

  // ---------------------------------------------------------------------------------------------
  // Files as numbers
  // ---------------------------------------------------------------------------------------------

  function Stream(ns: seq<nat>): seq<byte> {
    if ns == [] then [] else VByte(ns[0]) + Stream(ns[1..])
  }

  lemma {:induction false} StreamAppend(a: seq<nat>, b: seq<nat>)
    ensures Stream(a + b) == Stream(a) + Stream(b)
  {
    hide VByte;
    if a == [] {
      assert a + b == b;
    } else {
      StreamAppend(a[1..], b);
      assert (a + b)[1..] == a[1..] + b;
      Regroup(VByte(a[0]), Stream(a[1..]), Stream(b));
    }
  }

  function BoundNumbers(b: BoundInfo): seq<nat> {
    [b.maxTf, b.minDl, b.lucene.tf, b.lucene.dl, b.textbook.tf, b.textbook.dl]
  }

  function Lengths(infos: seq<TermInfo>): (ls: seq<nat>)
    ensures |ls| == |infos| && forall c :: 0 <= c < |ls| ==> ls[c] == |infos[c].bytes|
  {
    seq(|infos|, c requires 0 <= c < |infos| => |infos[c].bytes|)
  }

  function TermNumbers(t: Term): seq<nat>
    requires t.infos != [] && t.infos[0].df <= t.cf
  {
    [|t.str|, t.infos[0].df, t.cf - t.infos[0].df] + Lengths(t.infos) + BoundNumbers(t.infos[0].bound)
  }

  /** The last document and the offset before row `j`. */
  function LastBefore(a: TermInfo, j: nat): u32
    requires j <= |a.blocks|
  {
    if j == 0 then 0 else a.blocks[j - 1].lastDoc
  }

  function OffBefore(a: TermInfo, j: nat): nat
    requires j <= |a.blocks|
  {
    if j == 0 then 0 else a.blocks[j - 1].off
  }

  ghost predicate HasRow(t: Term, nc: nat, j: nat)
    ensures HasRow(t, nc, j) ==> WellFormed(t, nc) && j < TableSize(t.infos[0].df)
  {
    WellFormed(t, nc) && j < TableSize(t.infos[0].df)
  }

  ghost function Steps(t: Term, nc: nat, j: nat): (ds: seq<nat>)
    requires HasRow(t, nc, j)
    ensures |ds| == nc
  {
    seq(nc, c requires 0 <= c < nc => assert Agrees(t.infos[c], t.infos[0]);
        t.infos[c].blocks[j].off - OffBefore(t.infos[c], j))
  }

  ghost function RowNumbers(t: Term, nc: nat, j: nat): seq<nat>
    requires HasRow(t, nc, j)
  {
    var a := t.infos[0];
    [a.blocks[j].lastDoc - LastBefore(a, j)] + Steps(t, nc, j) + BoundNumbers(a.blocks[j].bound)
  }

  ghost function RowsFrom(t: Term, nc: nat, j: nat): seq<nat>
    requires WellFormed(t, nc) && j <= TableSize(t.infos[0].df)
    decreases TableSize(t.infos[0].df) - j
  {
    if j == TableSize(t.infos[0].df) then [] else RowNumbers(t, nc, j) + RowsFrom(t, nc, j + 1)
  }

  ghost predicate AllWellFormed(terms: seq<Term>, nc: nat) {
    forall i :: 0 <= i < |terms| ==> WellFormed(terms[i], nc)
  }

  ghost function LexNumbers(terms: seq<Term>, nc: nat): seq<nat>
    requires AllWellFormed(terms, nc)
  {
    if terms == [] then [] else TermNumbers(terms[0]) + LexNumbers(terms[1..], nc)
  }

  ghost function BlkNumbers(terms: seq<Term>, nc: nat): seq<nat>
    requires AllWellFormed(terms, nc)
  {
    if terms == [] then [] else RowsFrom(terms[0], nc, 0) + BlkNumbers(terms[1..], nc)
  }

  ghost function Strings(terms: seq<Term>): seq<byte> {
    if terms == [] then [] else terms[0].str + Strings(terms[1..])
  }

  ghost function PostBytes(terms: seq<Term>, nc: nat, c: nat): seq<byte>
    requires AllWellFormed(terms, nc) && c < nc
  {
    if terms == [] then [] else terms[0].infos[c].bytes + PostBytes(terms[1..], nc, c)
  }

  ghost predicate IsFiles(f: Files, terms: seq<Term>, nc: nat) {
    && AllWellFormed(terms, nc)
    && f.strs == Strings(terms) && f.lex == Stream(LexNumbers(terms, nc)) && f.blk == Stream(BlkNumbers(terms, nc))
    && |f.posts| == nc && forall c :: 0 <= c < nc ==> f.posts[c] == PostBytes(terms, nc, c)
  }

  // ---------------------------------------------------------------------------------------------
  // Writing
  // ---------------------------------------------------------------------------------------------

  method PutNumbers(ns: seq<nat>, out: seq<byte>) returns (r: seq<byte>)
    ensures r == out + Stream(ns)
  {
    r := out;
    for i := 0 to |ns|
      invariant r + Stream(ns[i..]) == out + Stream(ns)
    {
      ghost var before := r;
      r := PutVarint(ns[i], r);
      assert ns[i..][1..] == ns[i + 1..];
      assert before + (VByte(ns[i]) + Stream(ns[i + 1..])) == r + Stream(ns[i + 1..]);
    }
    assert ns[|ns|..] == [];
  }

  method PutBound(b: BoundInfo, out: seq<byte>) returns (r: seq<byte>)
    ensures r == out + Stream(BoundNumbers(b))
  {
    r := PutNumbers([b.maxTf, b.minDl, b.lucene.tf, b.lucene.dl, b.textbook.tf, b.textbook.dl], out);
  }

  lemma Appended(out: seq<byte>, a: seq<nat>, b: seq<nat>)
    ensures (out + Stream(a)) + Stream(b) == out + Stream(a + b)
  {
    StreamAppend(a, b);
  }

  method PutTerm(t: Term, nc: nat, out: seq<byte>) returns (r: seq<byte>)
    requires WellFormed(t, nc)
    ensures r == out + Stream(TermNumbers(t))
  {
    hide Stream, WellFormed, BoundNumbers;
    var df := t.infos[0].df;
    r := PutNumbers([|t.str|, df, t.cf - df], out);
    ghost var head := [|t.str|, df, t.cf - df];
    assert head + Lengths(t.infos)[..0] == head;
    for c := 0 to nc
      invariant r == out + Stream(head + Lengths(t.infos)[..c])
    {
      r := PutNumbers([|t.infos[c].bytes|], r);
      Appended(out, head + Lengths(t.infos)[..c], [|t.infos[c].bytes|]);
      assert head + Lengths(t.infos)[..c] + [|t.infos[c].bytes|] == head + Lengths(t.infos)[..c + 1];
    }
    assert Lengths(t.infos)[..nc] == Lengths(t.infos);
    r := PutBound(t.infos[0].bound, r);
    Appended(out, head + Lengths(t.infos), BoundNumbers(t.infos[0].bound));
  }

  lemma RowOk(t: Term, nc: nat, j: nat)
    requires HasRow(t, nc, j)
    ensures j < |t.infos[0].blocks| && LastBefore(t.infos[0], j) <= t.infos[0].blocks[j].lastDoc
    ensures BoundFits(t.infos[0].blocks[j].bound)
    ensures forall c :: 0 <= c < nc ==>
              j < |t.infos[c].blocks| && OffBefore(t.infos[c], j) <= t.infos[c].blocks[j].off < TWO32
    ensures forall c :: 0 <= c < nc ==> t.infos[c].blocks[j].off == OffBefore(t.infos[c], j) + Steps(t, nc, j)[c]
  {
    assert forall c :: 0 <= c < nc ==> Agrees(t.infos[c], t.infos[0]);
  }

  method PutRow(t: Term, nc: nat, j: nat, prevLast: u32, out: seq<byte>) returns (r: seq<byte>)
    requires HasRow(t, nc, j) && prevLast == LastBefore(t.infos[0], j)
    ensures r == out + Stream(RowNumbers(t, nc, j))
  {
    hide Stream, HasRow, BoundNumbers, Steps;
    RowOk(t, nc, j);
    var b := t.infos[0].blocks[j];
    ghost var head := [b.lastDoc - prevLast];
    r := PutNumbers([b.lastDoc - prevLast], out);
    assert head + Steps(t, nc, j)[..0] == head;
    for c := 0 to nc
      invariant r == out + Stream(head + Steps(t, nc, j)[..c])
    {
      var step := t.infos[c].blocks[j].off - (if j > 0 then t.infos[c].blocks[j - 1].off else 0);
      r := PutNumbers([step], r);
      Appended(out, head + Steps(t, nc, j)[..c], [step]);
      assert head + Steps(t, nc, j)[..c] + [step] == head + Steps(t, nc, j)[..c + 1];
    }
    assert Steps(t, nc, j)[..nc] == Steps(t, nc, j);
    r := PutBound(b.bound, r);
    Appended(out, head + Steps(t, nc, j), BoundNumbers(b.bound));
  }

  method PutRows(t: Term, nc: nat, out: seq<byte>) returns (r: seq<byte>)
    requires WellFormed(t, nc)
    ensures r == out + Stream(RowsFrom(t, nc, 0))
  {
    hide Stream, WellFormed, RowNumbers, HasRow;
    r := out;
    var nb := TableSize(t.infos[0].df);
    var prevLast: u32 := 0;
    for j := 0 to nb
      invariant r + Stream(RowsFrom(t, nc, j)) == out + Stream(RowsFrom(t, nc, 0))
      invariant prevLast == LastBefore(t.infos[0], j)
    {
      MakesRow(t, nc, j);
      ghost var before := r;
      r := PutRow(t, nc, j, prevLast, r);
      StreamAppend(RowNumbers(t, nc, j), RowsFrom(t, nc, j + 1));
      assert (before + Stream(RowNumbers(t, nc, j))) + Stream(RowsFrom(t, nc, j + 1))
             == before + Stream(RowsFrom(t, nc, j));
      prevLast := t.infos[0].blocks[j].lastDoc;
    }
    NoNumbers();
  }

  lemma NoNumbers()
    ensures Stream([]) == []
  {
  }

  lemma MakesRow(t: Term, nc: nat, j: nat)
    requires WellFormed(t, nc) && j < TableSize(t.infos[0].df)
    ensures HasRow(t, nc, j)
  {
  }

  /** Write the files of an index, term by term. */
  method Write(terms: seq<Term>, nc: nat) returns (f: Files)
    requires AllWellFormed(terms, nc)
    ensures IsFiles(f, terms, nc)
  {
    hide Stream, WellFormed, TermNumbers, RowsFrom;
    var strs: seq<byte>, lex: seq<byte>, blk: seq<byte> := [], [], [];
    var posts: seq<seq<byte>> := seq(nc, _ => []);
    assert terms[0..] == terms;
    for i := 0 to |terms|
      invariant strs + Strings(terms[i..]) == Strings(terms)
      invariant lex + Stream(LexNumbers(terms[i..], nc)) == Stream(LexNumbers(terms, nc))
      invariant blk + Stream(BlkNumbers(terms[i..], nc)) == Stream(BlkNumbers(terms, nc))
      invariant |posts| == nc
      invariant forall c :: 0 <= c < nc ==> posts[c] + PostBytes(terms[i..], nc, c) == PostBytes(terms, nc, c)
    {
      var t := terms[i];
      ghost var rest := terms[i + 1..];
      assert terms[i..][0] == t && terms[i..][1..] == rest;
      StreamAppend(TermNumbers(t), LexNumbers(rest, nc));
      StreamAppend(RowsFrom(t, nc, 0), BlkNumbers(rest, nc));
      Regroup(strs, t.str, Strings(rest));
      Regroup(lex, Stream(TermNumbers(t)), Stream(LexNumbers(rest, nc)));
      Regroup(blk, Stream(RowsFrom(t, nc, 0)), Stream(BlkNumbers(rest, nc)));
      strs := strs + t.str;
      lex := PutTerm(t, nc, lex);
      blk := PutRows(t, nc, blk);
      ghost var before := posts;
      posts := seq(nc, c requires 0 <= c < nc => posts[c] + t.infos[c].bytes);
      forall c | 0 <= c < nc ensures posts[c] + PostBytes(rest, nc, c) == PostBytes(terms, nc, c) {
        Regroup(before[c], t.infos[c].bytes, PostBytes(rest, nc, c));
      }
    }
    NoNumbers();
    f := Files(strs, lex, blk, posts);
  }

  lemma Regroup(a: seq<byte>, b: seq<byte>, c: seq<byte>)
    ensures a + (b + c) == (a + b) + c
  {
  }
}
