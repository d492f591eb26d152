/** LexicalIndex::open of engine/src/lexical/index.cc: what the lexicon and the block table say, whoever wrote them, and
    the methods that read them. */
module LexiconReader {
  import opened Bits
  import opened Varint
  import opened Codec
  import opened Postings
  import opened Lexicon

  /** A term and a block as they are read. */
  datatype OpenTerm =
    OpenTerm(strOff: nat, strLen: nat, df: nat, cf: nat, postOff: seq<nat>, bound: BoundInfo, firstBlock: nat)
  datatype OpenBlock = OpenBlock(lastDoc: nat, off: seq<nat>, bound: BoundInfo)
  datatype Tables = Tables(terms: seq<OpenTerm>, blocks: seq<OpenBlock>)

  // ---------------------------------------------------------------------------------------------
  // What files say
  // ---------------------------------------------------------------------------------------------

  /** A term of the lexicon before its offsets are known; it occurs `more` times more often than in `df`
      documents once. */
  datatype Header = Header(strLen: nat, df: nat, more: nat, lens: seq<nat>, bound: BoundInfo)

  function HeaderNumbers(h: Header): seq<nat> {
    [h.strLen, h.df, h.more] + h.lens + BoundNumbers(h.bound)
  }

  predicate HeaderFits(h: Header, nc: nat)
    ensures HeaderFits(h, nc) ==> |h.lens| == nc
  {
    h.strLen <= U32_MAX && h.df <= U32_MAX && |h.lens| == nc && BoundFits(h.bound)
  }

  ghost predicate AllFit(hs: seq<Header>, nc: nat) {
    forall i :: 0 <= i < |hs| ==> HeaderFits(hs[i], nc)
  }

  ghost function HeadersNumbers(hs: seq<Header>): seq<nat> {
    if hs == [] then [] else HeadersNumbers(hs[..|hs| - 1]) + HeaderNumbers(hs[|hs| - 1])
  }

  /** How far the strings, postings and rows of some terms reach. */
  datatype Ends = Ends(strOff: nat, postOff: seq<nat>, nextBlock: nat)

  ghost function EndsOf(hs: seq<Header>, nc: nat): (e: Ends)
    requires AllFit(hs, nc)
    ensures |e.postOff| == nc
  {
    if hs == [] then Ends(0, seq(nc, _ => 0), 0)
    else
      var h, e := hs[|hs| - 1], EndsOf(hs[..|hs| - 1], nc);
      Ends(e.strOff + h.strLen, seq(nc, c requires 0 <= c < nc => e.postOff[c] + h.lens[c]),
           e.nextBlock + TableSize(h.df))
  }

  /** A term after others that reach as far as `e`. */
  function Placed(e: Ends, h: Header): OpenTerm {
    OpenTerm(e.strOff, h.strLen, h.df, (h.more + h.df) % TWO64, e.postOff, h.bound, e.nextBlock)
  }

  ghost function PlacedAll(hs: seq<Header>, nc: nat): (ts: seq<OpenTerm>)
    requires AllFit(hs, nc)
    ensures |ts| == |hs|
  {
    if hs == [] then []
    else PlacedAll(hs[..|hs| - 1], nc) + [Placed(EndsOf(hs[..|hs| - 1], nc), hs[|hs| - 1])]
  }

  /** A row of the block table as the file has it, and what it makes of the row before. */
  datatype RawRow = RawRow(gap: nat, steps: seq<nat>, bound: BoundInfo)

  function RawNumbers(w: RawRow): seq<nat> {
    [w.gap] + w.steps + BoundNumbers(w.bound)
  }

  predicate RawFits(w: RawRow, nc: nat) {
    w.gap <= U32_MAX && |w.steps| == nc && (forall c :: 0 <= c < nc ==> w.steps[c] <= U32_MAX) && BoundFits(w.bound)
  }

  function RowAfter(last: nat, offs: seq<nat>, w: RawRow): (b: OpenBlock)
    requires |w.steps| == |offs|
    ensures |b.off| == |offs|
  {
    OpenBlock((last + w.gap) % TWO32,
              seq(|offs|, c requires 0 <= c < |offs| => (offs[c] + w.steps[c]) % TWO32), w.bound)
  }

  ghost predicate AllRawFit(raws: seq<RawRow>, nc: nat) {
    forall j :: 0 <= j < |raws| ==> RawFits(raws[j], nc)
  }

  ghost function RawRowsNumbers(raws: seq<RawRow>): seq<nat> {
    if raws == [] then [] else RawRowsNumbers(raws[..|raws| - 1]) + RawNumbers(raws[|raws| - 1])
  }

  /** The rows of one term that the file's rows make: documents and offsets run on from row to row. */
  ghost function Running(raws: seq<RawRow>, nc: nat): (rows: seq<OpenBlock>)
    requires AllRawFit(raws, nc)
    ensures |rows| == |raws| && forall j :: 0 <= j < |rows| ==> |rows[j].off| == nc
  {
    if raws == [] then []
    else
      var before := Running(raws[..|raws| - 1], nc);
      before + [RowAfter(LastOf(before), OffsOf(before, nc), raws[|raws| - 1])]
  }

  /** The last document and the offsets that some rows lead to. */
  function LastOf(rows: seq<OpenBlock>): nat {
    if rows == [] then 0 else rows[|rows| - 1].lastDoc
  }

  function OffsOf(rows: seq<OpenBlock>, nc: nat): (offs: seq<nat>)
    ensures rows == [] ==> |offs| == nc
  {
    if rows == [] then seq(nc, _ => 0) else rows[|rows| - 1].off
  }

  ghost predicate TablesFit(raws: seq<seq<RawRow>>, ts: seq<OpenTerm>, nc: nat) {
    |raws| <= |ts| && forall i :: 0 <= i < |raws| ==> TableFits(raws[i], ts[i].df, nc)
  }

  ghost predicate TableFits(rows: seq<RawRow>, df: nat, nc: nat)
    ensures TableFits(rows, df, nc) ==> |rows| == TableSize(df) && AllRawFit(rows, nc)
  {
    |rows| == TableSize(df) && AllRawFit(rows, nc)
  }

  ghost function TablesNumbers(raws: seq<seq<RawRow>>): seq<nat> {
    if raws == [] then [] else TablesNumbers(raws[..|raws| - 1]) + RawRowsNumbers(raws[|raws| - 1])
  }

  ghost function RunningAll(raws: seq<seq<RawRow>>, ts: seq<OpenTerm>, nc: nat): seq<OpenBlock>
    requires TablesFit(raws, ts, nc)
  {
    if raws == [] then []
    else
      assert TableFits(raws[|raws| - 1], ts[|raws| - 1].df, nc);
      RunningAll(raws[..|raws| - 1], ts, nc) + Running(raws[|raws| - 1], nc)
  }

  /** The lexicon is, from its first byte to its last, the numbers of `numTerms` terms of the format's widths, and
      their strings and rows add up to the other files'. */
  ghost predicate LexiconIs(f: Files, nc: nat, numTerms: nat, numBlocks: nat, hs: seq<Header>)
    ensures LexiconIs(f, nc, numTerms, numBlocks, hs) ==> AllFit(hs, nc) && |hs| == numTerms
  {
    && AllFit(hs, nc) && |hs| == numTerms && Decodes(f.lex, 0, |f.lex|, HeadersNumbers(hs), |f.lex|)
    && EndsOf(hs, nc).strOff == |f.strs| && EndsOf(hs, nc).nextBlock == numBlocks
  }

  /** The block table is, from its first byte to its last, the rows of the terms of several blocks. */
  ghost predicate BlocksAre(f: Files, nc: nat, ts: seq<OpenTerm>, raws: seq<seq<RawRow>>)
    ensures BlocksAre(f, nc, ts, raws) ==> TablesFit(raws, ts, nc) && |raws| == |ts|
  {
    TablesFit(raws, ts, nc) && |raws| == |ts| && Decodes(f.blk, 0, |f.blk|, TablesNumbers(raws), |f.blk|)
  }

  ghost predicate PostingsFit(f: Files, nc: nat, postOff: seq<nat>) {
    |f.posts| == nc == |postOff| && forall c :: 0 <= c < nc ==> |f.posts[c]| == postOff[c]
  }

  /** What files mean: they are complete and say it, and the postings have the sizes that the lexicon gives them. */
  ghost predicate FilesSay(f: Files, nc: nat, numTerms: nat, numBlocks: nat, tb: Tables, hs: seq<Header>,
                           raws: seq<seq<RawRow>>)
  {
    && LexiconIs(f, nc, numTerms, numBlocks, hs) && tb.terms == PlacedAll(hs, nc)
    && BlocksAre(f, nc, tb.terms, raws) && tb.blocks == RunningAll(raws, tb.terms, nc)
    && PostingsFit(f, nc, EndsOf(hs, nc).postOff)
  }

  // ---------------------------------------------------------------------------------------------
  // One more term, row or table
  // ---------------------------------------------------------------------------------------------

  lemma HeadersNext(hs: seq<Header>, h: Header, nc: nat)
    requires AllFit(hs, nc) && HeaderFits(h, nc)
    ensures AllFit(hs + [h], nc) && HeadersNumbers(hs + [h]) == HeadersNumbers(hs) + HeaderNumbers(h)
    ensures PlacedAll(hs + [h], nc) == PlacedAll(hs, nc) + [Placed(EndsOf(hs, nc), h)]
    ensures var e := EndsOf(hs, nc);
            EndsOf(hs + [h], nc) == Ends(e.strOff + h.strLen,
                                    seq(nc, c requires 0 <= c < nc => e.postOff[c] + h.lens[c]),
                                         e.nextBlock + TableSize(h.df))
  {
    hide HeaderFits, HeaderNumbers, Placed, TableSize;
    assert (hs + [h])[..|hs|] == hs;
  }

  lemma NoHeaders(nc: nat)
    ensures AllFit([], nc) && HeadersNumbers([]) == [] && PlacedAll([], nc) == []
    ensures EndsOf([], nc) == Ends(0, seq(nc, _ => 0), 0)
  {
  }

  lemma {:induction false} HeadersHead(hs: seq<Header>)
    requires hs != []
    ensures HeadersNumbers(hs) == HeaderNumbers(hs[0]) + HeadersNumbers(hs[1..])
  {
    hide HeaderNumbers;
    var n := |hs| - 1;
    if n > 0 {
      HeadersHead(hs[..n]);
      assert hs[..n][1..] == hs[1..][..n - 1];
    }
  }

  lemma RunningNext(raws: seq<RawRow>, w: RawRow, nc: nat)
    requires AllRawFit(raws, nc) && RawFits(w, nc)
    ensures AllRawFit(raws + [w], nc) && |w.steps| == |OffsOf(Running(raws, nc), nc)| == nc
    ensures var rows := Running(raws, nc);
            Running(raws + [w], nc) == rows + [RowAfter(LastOf(rows), OffsOf(rows, nc), w)]
    ensures RawRowsNumbers(raws + [w]) == RawRowsNumbers(raws) + RawNumbers(w)
  {
    assert (raws + [w])[..|raws|] == raws;
  }

  lemma NoRows(nc: nat)
    ensures AllRawFit([], nc) && Running([], nc) == [] && RawRowsNumbers([]) == []
  {
  }

  lemma {:induction false} RawHead(raws: seq<RawRow>)
    requires raws != []
    ensures RawRowsNumbers(raws) == RawNumbers(raws[0]) + RawRowsNumbers(raws[1..])
  {
    hide RawNumbers;
    var n := |raws| - 1;
    if n > 0 {
      RawHead(raws[..n]);
      assert raws[..n][1..] == raws[1..][..n - 1];
    }
  }

  lemma TablesNext(raws: seq<seq<RawRow>>, w: seq<RawRow>, ts: seq<OpenTerm>, nc: nat)
    requires TablesFit(raws, ts, nc) && |raws| < |ts| && |w| == TableSize(ts[|raws|].df) && AllRawFit(w, nc)
    ensures TablesFit(raws + [w], ts, nc) && TablesNumbers(raws + [w]) == TablesNumbers(raws) + RawRowsNumbers(w)
    ensures RunningAll(raws + [w], ts, nc) == RunningAll(raws, ts, nc) + Running(w, nc)
  {
    hide RawRowsNumbers, Running, TablesFit, TableFits;
    TablesFitNext(raws, w, ts, nc);
    assert (raws + [w])[..|raws|] == raws;
  }

  lemma TablesFitNext(raws: seq<seq<RawRow>>, w: seq<RawRow>, ts: seq<OpenTerm>, nc: nat)
    requires TablesFit(raws, ts, nc) && |raws| < |ts| && |w| == TableSize(ts[|raws|].df) && AllRawFit(w, nc)
    ensures TablesFit(raws + [w], ts, nc)
  {
    hide AllRawFit, TableSize;
    forall i | 0 <= i < |raws + [w]| ensures TableFits((raws + [w])[i], ts[i].df, nc) {
      assert i < |raws| ==> TableFits(raws[i], ts[i].df, nc);
    }
  }

  lemma NoTables(ts: seq<OpenTerm>, nc: nat)
    ensures TablesFit([], ts, nc) && TablesNumbers([]) == [] && RunningAll([], ts, nc) == []
  {
  }

  lemma {:induction false} TablesHead(raws: seq<seq<RawRow>>)
    requires raws != []
    ensures TablesNumbers(raws) == RawRowsNumbers(raws[0]) + TablesNumbers(raws[1..])
  {
    hide RawRowsNumbers;
    var n := |raws| - 1;
    if n > 0 {
      TablesHead(raws[..n]);
      assert raws[..n][1..] == raws[1..][..n - 1];
    }
  }

  // ---------------------------------------------------------------------------------------------
  // Reading numbers
  // ---------------------------------------------------------------------------------------------

  /** Read on, the reader gives the numbers `ns` and is at its end. */
  ghost predicate Ahead(r: VarintReader, ns: seq<nat>)
    reads r
  {
    r.end <= |r.bytes| && Decodes(r.bytes, r.p, r.end, ns, r.end)
  }

  /** Read one number.  Whatever is in the file, the result is a number or an error; if the file goes on
      with `n`, it is `n`. */
  method Take(r: VarintReader, ghost n: nat, ghost rest: seq<nat>) returns (res: Result<nat>)
    requires r.end <= |r.bytes|
    modifies r
    ensures old(Ahead(r, [n] + rest)) ==> res == Ok(n) && Ahead(r, rest)
    ensures res.Ok? ==> r.read == old(r.read) + [res.value] && (old(r.Reads()) ==> r.Reads())
  {
    if Ahead(r, [n] + rest) {
      ghost var o := DecodesSplit(r.bytes, r.p, r.end, n, rest, r.end);
    }
    res := r.Next();
  }

  method Take32(r: VarintReader, ghost n: nat, ghost rest: seq<nat>) returns (res: Result<nat>)
    requires r.end <= |r.bytes|
    modifies r
    ensures old(Ahead(r, [n] + rest)) && n <= U32_MAX ==> res == Ok(n) && Ahead(r, rest)
    ensures res.Ok? ==> res.value <= U32_MAX
    ensures res.Ok? ==> r.read == old(r.read) + [res.value] && (old(r.Reads()) ==> r.Reads())
  {
    if Ahead(r, [n] + rest) {
      ghost var o := DecodesSplit(r.bytes, r.p, r.end, n, rest, r.end);
    }
    res := r.Next32();
  }

  method TakeMany(r: VarintReader, count: nat, ghost ns: seq<nat>, ghost rest: seq<nat>) returns (res: Result<seq<nat>>)
    requires r.end <= |r.bytes|
    modifies r
    ensures old(Ahead(r, ns + rest)) && |ns| == count ==> res == Ok(ns) && Ahead(r, rest)
    ensures res.Ok? ==> |res.value| == count
    ensures res.Ok? ==> r.read == old(r.read) + res.value && (old(r.Reads()) ==> r.Reads())
  {
    hide Ahead, VarintReader.Reads;
    ghost var was, read0 := r.Reads(), r.read;
    ghost var good := Ahead(r, ns + rest) && |ns| == count;
    var out: seq<nat> := [];
    assert ns[0..] == ns;
    for i := 0 to count
      invariant |out| == i && r.read == read0 + out && (was ==> r.Reads())
      invariant good ==> |ns| == count && out == ns[..i] && Ahead(r, ns[i..] + rest)
    {
      if good {
        assert ns[i..] + rest == [ns[i]] + (ns[i + 1..] + rest);
      }
      var n :- Take(r, if good then ns[i] else 0, if good then ns[i + 1..] + rest else []);
      out := out + [n];
    }
    if good {
      assert ns[count..] + rest == rest && ns[..count] == ns;
    }
    res := Ok(out);
  }

  method ReadBest(r: VarintReader, ghost b: Best, ghost rest: seq<nat>) returns (res: Result<Best>)
    requires r.end <= |r.bytes|
    modifies r
    ensures old(Ahead(r, [b.tf] + ([b.dl] + rest))) && b.tf <= U32_MAX && b.dl <= U32_MAX ==>
              res == Ok(b) && Ahead(r, rest)
    ensures res.Ok? ==> res.value.tf <= U32_MAX && res.value.dl <= U32_MAX
    ensures res.Ok? ==> r.read == old(r.read) + [res.value.tf] + [res.value.dl] && (old(r.Reads()) ==> r.Reads())
  {
    hide Ahead, VarintReader.Reads;
    var tf :- Take32(r, b.tf, [b.dl] + rest);
    var dl :- Take32(r, b.dl, rest);
    res := Ok(Best(tf, dl));
  }

  method ReadBound(r: VarintReader, ghost b: BoundInfo, ghost rest: seq<nat>) returns (res: Result<BoundInfo>)
    requires r.end <= |r.bytes|
    modifies r
    ensures old(Ahead(r, BoundNumbers(b) + rest)) && BoundFits(b) ==> res == Ok(b) && Ahead(r, rest)
    ensures res.Ok? ==> r.read == old(r.read) + BoundNumbers(res.value) && BoundFits(res.value)
    ensures res.Ok? ==> old(r.Reads()) ==> r.Reads()
  {
    hide Ahead, VarintReader.Reads, BoundNumbers, BoundFits;
    ghost var read0 := r.read;
    ghost var r3 := [b.textbook.tf] + ([b.textbook.dl] + rest);
    ghost var r2 := [b.lucene.tf] + ([b.lucene.dl] + r3);
    BoundThen(b, rest);
    BoundWidths(b);
    var maxTf :- Take32(r, b.maxTf, [b.minDl] + r2);
    var minDl :- Take32(r, b.minDl, r2);
    var lucene :- ReadBest(r, b.lucene, r3);
    var textbook :- ReadBest(r, b.textbook, rest);
    res := Ok(BoundInfo(maxTf, minDl, lucene, textbook));
    BoundJoins(read0, res.value);
    BoundWidths(res.value);
  }

  lemma BoundThen(b: BoundInfo, rest: seq<nat>)
    ensures BoundNumbers(b) + rest
         == [b.maxTf] + ([b.minDl] + ([b.lucene.tf] + ([b.lucene.dl] + ([b.textbook.tf] + ([b.textbook.dl] + rest)))))
  {
  }

  lemma BoundJoins(ns: seq<nat>, b: BoundInfo)
    ensures ns + [b.maxTf] + [b.minDl] + [b.lucene.tf] + [b.lucene.dl] + [b.textbook.tf] + [b.textbook.dl]
         == ns + BoundNumbers(b)
  {
  }

  lemma BoundWidths(b: BoundInfo)
    ensures BoundFits(b) <==>
              b.maxTf <= U32_MAX && b.minDl <= U32_MAX && b.lucene.tf <= U32_MAX && b.lucene.dl <= U32_MAX
                              && b.textbook.tf <= U32_MAX && b.textbook.dl <= U32_MAX
  {
  }

  lemma AheadStart(r: VarintReader, ns: seq<nat>)
    requires r.p == 0 && r.end == |r.bytes| && Decodes(r.bytes, 0, |r.bytes|, ns, |r.bytes|)
    ensures Ahead(r, ns)
  {
  }

  lemma NothingAhead(r: VarintReader)
    requires Ahead(r, [])
    ensures r.p == r.end
  {
  }

  lemma ReadAll(r: VarintReader)
    requires r.Reads() && r.p == r.end && r.start == 0
    ensures r.end <= |r.bytes| && Decodes(r.bytes, 0, r.end, r.read, r.end)
  {
  }

  // ---------------------------------------------------------------------------------------------
  // Reading the lexicon
  // ---------------------------------------------------------------------------------------------

  method ReadTerm(r: VarintReader, nc: nat, ghost h: Header, ghost rest: seq<nat>) returns (res: Result<Header>)
    requires r.end <= |r.bytes|
    modifies r
    ensures res.Ok? ==> HeaderFits(res.value, nc)
    ensures res.Ok? ==> r.read == old(r.read) + HeaderNumbers(res.value) && (old(r.Reads()) ==> r.Reads())
    ensures HeaderFits(h, nc) && old(Ahead(r, HeaderNumbers(h) + rest)) ==> res == Ok(h) && Ahead(r, rest)
  {
    hide Ahead, BoundNumbers, BoundFits, VarintReader.Reads, HeaderNumbers;
    ghost var read0 := r.read;
    ghost var r4 := BoundNumbers(h.bound) + rest;
    ghost var r3 := h.lens + r4;
    ghost var r2 := [h.more] + r3;
    ghost var r1 := [h.df] + r2;
    HeaderThen(h, rest);
    var strLen :- Take32(r, h.strLen, r1);
    var df :- Take32(r, h.df, r2);
    var more :- Take(r, h.more, r3);
    var lens :- TakeMany(r, nc, h.lens, r4);
    var bound :- ReadBound(r, h.bound, rest);
    res := Ok(Header(strLen, df, more, lens, bound));
    HeaderJoins(read0, res.value);
  }

  lemma HeaderThen(h: Header, rest: seq<nat>)
    ensures HeaderNumbers(h) + rest == [h.strLen] + ([h.df] + ([h.more] + (h.lens + (BoundNumbers(h.bound) + rest))))
  {
    hide BoundNumbers;
  }

  lemma HeaderJoins(ns: seq<nat>, h: Header)
    ensures ns + [h.strLen] + [h.df] + [h.more] + h.lens + BoundNumbers(h.bound) == ns + HeaderNumbers(h)
  {
    hide BoundNumbers;
  }

  lemma HeaderSize(h: Header, nc: nat)
    requires HeaderFits(h, nc)
    ensures |h.lens| == nc
  {
  }

  lemma TableOf(df: nat)
    ensures TableSize(df) == if df <= BLOCK_SIZE then 0 else Blocks(df)
  {
  }

  /** The terms still to come, if the lexicon is that of `hs0`. */
  ghost predicate TermsAhead(r: VarintReader, nc: nat, hs0: seq<Header>, i: nat)
    reads r
  {
    i <= |hs0| && AllFit(hs0, nc) && Ahead(r, HeadersNumbers(hs0[i..]))
  }

  lemma TermAhead(r: VarintReader, nc: nat, hs0: seq<Header>, i: nat)
    requires TermsAhead(r, nc, hs0, i) && i < |hs0|
    ensures HeaderFits(hs0[i], nc) && Ahead(r, HeaderNumbers(hs0[i]) + HeadersNumbers(hs0[i + 1..]))
  {
    hide Ahead, HeadersNumbers, HeaderNumbers, HeaderFits;
    HeadersHead(hs0[i..]);
    assert hs0[i..][1..] == hs0[i + 1..];
  }

  lemma TermsGoOn(r: VarintReader, nc: nat, hs0: seq<Header>, i: nat)
    requires i < |hs0| && AllFit(hs0, nc) && Ahead(r, HeadersNumbers(hs0[i + 1..]))
    ensures TermsAhead(r, nc, hs0, i + 1)
  {
  }

  /** The lexicon, term by term, with running offsets.  It is read exactly if it says something: files that are cut
      short, overlong, too wide or inconsistent are errors, and others are not. */
  method OpenLexicon(f: Files, nc: nat, numTerms: nat, numBlocks: nat, ghost hs0: seq<Header>)
    returns (res: Result<seq<OpenTerm>>, postOff: seq<nat>, ghost hs: seq<Header>)
    ensures res.Ok? ==> LexiconIs(f, nc, numTerms, numBlocks, hs) && res.value == PlacedAll(hs, nc)
                        && postOff == EndsOf(hs, nc).postOff
    ensures LexiconIs(f, nc, numTerms, numBlocks, hs0) ==> res.Ok? && hs == hs0
  {
    hide Ahead, TermsAhead, Blocks, TableSize, VarintReader.Reads, HeadersNumbers, HeaderNumbers, EndsOf, PlacedAll,
      HeaderFits, Decodes, AllFit;
    ghost var good := LexiconIs(f, nc, numTerms, numBlocks, hs0);
    var r := new VarintReader(f.lex, 0, |f.lex|);
    var out: seq<OpenTerm> := [];
    var strOff: nat, nextBlock: nat := 0, 0;
    postOff, hs := seq(nc, _ => 0), [];
    NoHeaders(nc);
    if good {
      LexiconStarts(f, nc, numTerms, numBlocks, hs0, r);
    }
    for i := 0 to numTerms
      invariant |out| == i == |hs| && |postOff| == nc && r.end == |r.bytes| && r.bytes == f.lex && r.start == 0
      invariant r.Reads() && AllFit(hs, nc) && r.read == HeadersNumbers(hs)
      invariant out == PlacedAll(hs, nc) && EndsOf(hs, nc) == Ends(strOff, postOff, nextBlock)
      invariant good ==> TermsAhead(r, nc, hs0, i) && |hs0| == numTerms && hs == hs0[..i] && AllFit(hs0, nc)
    {
      ghost var h0, tail: seq<nat> := Header(0, 0, 0, [], BoundInfo(0, 0, Best(0, 0), Best(0, 0))), [];
      if good {
        TermAhead(r, nc, hs0, i);
        h0, tail := hs0[i], HeadersNumbers(hs0[i + 1..]);
      }
      var h :- ReadTerm(r, nc, h0, tail);
      if good {
        TermsGoOn(r, nc, hs0, i);
      }
      HeaderSize(h, nc);
      HeadersNext(hs, h, nc);
      out, hs := out + [Placed(Ends(strOff, postOff, nextBlock), h)], hs + [h];
      strOff := strOff + h.strLen;
      postOff := seq(nc, c requires 0 <= c < nc => postOff[c] + h.lens[c]);
      TableOf(h.df);
      if h.df > BLOCK_SIZE {
        nextBlock := nextBlock + Blocks(h.df);
      }
    }
    if good {
      assert hs == hs0;
      TermsEnd(r, nc, hs0);
    }
    if r.p != r.end || strOff != |f.strs| || nextBlock != numBlocks {
      return Err(Inconsistent), postOff, hs;
    }
    ReadAll(r);
    res := Ok(out);
  }

  lemma LexiconStarts(f: Files, nc: nat, numTerms: nat, numBlocks: nat, hs0: seq<Header>, r: VarintReader)
    requires LexiconIs(f, nc, numTerms, numBlocks, hs0) && r.p == 0 && r.bytes == f.lex && r.end == |f.lex|
    ensures TermsAhead(r, nc, hs0, 0) && |hs0| == numTerms
  {
    hide HeadersNumbers, EndsOf, Decodes, HeaderFits;
    AheadStart(r, HeadersNumbers(hs0));
    assert hs0[0..] == hs0;
  }

  lemma TermsEnd(r: VarintReader, nc: nat, hs0: seq<Header>)
    requires TermsAhead(r, nc, hs0, |hs0|)
    ensures r.p == r.end
  {
    assert hs0[|hs0|..] == [];
    NothingAhead(r);
  }

  // ---------------------------------------------------------------------------------------------
  // Reading the block table
  // ---------------------------------------------------------------------------------------------

  ghost predicate AllNarrow(ns: seq<nat>) {
    forall c :: 0 <= c < |ns| ==> ns[c] <= U32_MAX
  }

  method ReadOffsets(r: VarintReader, offs: seq<nat>, ghost steps: seq<nat>, ghost rest: seq<nat>)
    returns (res: Result<seq<nat>>, ghost got: seq<nat>)
    requires r.end <= |r.bytes|
    modifies r
    ensures res.Ok? ==> |res.value| == |offs| == |got|
    ensures res.Ok? ==>
              forall c :: 0 <= c < |offs| ==> got[c] <= U32_MAX && res.value[c] == (offs[c] + got[c]) % TWO32
    ensures res.Ok? ==> r.read == old(r.read) + got && (old(r.Reads()) ==> r.Reads())
    ensures old(Ahead(r, steps + rest)) && |steps| == |offs| && AllNarrow(steps) ==>
              res.Ok? && got == steps && Ahead(r, rest)
  {
    hide Ahead, VarintReader.Reads;
    ghost var good := Ahead(r, steps + rest) && |steps| == |offs| && AllNarrow(steps);
    ghost var was, read0 := r.Reads(), r.read;
    var off: seq<nat> := [];
    got := [];
    assert steps[0..] == steps;
    for c := 0 to |offs|
      invariant |off| == c == |got| && r.read == read0 + got && (was ==> r.Reads())
      invariant forall d :: 0 <= d < c ==> got[d] <= U32_MAX && off[d] == (offs[d] + got[d]) % TWO32
      invariant good ==> got == steps[..c] && Ahead(r, steps[c..] + rest)
    {
      ghost var next: nat, tail: seq<nat> := 0, [];
      if good {
        next, tail := steps[c], steps[c + 1..] + rest;
        assert steps[c..] + rest == [next] + tail;
      }
      var d :- Take32(r, next, tail);
      off, got := off + [(offs[c] + d) % TWO32], got + [d];
    }
    if good {
      assert steps[|offs|..] + rest == rest && steps[..|offs|] == steps;
    }
    res := Ok(off);
  }

  method ReadRow(r: VarintReader, nc: nat, last: nat, offs: seq<nat>, ghost w: RawRow, ghost rest: seq<nat>)
    returns (res: Result<OpenBlock>, ghost raw: RawRow)
    requires r.end <= |r.bytes| && |offs| == nc
    modifies r
    ensures res.Ok? ==> RawFits(raw, nc) && |raw.steps| == nc && res.value == RowAfter(last, offs, raw)
    ensures res.Ok? ==> r.read == old(r.read) + RawNumbers(raw) && (old(r.Reads()) ==> r.Reads())
    ensures RawFits(w, nc) && old(Ahead(r, RawNumbers(w) + rest)) ==> res.Ok? && raw == w && Ahead(r, rest)
  {
    hide Ahead, BoundNumbers, BoundFits, VarintReader.Reads, RawNumbers, RowAfter;
    raw := w;
    ghost var read0 := r.read;
    ghost var r2 := BoundNumbers(w.bound) + rest;
    ghost var r1 := w.steps + r2;
    RawThen(w, rest);
    var gap :- Take32(r, w.gap, r1);
    var off;
    ghost var got;
    off, got :- ReadOffsets(r, offs, w.steps, r2);
    var bound :- ReadBound(r, w.bound, rest);
    raw := RawRow(gap, got, bound);
    RawJoins(read0, raw);
    res := Ok(OpenBlock((last + gap) % TWO32, off, bound));
    RawRowIs(nc, last, offs, raw, off);
  }

  lemma RawThen(w: RawRow, rest: seq<nat>)
    ensures RawNumbers(w) + rest == [w.gap] + (w.steps + (BoundNumbers(w.bound) + rest))
  {
    hide BoundNumbers;
  }

  lemma RawJoins(ns: seq<nat>, w: RawRow)
    ensures ns + [w.gap] + w.steps + BoundNumbers(w.bound) == ns + RawNumbers(w)
  {
    hide BoundNumbers;
  }

  lemma RawRowIs(nc: nat, last: nat, offs: seq<nat>, raw: RawRow, off: seq<nat>)
    requires |offs| == nc == |off| == |raw.steps|
    requires forall c :: 0 <= c < nc ==> off[c] == (offs[c] + raw.steps[c]) % TWO32
    ensures OpenBlock((last + raw.gap) % TWO32, off, raw.bound) == RowAfter(last, offs, raw)
  {
    assert off == RowAfter(last, offs, raw).off;
  }

  /** The rows still to come, if they are `raws0`. */
  ghost predicate RowsAhead(r: VarintReader, nc: nat, raws0: seq<RawRow>, j: nat, rest: seq<nat>)
    reads r
  {
    j <= |raws0| && AllRawFit(raws0, nc) && Ahead(r, RawRowsNumbers(raws0[j..]) + rest)
  }

  lemma RowAhead(r: VarintReader, nc: nat, raws0: seq<RawRow>, j: nat, rest: seq<nat>)
    requires RowsAhead(r, nc, raws0, j, rest) && j < |raws0|
    ensures RawFits(raws0[j], nc) && Ahead(r, RawNumbers(raws0[j]) + (RawRowsNumbers(raws0[j + 1..]) + rest))
  {
    hide Ahead, RawRowsNumbers, RawNumbers, RawFits;
    RawHead(raws0[j..]);
    assert raws0[j..][1..] == raws0[j + 1..];
    var a, b := RawNumbers(raws0[j]), RawRowsNumbers(raws0[j + 1..]);
    assert (a + b) + rest == a + (b + rest);
  }

  lemma RowsGoOn(r: VarintReader, nc: nat, raws0: seq<RawRow>, j: nat, rest: seq<nat>)
    requires j < |raws0| && AllRawFit(raws0, nc) && Ahead(r, RawRowsNumbers(raws0[j + 1..]) + rest)
    ensures RowsAhead(r, nc, raws0, j + 1, rest)
  {
  }

  lemma RowsEnd(r: VarintReader, nc: nat, raws0: seq<RawRow>, rest: seq<nat>)
    requires RowsAhead(r, nc, raws0, |raws0|, rest)
    ensures Ahead(r, rest)
  {
    hide Ahead;
    assert raws0[|raws0|..] == [];
    assert RawRowsNumbers([]) + rest == rest;
  }

  lemma RowsStart(r: VarintReader, nc: nat, raws0: seq<RawRow>, rest: seq<nat>)
    requires AllRawFit(raws0, nc) && Ahead(r, RawRowsNumbers(raws0) + rest)
    ensures RowsAhead(r, nc, raws0, 0, rest)
  {
    hide Ahead;
    assert raws0[0..] == raws0;
  }

  method ReadRows(r: VarintReader, nc: nat, nb: nat, ghost raws0: seq<RawRow>, ghost rest: seq<nat>)
    returns (res: Result<seq<OpenBlock>>, ghost raws: seq<RawRow>)
    requires r.end <= |r.bytes|
    modifies r
    ensures res.Ok? ==> |raws| == nb && AllRawFit(raws, nc) && res.value == Running(raws, nc)
    ensures res.Ok? ==> r.read == old(r.read) + RawRowsNumbers(raws) && (old(r.Reads()) ==> r.Reads())
    ensures |raws0| == nb && AllRawFit(raws0, nc) && old(Ahead(r, RawRowsNumbers(raws0) + rest)) ==>
              res.Ok? && raws == raws0 && Ahead(r, rest)
  {
    hide Ahead, VarintReader.Reads, RawFits, RawNumbers, RawRowsNumbers, Running, RowAfter, AllRawFit, RowsAhead,
      LastOf, OffsOf;
    ghost var good := |raws0| == nb && AllRawFit(raws0, nc) && Ahead(r, RawRowsNumbers(raws0) + rest);
    ghost var was, read0 := r.Reads(), r.read;
    var rows: seq<OpenBlock> := [];
    raws := [];
    NoRows(nc);
    if good {
      RowsStart(r, nc, raws0, rest);
    }
    for j := 0 to nb
      invariant |rows| == j == |raws| && AllRawFit(raws, nc) && rows == Running(raws, nc)
      invariant r.read == read0 + RawRowsNumbers(raws) && (was ==> r.Reads())
      invariant good ==> RowsAhead(r, nc, raws0, j, rest) && raws == raws0[..j] && |raws0| == nb && AllRawFit(raws0, nc)
    {
      ghost var w, tail: seq<nat> := RawRow(0, [], BoundInfo(0, 0, Best(0, 0), Best(0, 0))), [];
      if good {
        RowAhead(r, nc, raws0, j, rest);
        w, tail := raws0[j], RawRowsNumbers(raws0[j + 1..]) + rest;
      }
      OffsSize(raws, nc);
      var b;
      ghost var raw;
      b, raw :- ReadRow(r, nc, LastOf(rows), OffsOf(rows, nc), w, tail);
      if good {
        RowsGoOn(r, nc, raws0, j, rest);
      }
      RunningNext(raws, raw, nc);
      rows, raws := rows + [b], raws + [raw];
    }
    if good {
      assert raws == raws0;
      RowsEnd(r, nc, raws0, rest);
    }
    res := Ok(rows);
  }

  lemma OffsSize(raws: seq<RawRow>, nc: nat)
    requires AllRawFit(raws, nc)
    ensures |OffsOf(Running(raws, nc), nc)| == nc
  {
  }

  /** The tables still to come, if they are `raws0`. */
  ghost predicate TablesAhead(r: VarintReader, nc: nat, ts: seq<OpenTerm>, raws0: seq<seq<RawRow>>, i: nat)
    reads r
    ensures TablesAhead(r, nc, ts, raws0, i) ==> |raws0| == |ts| && i <= |ts|
  {
    TablesFit(raws0, ts, nc) && |raws0| == |ts| && i <= |ts| && Ahead(r, TablesNumbers(raws0[i..]))
  }

  lemma TableAhead(r: VarintReader, nc: nat, ts: seq<OpenTerm>, raws0: seq<seq<RawRow>>, i: nat)
    requires TablesAhead(r, nc, ts, raws0, i) && i < |ts|
    ensures TableFits(raws0[i], ts[i].df, nc) && Ahead(r, RawRowsNumbers(raws0[i]) + TablesNumbers(raws0[i + 1..]))
  {
    hide Ahead, TablesNumbers, RawRowsNumbers, TableFits;
    TablesHead(raws0[i..]);
    assert raws0[i..][1..] == raws0[i + 1..];
  }

  lemma TablesGoOn(r: VarintReader, nc: nat, ts: seq<OpenTerm>, raws0: seq<seq<RawRow>>, i: nat)
    requires TablesFit(raws0, ts, nc) && |raws0| == |ts| && i < |ts| && Ahead(r, TablesNumbers(raws0[i + 1..]))
    ensures TablesAhead(r, nc, ts, raws0, i + 1)
  {
  }

  /** A term of one block has no rows: nothing is read for it. */
  lemma NoTable(r: VarintReader, nc: nat, ts: seq<OpenTerm>, raws0: seq<seq<RawRow>>, i: nat)
    requires TablesAhead(r, nc, ts, raws0, i) && i < |ts| && ts[i].df <= BLOCK_SIZE
    ensures raws0[i] == [] && TablesAhead(r, nc, ts, raws0, i + 1)
  {
    hide Ahead, TablesNumbers, RawRowsNumbers, TableFits;
    TableAhead(r, nc, ts, raws0, i);
    TableOf(ts[i].df);
    NoRows(nc);
    assert [] + TablesNumbers(raws0[i + 1..]) == TablesNumbers(raws0[i + 1..]);
  }

  method OpenBlocks(f: Files, nc: nat, ts: seq<OpenTerm>, ghost raws0: seq<seq<RawRow>>)
    returns (res: Result<seq<OpenBlock>>, ghost raws: seq<seq<RawRow>>)
    ensures res.Ok? ==> BlocksAre(f, nc, ts, raws) && res.value == RunningAll(raws, ts, nc)
    ensures BlocksAre(f, nc, ts, raws0) ==> res.Ok? && raws == raws0
  {
    hide Ahead, Blocks, TableSize, VarintReader.Reads, TablesFit, TableFits, TablesNumbers, TablesAhead, RunningAll,
      Running,
      AllRawFit, RawRowsNumbers, Decodes;
    raws := [];
    NoTables(ts, nc);
    ghost var good := BlocksAre(f, nc, ts, raws0);
    var r := new VarintReader(f.blk, 0, |f.blk|);
    var blocks: seq<OpenBlock> := [];
    if good {
      TablesStart(f, nc, ts, raws0, r);
    }
    for i := 0 to |ts|
      invariant r.end == |r.bytes| && r.bytes == f.blk && r.start == 0 && |raws| == i
      invariant r.Reads() && TablesFit(raws, ts, nc) && r.read == TablesNumbers(raws)
      invariant blocks == RunningAll(raws, ts, nc)
      invariant good ==> TablesAhead(r, nc, ts, raws0, i) && raws == raws0[..i]
      invariant good ==> TablesFit(raws0, ts, nc) && |raws0| == |ts|
    {
      TableOf(ts[i].df);
      if ts[i].df > BLOCK_SIZE {
        ghost var w, tail: seq<nat> := [], [];
        if good {
          TableAhead(r, nc, ts, raws0, i);
          w, tail := raws0[i], TablesNumbers(raws0[i + 1..]);
        }
        var rows;
        ghost var raw;
        rows, raw :- ReadRows(r, nc, Blocks(ts[i].df), w, tail);
        if good {
          TablesGoOn(r, nc, ts, raws0, i);
        }
        TablesNext(raws, raw, ts, nc);
        blocks, raws := blocks + rows, raws + [raw];
      } else {
        if good {
          NoTable(r, nc, ts, raws0, i);
        }
        NoRows(nc);
        TablesNext(raws, [], ts, nc);
        raws := raws + [[]];
      }
    }
    if good {
      assert raws == raws0;
      TablesEnd(r, nc, ts, raws0);
    }
    if r.p != r.end {
      return Err(Inconsistent), raws;
    }
    ReadAll(r);
    res := Ok(blocks);
  }

  lemma TablesStart(f: Files, nc: nat, ts: seq<OpenTerm>, raws0: seq<seq<RawRow>>, r: VarintReader)
    requires BlocksAre(f, nc, ts, raws0) && r.p == 0 && r.bytes == f.blk && r.end == |f.blk|
    ensures TablesAhead(r, nc, ts, raws0, 0)
  {
    hide TablesNumbers, TablesFit, Decodes;
    AheadStart(r, TablesNumbers(raws0));
    assert raws0[0..] == raws0;
  }

  lemma TablesEnd(r: VarintReader, nc: nat, ts: seq<OpenTerm>, raws0: seq<seq<RawRow>>)
    requires TablesAhead(r, nc, ts, raws0, |ts|)
    ensures r.p == r.end
  {
    hide TablesFit;
    assert raws0[|ts|..] == [];
    NothingAhead(r);
  }

  // ---------------------------------------------------------------------------------------------
  // Opening
  // ---------------------------------------------------------------------------------------------

  /** open: the tables that the files mean, or an error exactly if they mean none. */
  method Open(f: Files, nc: nat, numTerms: nat, numBlocks: nat)
    returns (res: Result<Tables>, ghost hs: seq<Header>, ghost raws: seq<seq<RawRow>>)
    ensures res.Ok? ==> FilesSay(f, nc, numTerms, numBlocks, res.value, hs, raws)
    ensures res.Err? ==> forall tb, h, w :: !FilesSay(f, nc, numTerms, numBlocks, tb, h, w)
  {
    hide LexiconIs, BlocksAre, PlacedAll, RunningAll, EndsOf, AllFit, TablesFit;
    hs, raws := [], [];
    ghost var hs0, raws0 := Meaning(f, nc, numTerms, numBlocks);
    var ts, postOff;
    ts, postOff, hs :- OpenLexicon(f, nc, numTerms, numBlocks, hs0);
    var blocks;
    blocks, raws :- OpenBlocks(f, nc, ts, raws0);
    if |f.posts| != nc {
      return Err(Inconsistent), hs, raws;
    }
    for c := 0 to nc
      invariant forall d :: 0 <= d < c ==> |f.posts[d]| == postOff[d]
    {
      if |f.posts[c]| != postOff[c] {
        return Err(Inconsistent), hs, raws;
      }
    }
    res := Ok(Tables(ts, blocks));
  }

  ghost predicate Means(f: Files, nc: nat, numTerms: nat, numBlocks: nat, hs: seq<Header>, raws: seq<seq<RawRow>>) {
    exists tb :: FilesSay(f, nc, numTerms, numBlocks, tb, hs, raws)
  }

  /** A meaning of the files, if they have one. */
  ghost method Meaning(f: Files, nc: nat, numTerms: nat, numBlocks: nat) returns (hs: seq<Header>,
                       raws: seq<seq<RawRow>>)
    ensures forall tb, h, w :: FilesSay(f, nc, numTerms, numBlocks, tb, h, w) ==>
              Means(f, nc, numTerms, numBlocks, hs, raws)
  {
    hide FilesSay;
    hs, raws := [], [];
    if tb, h, w :| FilesSay(f, nc, numTerms, numBlocks, tb, h, w) {
      hs, raws := h, w;
    }
  }

  // ---------------------------------------------------------------------------------------------
  // Files mean one thing
  // ---------------------------------------------------------------------------------------------

  lemma SplitEqual(a: seq<nat>, x: seq<nat>, b: seq<nat>, y: seq<nat>)
    requires a + x == b + y && |x| == |y|
    ensures a == b && x == y
  {
    assert |a| == |b|;
    assert a == (a + x)[..|a|] && b == (b + y)[..|b|];
    assert x == (a + x)[|a|..] && y == (b + y)[|b|..];
  }

  lemma HeaderOnce(h: Header, k: Header, nc: nat)
    requires HeaderFits(h, nc) && HeaderFits(k, nc)
    ensures |HeaderNumbers(h)| == |HeaderNumbers(k)| && (HeaderNumbers(h) == HeaderNumbers(k) ==> h == k)
  {
    hide BoundFits;
    if HeaderNumbers(h) == HeaderNumbers(k) {
      var a, b := [h.strLen, h.df, h.more], [k.strLen, k.df, k.more];
      SplitEqual(a + h.lens, BoundNumbers(h.bound), b + k.lens, BoundNumbers(k.bound));
      SplitEqual(a, h.lens, b, k.lens);
      assert a[0] == b[0] && a[1] == b[1] && a[2] == b[2];
      BoundOnce(h.bound, k.bound);
    }
  }

  lemma BoundOnce(a: BoundInfo, b: BoundInfo)
    requires BoundNumbers(a) == BoundNumbers(b)
    ensures a == b
  {
    var x, y := BoundNumbers(a), BoundNumbers(b);
    assert x[0] == y[0] && x[1] == y[1] && x[2] == y[2] && x[3] == y[3] && x[4] == y[4] && x[5] == y[5];
  }

  lemma {:induction false} HeadersOnce(a: seq<Header>, b: seq<Header>, nc: nat)
    requires AllFit(a, nc) && AllFit(b, nc) && |a| == |b|
    ensures |HeadersNumbers(a)| == |HeadersNumbers(b)| && (HeadersNumbers(a) == HeadersNumbers(b) ==> a == b)
    decreases |a|
  {
    hide HeaderNumbers, HeaderFits;
    if a != [] {
      var n := |a| - 1;
      HeadersOnce(a[..n], b[..n], nc);
      HeaderOnce(a[n], b[n], nc);
      if HeadersNumbers(a) == HeadersNumbers(b) {
        SplitEqual(HeadersNumbers(a[..n]), HeaderNumbers(a[n]), HeadersNumbers(b[..n]), HeaderNumbers(b[n]));
        assert a == a[..n] + [a[n]] && b == b[..n] + [b[n]];
      }
    }
  }

  lemma RawOnce(v: RawRow, w: RawRow, nc: nat)
    requires RawFits(v, nc) && RawFits(w, nc)
    ensures |RawNumbers(v)| == |RawNumbers(w)| && (RawNumbers(v) == RawNumbers(w) ==> v == w)
  {
    hide BoundFits;
    if RawNumbers(v) == RawNumbers(w) {
      SplitEqual([v.gap] + v.steps, BoundNumbers(v.bound), [w.gap] + w.steps, BoundNumbers(w.bound));
      SplitEqual([v.gap], v.steps, [w.gap], w.steps);
      assert [v.gap][0] == [w.gap][0];
      BoundOnce(v.bound, w.bound);
    }
  }

  lemma {:induction false} RowsOnce(a: seq<RawRow>, b: seq<RawRow>, nc: nat)
    requires AllRawFit(a, nc) && AllRawFit(b, nc) && |a| == |b|
    ensures |RawRowsNumbers(a)| == |RawRowsNumbers(b)| && (RawRowsNumbers(a) == RawRowsNumbers(b) ==> a == b)
    decreases |a|
  {
    hide RawNumbers, RawFits;
    if a != [] {
      var n := |a| - 1;
      RowsOnce(a[..n], b[..n], nc);
      RawOnce(a[n], b[n], nc);
      if RawRowsNumbers(a) == RawRowsNumbers(b) {
        SplitEqual(RawRowsNumbers(a[..n]), RawNumbers(a[n]), RawRowsNumbers(b[..n]), RawNumbers(b[n]));
        assert a == a[..n] + [a[n]] && b == b[..n] + [b[n]];
      }
    }
  }

  lemma {:induction false} TablesOnce(a: seq<seq<RawRow>>, b: seq<seq<RawRow>>, ts: seq<OpenTerm>, nc: nat)
    requires TablesFit(a, ts, nc) && TablesFit(b, ts, nc) && |a| == |b|
    ensures |TablesNumbers(a)| == |TablesNumbers(b)| && (TablesNumbers(a) == TablesNumbers(b) ==> a == b)
    decreases |a|
  {
    hide RawRowsNumbers, TableFits;
    if a != [] {
      var n := |a| - 1;
      TablesOnce(a[..n], b[..n], ts, nc);
      assert TableFits(a[n], ts[n].df, nc) && TableFits(b[n], ts[n].df, nc);
      RowsOnce(a[n], b[n], nc);
      if TablesNumbers(a) == TablesNumbers(b) {
        SplitEqual(TablesNumbers(a[..n]), RawRowsNumbers(a[n]), TablesNumbers(b[..n]), RawRowsNumbers(b[n]));
        assert a == a[..n] + [a[n]] && b == b[..n] + [b[n]];
      }
    }
  }

  /** Files mean one thing: whatever wrote them, there is one way to read them. */
  lemma FilesSayOnce(f: Files, nc: nat, numTerms: nat, numBlocks: nat, tb: Tables, hs: seq<Header>,
                     raws: seq<seq<RawRow>>, tb': Tables, hs': seq<Header>, raws': seq<seq<RawRow>>)
    requires FilesSay(f, nc, numTerms, numBlocks, tb, hs, raws) && FilesSay(f, nc, numTerms, numBlocks, tb', hs', raws')
    ensures tb == tb' && hs == hs' && raws == raws'
  {
    hide HeadersNumbers, TablesNumbers, AllFit, TablesFit, EndsOf, PlacedAll, RunningAll, Decodes;
    HeadersOnce(hs, hs', nc);
    DecodesOnce(f.lex, 0, |f.lex|, HeadersNumbers(hs), |f.lex|, HeadersNumbers(hs'), |f.lex|);
    TablesOnce(raws, raws', tb.terms, nc);
    DecodesOnce(f.blk, 0, |f.blk|, TablesNumbers(raws), |f.blk|, TablesNumbers(raws'), |f.blk|);
  }
}
