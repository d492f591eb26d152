/** Reading back what was written: the files of an index mean its terms, and every string and entry is found
    again. */
module LexiconRoundTrip {
  import opened Bits
  import opened Varint
  import opened ByteStrings
  import opened Codec
  import opened Postings
  import opened Lexicon
  import opened LexiconReader

  // ---------------------------------------------------------------------------------------------
  // Written bytes are read as the numbers written
  // ---------------------------------------------------------------------------------------------

  lemma ReadsFirst(bytes: seq<byte>, p: nat, n: nat, rest: seq<nat>)
    requires p <= |bytes| && bytes[p..] == Stream([n] + rest) && n < TWO64
    ensures var q := p + |VByte(n)|;
            NextFrom(bytes, p, |bytes|, 0, 0) == Ok(Read(n, q)) && q <= |bytes| && bytes[q..] == Stream(rest)
  {
    assert ([n] + rest)[1..] == rest;
    var v, s := VByte(n), Stream(rest);
    assert Stream([n] + rest) == v + s;
    hide Stream, VByte, NextFrom;
    Prefix(bytes, p, v, s);
    NextInvertsPut(bytes, p, |bytes|, n, 0, 0);
    assert Pow2(0) == 1;
  }

  lemma Prefix(bytes: seq<byte>, p: nat, v: seq<byte>, s: seq<byte>)
    requires p <= |bytes| && bytes[p..] == v + s
    ensures p + |v| <= |bytes| && BytesAt(bytes, p, v) && bytes[p + |v|..] == s
  {
    assert bytes[p..p + |v|] == bytes[p..][..|v|];
    assert bytes[p + |v|..] == bytes[p..][|v|..];
  }

  lemma {:induction false} StreamDecodes(bytes: seq<byte>, p: nat, ns: seq<nat>)
    requires p <= |bytes| && bytes[p..] == Stream(ns) && forall i :: 0 <= i < |ns| ==> ns[i] < TWO64
    ensures Decodes(bytes, p, |bytes|, ns, |bytes|)
    decreases |ns|
  {
    hide VByte, NextFrom;
    if ns != [] {
      assert ns == [ns[0]] + ns[1..];
      ReadsFirst(bytes, p, ns[0], ns[1..]);
      var q := p + |VByte(ns[0])|;
      StreamDecodes(bytes, q, ns[1..]);
      DecodesFirst(bytes, p, |bytes|, ns[0], q, ns[1..], |bytes|);
    }
  }

  // ---------------------------------------------------------------------------------------------
  // Terms and rows
  // ---------------------------------------------------------------------------------------------

  ghost function HeaderOf(t: Term): Header
    requires t.infos != [] && t.infos[0].df <= t.cf
  {
    Header(|t.str|, t.infos[0].df, t.cf - t.infos[0].df, Lengths(t.infos), t.infos[0].bound)
  }

  lemma LengthsFit(t: Term, nc: nat)
    requires WellFormed(t, nc)
    ensures forall c :: 0 <= c < nc ==> Lengths(t.infos)[c] < TWO64
  {
    assert forall c :: 0 <= c < nc ==> Agrees(t.infos[c], t.infos[0]);
  }

  /** The row of the block table as it is read. */
  ghost function RowOf(t: Term, nc: nat, j: nat): OpenBlock
    requires HasRow(t, nc, j)
  {
    RowOk(t, nc, j);
    OpenBlock(t.infos[0].blocks[j].lastDoc,
              seq(nc, c requires 0 <= c < nc => t.infos[c].blocks[j].off), t.infos[0].blocks[j].bound)
  }

  ghost function OffsBefore(t: Term, nc: nat, j: nat): (offs: seq<nat>)
    requires WellFormed(t, nc) && j <= TableSize(t.infos[0].df)
    ensures |offs| == nc
  {
    seq(nc, c requires 0 <= c < nc => assert Agrees(t.infos[c], t.infos[0]); OffBefore(t.infos[c], j))
  }

  lemma StepsFit(t: Term, nc: nat, j: nat)
    requires HasRow(t, nc, j)
    ensures forall c :: 0 <= c < nc ==> Steps(t, nc, j)[c] <= U32_MAX
    ensures forall c :: 0 <= c < nc ==>
              (OffsBefore(t, nc, j)[c] + Steps(t, nc, j)[c]) % TWO32 == t.infos[c].blocks[j].off
    ensures t.infos[0].blocks[j].lastDoc - LastBefore(t.infos[0], j) <= U32_MAX
  {
    RowOk(t, nc, j);
  }

  ghost function RowsOf(t: Term, nc: nat): (rows: seq<OpenBlock>)
    requires WellFormed(t, nc)
    ensures |rows| == TableSize(t.infos[0].df)
    ensures forall j :: 0 <= j < |rows| ==> HasRow(t, nc, j) && rows[j] == RowOf(t, nc, j)
  {
    seq(TableSize(t.infos[0].df), j requires 0 <= j < TableSize(t.infos[0].df) =>
        assert HasRow(t, nc, j); RowOf(t, nc, j))
  }

  lemma NextOffs(t: Term, nc: nat, j: nat)
    requires HasRow(t, nc, j)
    ensures RowOf(t, nc, j).off == OffsBefore(t, nc, j + 1) && RowOf(t, nc, j).lastDoc == LastBefore(t.infos[0], j + 1)
  {
    assert forall c :: 0 <= c < nc ==> Agrees(t.infos[c], t.infos[0]);
  }

  ghost function RawOf(t: Term, nc: nat, j: nat): (w: RawRow)
    requires HasRow(t, nc, j)
    ensures |w.steps| == nc
  {
    RowOk(t, nc, j);
    RawRow(t.infos[0].blocks[j].lastDoc - LastBefore(t.infos[0], j), Steps(t, nc, j), t.infos[0].blocks[j].bound)
  }

  ghost function RawsOf(t: Term, nc: nat): (raws: seq<RawRow>)
    requires WellFormed(t, nc)
    ensures |raws| == TableSize(t.infos[0].df)
    ensures forall j :: 0 <= j < |raws| ==> HasRow(t, nc, j) && raws[j] == RawOf(t, nc, j)
  {
    seq(TableSize(t.infos[0].df), j requires 0 <= j < TableSize(t.infos[0].df) =>
        assert HasRow(t, nc, j); RawOf(t, nc, j))
  }

  lemma RawIsRow(t: Term, nc: nat, j: nat)
    requires HasRow(t, nc, j)
    ensures RawFits(RawOf(t, nc, j), nc) && RawNumbers(RawOf(t, nc, j)) == RowNumbers(t, nc, j)
    ensures RowAfter(LastBefore(t.infos[0], j), OffsBefore(t, nc, j), RawOf(t, nc, j)) == RowOf(t, nc, j)
  {
    hide HasRow, Steps, OffsBefore, BoundNumbers;
    RowOk(t, nc, j);
    StepsFit(t, nc, j);
    assert RowAfter(LastBefore(t.infos[0], j), OffsBefore(t, nc, j), RawOf(t, nc, j)).off == RowOf(t, nc, j).off;
  }

  lemma {:induction false} RowsRun(t: Term, nc: nat, j: nat)
    requires WellFormed(t, nc) && j <= TableSize(t.infos[0].df)
    ensures var raws := RawsOf(t, nc)[..j]; AllRawFit(raws, nc) && Running(raws, nc) == RowsOf(t, nc)[..j]
    ensures LastOf(RowsOf(t, nc)[..j]) == LastBefore(t.infos[0], j)
    ensures OffsOf(RowsOf(t, nc)[..j], nc) == OffsBefore(t, nc, j)
  {
    hide WellFormed, HasRow, RowOf, RawOf, RawFits, RowAfter, AllRawFit, Running;
    if j == 0 {
      NoRows(nc);
      FirstOffs(t, nc);
    } else {
      RowsRun(t, nc, j - 1);
      MakesRow(t, nc, j - 1);
      RawIsRow(t, nc, j - 1);
      NextOffs(t, nc, j - 1);
      assert RawsOf(t, nc)[..j] == RawsOf(t, nc)[..j - 1] + [RawOf(t, nc, j - 1)];
      assert RowsOf(t, nc)[..j] == RowsOf(t, nc)[..j - 1] + [RowOf(t, nc, j - 1)];
      RunningNext(RawsOf(t, nc)[..j - 1], RawOf(t, nc, j - 1), nc);
    }
  }

  lemma FirstOffs(t: Term, nc: nat)
    requires WellFormed(t, nc)
    ensures OffsBefore(t, nc, 0) == seq(nc, _ => 0)
  {
    hide WellFormed;
  }

  lemma {:induction false} RowsAreRaw(t: Term, nc: nat, j: nat)
    requires WellFormed(t, nc) && j <= TableSize(t.infos[0].df)
    ensures RawRowsNumbers(RawsOf(t, nc)[j..]) == RowsFrom(t, nc, j)
    decreases TableSize(t.infos[0].df) - j
  {
    hide WellFormed, HasRow, RawOf, RawNumbers, RowNumbers, RawRowsNumbers;
    var raws := RawsOf(t, nc);
    if j == TableSize(t.infos[0].df) {
      assert raws[j..] == [];
      NoRows(nc);
    } else {
      RowsAreRaw(t, nc, j + 1);
      RawHead(raws[j..]);
      assert raws[j..][1..] == raws[j + 1..];
      MakesRow(t, nc, j);
      RawIsRow(t, nc, j);
    }
  }

  // ---------------------------------------------------------------------------------------------
  // Parts of the files
  // ---------------------------------------------------------------------------------------------

  /** All rows of the block table. */
  ghost function Rows(terms: seq<Term>, nc: nat): seq<OpenBlock>
    requires AllWellFormed(terms, nc)
  {
    if terms == [] then [] else RowsOf(terms[0], nc) + Rows(terms[1..], nc)
  }

  lemma {:induction false} StringsAppend(a: seq<Term>, b: seq<Term>)
    ensures Strings(a + b) == Strings(a) + Strings(b)
  {
    if a == [] {
      assert a + b == b;
    } else {
      StringsAppend(a[1..], b);
      assert (a + b)[1..] == a[1..] + b;
      Regroup(a[0].str, Strings(a[1..]), Strings(b));
    }
  }

  lemma {:induction false} RowsAppend(a: seq<Term>, b: seq<Term>, nc: nat)
    requires AllWellFormed(a, nc) && AllWellFormed(b, nc)
    ensures AllWellFormed(a + b, nc) && Rows(a + b, nc) == Rows(a, nc) + Rows(b, nc)
  {
    hide WellFormed, RowsOf;
    if a == [] {
      assert a + b == b;
    } else {
      RowsAppend(a[1..], b, nc);
      assert (a + b)[1..] == a[1..] + b;
    }
  }

  lemma {:induction false} PostsAppend(a: seq<Term>, b: seq<Term>, nc: nat, c: nat)
    requires AllWellFormed(a, nc) && AllWellFormed(b, nc) && AllWellFormed(a + b, nc) && c < nc
    ensures PostBytes(a + b, nc, c) == PostBytes(a, nc, c) + PostBytes(b, nc, c)
  {
    hide WellFormed;
    if a == [] {
      assert a + b == b;
    } else {
      assert (a + b)[1..] == a[1..] + b;
      PostsAppend(a[1..], b, nc, c);
    }
  }

  /** The part of the files before term `i`, and the term itself. */
  lemma StringsSplit(terms: seq<Term>, i: nat)
    requires i < |terms|
    ensures Strings(terms) == Strings(terms[..i]) + terms[i].str + Strings(terms[i + 1..])
    ensures Strings(terms[..i + 1]) == Strings(terms[..i]) + terms[i].str
  {
    var t := terms[i];
    hide *;
    OneString(t);
    Around(terms, i);
    StringsAppend(terms[..i], [t]);
    StringsAppend(terms[..i + 1], terms[i + 1..]);
  }

  lemma Around(terms: seq<Term>, i: nat)
    requires i < |terms|
    ensures terms[..i] + [terms[i]] == terms[..i + 1] && terms[..i + 1] + terms[i + 1..] == terms
  {
  }

  lemma OneString(t: Term)
    ensures Strings([t]) == t.str
  {
    assert [t][1..] == [];
  }

  lemma RowsSplit(terms: seq<Term>, nc: nat, i: nat)
    requires AllWellFormed(terms, nc) && i < |terms|
    ensures Rows(terms, nc) == Rows(terms[..i], nc) + RowsOf(terms[i], nc) + Rows(terms[i + 1..], nc)
    ensures Rows(terms[..i + 1], nc) == Rows(terms[..i], nc) + RowsOf(terms[i], nc)
  {
    hide WellFormed, RowsOf, Rows;
    var t := terms[i];
    OneRows(t, nc);
    Around(terms, i);
    RowsAppend(terms[..i], [t], nc);
    RowsAppend(terms[..i + 1], terms[i + 1..], nc);
  }

  lemma OneRows(t: Term, nc: nat)
    requires WellFormed(t, nc)
    ensures Rows([t], nc) == RowsOf(t, nc)
  {
    hide WellFormed, RowsOf;
    assert [t][1..] == [];
  }

  lemma PostsSplit(terms: seq<Term>, nc: nat, c: nat, i: nat)
    requires AllWellFormed(terms, nc) && i < |terms| && c < nc
    ensures PostBytes(terms, nc, c)
         == PostBytes(terms[..i], nc, c) + terms[i].infos[c].bytes + PostBytes(terms[i + 1..], nc, c)
    ensures PostBytes(terms[..i + 1], nc, c) == PostBytes(terms[..i], nc, c) + terms[i].infos[c].bytes
  {
    hide WellFormed;
    var t := terms[i];
    assert PostBytes([t], nc, c) == t.infos[c].bytes by {
      assert [t][1..] == [];
    }
    hide PostBytes;
    Around(terms, i);
    PostsAppend(terms[..i], [t], nc, c);
    PostsAppend(terms[..i + 1], terms[i + 1..], nc, c);
  }

  ghost function OffsetsAt(terms: seq<Term>, nc: nat, i: nat): (offs: seq<nat>)
    requires AllWellFormed(terms, nc) && i <= |terms|
    ensures |offs| == nc && forall c :: 0 <= c < nc ==> offs[c] == |PostBytes(terms[..i], nc, c)|
  {
    seq(nc, c requires 0 <= c < nc => |PostBytes(terms[..i], nc, c)|)
  }

  lemma OffsetsNext(terms: seq<Term>, nc: nat, i: nat)
    requires AllWellFormed(terms, nc) && i < |terms|
    ensures forall c :: 0 <= c < nc ==>
              OffsetsAt(terms, nc, i + 1)[c] == OffsetsAt(terms, nc, i)[c] + |terms[i].infos[c].bytes|
  {
    hide WellFormed, PostBytes;
    forall c | 0 <= c < nc
      ensures OffsetsAt(terms, nc, i + 1)[c] == OffsetsAt(terms, nc, i)[c] + |terms[i].infos[c].bytes|
    {
      PostsSplit(terms, nc, c, i);
    }
  }

  /** Term `i` as it is opened: offsets count what the terms before it hold. */
  ghost function OpenTermOf(terms: seq<Term>, nc: nat, i: nat): OpenTerm
    requires AllWellFormed(terms, nc) && i < |terms|
  {
    var t := terms[i];
    OpenTerm(|Strings(terms[..i])|, |t.str|, t.infos[0].df, t.cf, OffsetsAt(terms, nc, i), t.infos[0].bound,
             |Rows(terms[..i], nc)|)
  }

  ghost function OpenTerms(terms: seq<Term>, nc: nat): (o: seq<OpenTerm>)
    requires AllWellFormed(terms, nc)
    ensures |o| == |terms| && forall i :: 0 <= i < |o| ==> o[i] == OpenTermOf(terms, nc, i)
  {
    seq(|terms|, i requires 0 <= i < |terms| => OpenTermOf(terms, nc, i))
  }

  lemma FirstOffsets(terms: seq<Term>, nc: nat)
    requires AllWellFormed(terms, nc)
    ensures OffsetsAt(terms, nc, 0) == seq(nc, _ => 0)
  {
    assert terms[..0] == [];
    assert forall c :: 0 <= c < nc ==> PostBytes([], nc, c) == [];
  }

  lemma OpenTermIs(terms: seq<Term>, nc: nat, i: nat)
    requires AllWellFormed(terms, nc) && i < |terms|
    ensures OpenTermOf(terms, nc, i)
         == OpenTerm(|Strings(terms[..i])|, |terms[i].str|, terms[i].infos[0].df, terms[i].cf, OffsetsAt(terms, nc, i),
                     terms[i].infos[0].bound, |Rows(terms[..i], nc)|)
  {
  }

  lemma HeaderIs(t: Term, nc: nat)
    requires WellFormed(t, nc)
    ensures (HeaderOf(t).more + HeaderOf(t).df) % TWO64 == t.cf
  {
  }

  ghost function HeadersOf(terms: seq<Term>, nc: nat): (hs: seq<Header>)
    requires AllWellFormed(terms, nc)
    ensures |hs| == |terms| && forall i :: 0 <= i < |hs| ==> hs[i] == HeaderOf(terms[i])
  {
    seq(|terms|, i requires 0 <= i < |terms| => HeaderOf(terms[i]))
  }

  lemma HeaderOk(t: Term, nc: nat)
    requires WellFormed(t, nc)
    ensures HeaderFits(HeaderOf(t), nc) && HeaderNumbers(HeaderOf(t)) == TermNumbers(t)
  {
    hide BoundNumbers;
  }

  lemma HeadersOk(terms: seq<Term>, nc: nat)
    requires AllWellFormed(terms, nc)
    ensures AllFit(HeadersOf(terms, nc), nc)
  {
    hide WellFormed, HeaderFits;
    forall i | 0 <= i < |terms| ensures HeaderFits(HeaderOf(terms[i]), nc) {
      HeaderOk(terms[i], nc);
    }
  }

  lemma {:induction false} LexIsHeaders(terms: seq<Term>, nc: nat)
    requires AllWellFormed(terms, nc)
    ensures HeadersNumbers(HeadersOf(terms, nc)) == LexNumbers(terms, nc)
  {
    hide WellFormed, HeaderNumbers, TermNumbers, HeadersNumbers, HeaderOf;
    if terms == [] {
      NoHeaders(nc);
    } else {
      var hs := HeadersOf(terms, nc);
      LexIsHeaders(terms[1..], nc);
      HeadersHead(hs);
      assert hs[1..] == HeadersOf(terms[1..], nc);
      HeaderOk(terms[0], nc);
    }
  }

  /** The first `i` terms as they are opened. */
  lemma {:induction false} WrittenPlaced(terms: seq<Term>, nc: nat, i: nat)
    requires AllWellFormed(terms, nc) && i <= |terms|
    ensures var hs := HeadersOf(terms, nc)[..i];
            && AllFit(hs, nc) && PlacedAll(hs, nc) == OpenTerms(terms, nc)[..i]
            && EndsOf(hs, nc) == Ends(|Strings(terms[..i])|, OffsetsAt(terms, nc, i), |Rows(terms[..i], nc)|)
  {
    hide WellFormed, HeaderFits, HeaderNumbers, HeadersNumbers, PlacedAll, EndsOf, AllFit, Placed, OpenTermOf, Strings,
      Rows,
      OffsetsAt, TableSize, HeaderOf, RowsOf;
    var hs, os := HeadersOf(terms, nc), OpenTerms(terms, nc);
    if i == 0 {
      NoHeaders(nc);
      NothingWritten(terms, nc);
    } else {
      var k: nat := i - 1;
      WrittenPlaced(terms, nc, k);
      HeaderOk(terms[k], nc);
      HeadersNext(hs[..k], hs[k], nc);
      assert hs[..i] == hs[..k] + [hs[k]] && os[..i] == os[..k] + [os[k]];
      PlacedIs(terms, nc, k);
      EndsNext(terms, nc, k);
    }
  }

  lemma NothingWritten(terms: seq<Term>, nc: nat)
    requires AllWellFormed(terms, nc)
    ensures Strings(terms[..0]) == [] && OffsetsAt(terms, nc, 0) == seq(nc, _ => 0) && Rows(terms[..0], nc) == []
  {
    FirstOffsets(terms, nc);
  }

  lemma PlacedIs(terms: seq<Term>, nc: nat, k: nat)
    requires AllWellFormed(terms, nc) && k < |terms|
    ensures Placed(Ends(|Strings(terms[..k])|, OffsetsAt(terms, nc, k), |Rows(terms[..k], nc)|), HeaderOf(terms[k]))
         == OpenTermOf(terms, nc, k)
  {
    hide WellFormed, Strings, Rows, OffsetsAt;
    OpenTermIs(terms, nc, k);
    HeaderIs(terms[k], nc);
  }

  lemma EndsNext(terms: seq<Term>, nc: nat, k: nat)
    requires AllWellFormed(terms, nc) && k < |terms|
    ensures var h := HeaderOf(terms[k]);
            && |h.lens| == nc && |Strings(terms[..k + 1])| == |Strings(terms[..k])| + h.strLen
            && |Rows(terms[..k + 1], nc)| == |Rows(terms[..k], nc)| + TableSize(h.df)
            && OffsetsAt(terms, nc, k + 1) == seq(nc, c requires 0 <= c < nc => OffsetsAt(terms, nc, k)[c] + h.lens[c])
  {
    hide WellFormed, Strings, Rows, OffsetsAt, RowsOf;
    StringsSplit(terms, k);
    RowsSplit(terms, nc, k);
    OffsetsNext(terms, nc, k);
  }

  ghost function AllRaws(terms: seq<Term>, nc: nat): (raws: seq<seq<RawRow>>)
    requires AllWellFormed(terms, nc)
    ensures |raws| == |terms| && forall i :: 0 <= i < |raws| ==> raws[i] == RawsOf(terms[i], nc)
  {
    seq(|terms|, i requires 0 <= i < |terms| => RawsOf(terms[i], nc))
  }

  lemma RawsFit(terms: seq<Term>, nc: nat)
    requires AllWellFormed(terms, nc)
    ensures TablesFit(AllRaws(terms, nc), OpenTerms(terms, nc), nc)
  {
    hide WellFormed, RawsOf, TableSize, TableFits;
    forall i | 0 <= i < |terms| ensures TableFits(RawsOf(terms[i], nc), OpenTerms(terms, nc)[i].df, nc) {
      RawsFitTerm(terms, nc, i);
    }
  }

  lemma RawsFitTerm(terms: seq<Term>, nc: nat, i: nat)
    requires AllWellFormed(terms, nc) && i < |terms|
    ensures TableFits(RawsOf(terms[i], nc), OpenTermOf(terms, nc, i).df, nc)
    ensures Running(RawsOf(terms[i], nc), nc) == RowsOf(terms[i], nc)
    ensures RawRowsNumbers(RawsOf(terms[i], nc)) == RowsFrom(terms[i], nc, 0)
  {
    hide WellFormed, RawOf, RowOf, HasRow, AllRawFit, Running, RawRowsNumbers, RowsFrom, TableSize;
    var t := terms[i];
    var n := TableSize(t.infos[0].df);
    OpenTermIs(terms, nc, i);
    RowsRun(t, nc, n);
    RowsAreRaw(t, nc, 0);
    assert RawsOf(t, nc)[..n] == RawsOf(t, nc) && RowsOf(t, nc)[..n] == RowsOf(t, nc) && RawsOf(t, nc)[0..]
           == RawsOf(t, nc);
  }

  lemma {:induction false} BlkIsTables(terms: seq<Term>, nc: nat)
    requires AllWellFormed(terms, nc)
    ensures TablesNumbers(AllRaws(terms, nc)) == BlkNumbers(terms, nc)
  {
    hide WellFormed, RawsOf, RowsFrom, RawRowsNumbers, TablesNumbers, TableFits, Running, RowsOf;
    if terms == [] {
      NoTables([], nc);
    } else {
      var raws := AllRaws(terms, nc);
      BlkIsTables(terms[1..], nc);
      TablesHead(raws);
      assert raws[1..] == AllRaws(terms[1..], nc);
      RawsFitTerm(terms, nc, 0);
    }
  }

  lemma {:induction false} WrittenRuns(terms: seq<Term>, nc: nat, i: nat)
    requires AllWellFormed(terms, nc) && i <= |terms|
    ensures TablesFit(AllRaws(terms, nc)[..i], OpenTerms(terms, nc), nc)
    ensures RunningAll(AllRaws(terms, nc)[..i], OpenTerms(terms, nc), nc) == Rows(terms[..i], nc)
  {
    hide WellFormed, RawsOf, TableFits, TablesFit, RunningAll, Running, RowsOf, Rows, OpenTermOf, RawRowsNumbers,
      RowsFrom;
    var raws, ts := AllRaws(terms, nc), OpenTerms(terms, nc);
    if i == 0 {
      NoTables(ts, nc);
      NothingWritten(terms, nc);
    } else {
      var k: nat := i - 1;
      WrittenRuns(terms, nc, k);
      RawsFitTerm(terms, nc, k);
      TablesNext(raws[..k], raws[k], ts, nc);
      assert raws[..i] == raws[..k] + [raws[k]];
      RowsSplit(terms, nc, k);
    }
  }

  // ---------------------------------------------------------------------------------------------
  // Widths
  // ---------------------------------------------------------------------------------------------

  ghost predicate Narrow(ns: seq<nat>) {
    forall i :: 0 <= i < |ns| ==> ns[i] < TWO64
  }

  lemma NarrowBoth(a: seq<nat>, b: seq<nat>)
    requires Narrow(a) && Narrow(b)
    ensures Narrow(a + b)
  {
  }

  lemma TermNarrow(t: Term, nc: nat)
    requires WellFormed(t, nc)
    ensures Narrow(TermNumbers(t))
  {
    LengthsFit(t, nc);
  }

  lemma {:induction false} LexNarrow(terms: seq<Term>, nc: nat)
    requires AllWellFormed(terms, nc)
    ensures Narrow(LexNumbers(terms, nc))
  {
    hide WellFormed, TermNumbers, Narrow;
    if terms == [] {
      NothingNarrow();
    } else {
      LexNarrow(terms[1..], nc);
      TermNarrow(terms[0], nc);
      NarrowBoth(TermNumbers(terms[0]), LexNumbers(terms[1..], nc));
    }
  }

  lemma NothingNarrow()
    ensures Narrow([])
  {
  }

  lemma RowNarrow(t: Term, nc: nat, j: nat)
    requires HasRow(t, nc, j)
    ensures Narrow(RowNumbers(t, nc, j))
  {
    hide HasRow, Steps;
    RowOk(t, nc, j);
    StepsFit(t, nc, j);
  }

  lemma {:induction false} RowsNarrow(t: Term, nc: nat, j: nat)
    requires WellFormed(t, nc) && j <= TableSize(t.infos[0].df)
    ensures Narrow(RowsFrom(t, nc, j))
    decreases TableSize(t.infos[0].df) - j
  {
    hide WellFormed, HasRow, RowNumbers, Narrow;
    if j == TableSize(t.infos[0].df) {
      NothingNarrow();
    } else {
      MakesRow(t, nc, j);
      RowNarrow(t, nc, j);
      RowsNarrow(t, nc, j + 1);
      NarrowBoth(RowNumbers(t, nc, j), RowsFrom(t, nc, j + 1));
    }
  }

  lemma {:induction false} BlkNarrow(terms: seq<Term>, nc: nat)
    requires AllWellFormed(terms, nc)
    ensures Narrow(BlkNumbers(terms, nc))
  {
    hide WellFormed, RowsFrom, Narrow;
    if terms == [] {
      NothingNarrow();
    } else {
      BlkNarrow(terms[1..], nc);
      RowsNarrow(terms[0], nc, 0);
      NarrowBoth(RowsFrom(terms[0], nc, 0), BlkNumbers(terms[1..], nc));
    }
  }

  // ---------------------------------------------------------------------------------------------
  // The round trip
  // ---------------------------------------------------------------------------------------------

  lemma LexiconWritten(f: Files, terms: seq<Term>, nc: nat)
    requires IsFiles(f, terms, nc)
    ensures LexiconIs(f, nc, |terms|, |Rows(terms, nc)|, HeadersOf(terms, nc))
    ensures PlacedAll(HeadersOf(terms, nc), nc) == OpenTerms(terms, nc)
    ensures EndsOf(HeadersOf(terms, nc), nc).postOff == OffsetsAt(terms, nc, |terms|)
  {
    hide WellFormed, Stream, Strings, Rows, PostBytes, LexNumbers, BlkNumbers, OpenTermOf, HeaderOf, HeaderFits,
      HeadersNumbers,
      PlacedAll, EndsOf, OffsetsAt, AllFit, Decodes;
    HeadersOk(terms, nc);
    LexIsHeaders(terms, nc);
    LexNarrow(terms, nc);
    assert f.lex[0..] == f.lex;
    StreamDecodes(f.lex, 0, LexNumbers(terms, nc));
    WrittenPlaced(terms, nc, |terms|);
    var hs := HeadersOf(terms, nc);
    assert terms[..|terms|] == terms && hs[..|terms|] == hs;
    assert OpenTerms(terms, nc)[..|terms|] == OpenTerms(terms, nc);
  }

  lemma BlocksWritten(f: Files, terms: seq<Term>, nc: nat)
    requires IsFiles(f, terms, nc)
    ensures BlocksAre(f, nc, OpenTerms(terms, nc), AllRaws(terms, nc))
    ensures RunningAll(AllRaws(terms, nc), OpenTerms(terms, nc), nc) == Rows(terms, nc)
  {
    hide WellFormed, Stream, Strings, Rows, PostBytes, LexNumbers, BlkNumbers, OpenTermOf, RawsOf, TablesFit,
      TablesNumbers,
      RunningAll, Decodes;
    RawsFit(terms, nc);
    BlkIsTables(terms, nc);
    BlkNarrow(terms, nc);
    assert f.blk[0..] == f.blk;
    StreamDecodes(f.blk, 0, BlkNumbers(terms, nc));
    WrittenRuns(terms, nc, |terms|);
    assert terms[..|terms|] == terms && AllRaws(terms, nc)[..|terms|] == AllRaws(terms, nc);
  }

  /** What was written is what the files mean. */
  lemma WrittenSay(f: Files, terms: seq<Term>, nc: nat)
    requires IsFiles(f, terms, nc)
    ensures FilesSay(f, nc, |terms|, |Rows(terms, nc)|, Tables(OpenTerms(terms, nc), Rows(terms, nc)),
                     HeadersOf(terms, nc), AllRaws(terms, nc))
  {
    hide WellFormed, Stream, Strings, Rows, LexNumbers, BlkNumbers, OpenTermOf, OpenTerms, HeadersOf, AllRaws,
      LexiconIs,
      BlocksAre, PlacedAll, RunningAll, EndsOf, PostBytes;
    LexiconWritten(f, terms, nc);
    BlocksWritten(f, terms, nc);
    assert terms[..|terms|] == terms;
  }

  /** Opening the files of an index gives its tables. */
  method Reopen(f: Files, nc: nat, numTerms: nat, numBlocks: nat, ghost terms: seq<Term>) returns (tb: Tables)
    requires IsFiles(f, terms, nc) && numTerms == |terms| && numBlocks == |Rows(terms, nc)|
    ensures tb == Tables(OpenTerms(terms, nc), Rows(terms, nc))
  {
    hide Rows, OpenTerms, HeadersOf, AllRaws, FilesSay, WellFormed, Stream, Strings, LexNumbers, BlkNumbers, PostBytes;
    WrittenSay(f, terms, nc);
    var res;
    ghost var hs, raws;
    res, hs, raws := Open(f, nc, numTerms, numBlocks);
    tb := res.value;
    FilesSayOnce(f, nc, numTerms, numBlocks, tb, hs, raws, Tables(OpenTerms(terms, nc), Rows(terms, nc)),
                 HeadersOf(terms, nc), AllRaws(terms, nc));
  }

  // ---------------------------------------------------------------------------------------------
  // Views
  // ---------------------------------------------------------------------------------------------

  predicate InFile(f: Files, tb: Tables, i: nat) {
    i < |tb.terms| && tb.terms[i].strOff + tb.terms[i].strLen <= |f.strs|
  }

  /** term_string. */
  function TermString(f: Files, tb: Tables, i: nat): Bytes
    requires InFile(f, tb, i)
  {
    f.strs[tb.terms[i].strOff..tb.terms[i].strOff + tb.terms[i].strLen]
  }

  /** Where the postings of a term end: at the next term's, or at the end of the file. */
  function PostEnd(f: Files, tb: Tables, c: nat, i: nat): nat
    requires c < |f.posts| && i < |tb.terms| && forall k :: 0 <= k < |tb.terms| ==> |tb.terms[k].postOff| == |f.posts|
  {
    if i + 1 < |tb.terms| then tb.terms[i + 1].postOff[c] else |f.posts[c]|
  }

  predicate EntryInFile(f: Files, tb: Tables, c: nat, i: nat) {
    && c < |f.posts| && i < |tb.terms| && (forall k :: 0 <= k < |tb.terms| ==> |tb.terms[k].postOff| == |f.posts|)
    && tb.terms[i].postOff[c] <= PostEnd(f, tb, c, i) <= |f.posts[c]|
    && tb.terms[i].firstBlock + TableSize(tb.terms[i].df) <= |tb.blocks|
    && (forall j :: 0 <= j < |tb.blocks| ==> |tb.blocks[j].off| == |f.posts| && tb.blocks[j].lastDoc <= U32_MAX)
  }

  /** A term's entry, as a cursor sees it. */
  function Entry(f: Files, tb: Tables, c: nat, i: nat): TermInfo
    requires EntryInFile(f, tb, c, i)
  {
    var t := tb.terms[i];
    TermInfo(t.df, f.posts[c][t.postOff[c]..PostEnd(f, tb, c, i)],
             seq(TableSize(t.df), j requires 0 <= j < TableSize(t.df) =>
                   var b := tb.blocks[t.firstBlock + j];
                   BlockInfo(b.lastDoc, b.off[c], b.bound)),
             t.bound)
  }

  /** Opening what was written gives every string and every entry back. */
  lemma ViewsRestored(f: Files, terms: seq<Term>, nc: nat, i: nat, c: nat)
    requires IsFiles(f, terms, nc) && i < |terms| && c < nc
    ensures var tb := Tables(OpenTerms(terms, nc), Rows(terms, nc));
            && InFile(f, tb, i) && TermString(f, tb, i) == terms[i].str && tb.terms[i].cf == terms[i].cf
            && EntryInFile(f, tb, c, i) && Entry(f, tb, c, i) == terms[i].infos[c]
  {
    hide Stream, Strings, Rows, PostBytes, LexNumbers, BlkNumbers, WellFormed, RowOf;
    var tb := Tables(OpenTerms(terms, nc), Rows(terms, nc));
    StringsSplit(terms, i);
    RowsSplit(terms, nc, i);
    PostsSplit(terms, nc, c, i);
    RowsSized(terms, nc);
    assert PostEnd(f, tb, c, i) == |PostBytes(terms[..i + 1], nc, c)| by {
      if i + 1 == |terms| {
        assert terms[..i + 1] == terms;
      }
    }
    Middle(Strings(terms[..i]), terms[i].str, Strings(terms[i + 1..]));
    Middle(PostBytes(terms[..i], nc, c), terms[i].infos[c].bytes, PostBytes(terms[i + 1..], nc, c));
    EntryRestored(f, terms, nc, i, c);
  }

  lemma Middle(a: seq<byte>, b: seq<byte>, c: seq<byte>)
    ensures (a + b + c)[|a|..|a| + |b|] == b
  {
  }

  lemma {:induction false} RowsSized(terms: seq<Term>, nc: nat)
    requires AllWellFormed(terms, nc)
    ensures forall j :: 0 <= j < |Rows(terms, nc)| ==>
              |Rows(terms, nc)[j].off| == nc && Rows(terms, nc)[j].lastDoc <= U32_MAX
  {
    hide WellFormed;
    if terms != [] {
      RowsSized(terms[1..], nc);
    }
  }

  lemma EntryRestored(f: Files, terms: seq<Term>, nc: nat, i: nat, c: nat)
    requires IsFiles(f, terms, nc) && i < |terms| && c < nc
    requires EntryInFile(f, Tables(OpenTerms(terms, nc), Rows(terms, nc)), c, i)
    requires Entry(f, Tables(OpenTerms(terms, nc), Rows(terms, nc)), c, i).bytes == terms[i].infos[c].bytes
    ensures Entry(f, Tables(OpenTerms(terms, nc), Rows(terms, nc)), c, i) == terms[i].infos[c]
  {
    hide Stream, Strings, Rows, PostBytes, LexNumbers, BlkNumbers, RowOf, WellFormed;
    RowsSplit(terms, nc, i);
    var t, e := terms[i], Entry(f, Tables(OpenTerms(terms, nc), Rows(terms, nc)), c, i);
    AgreesAt(t, nc, c);
    forall j | 0 <= j < TableSize(e.df) ensures e.blocks[j] == t.infos[c].blocks[j] {
      assert Rows(terms, nc)[|Rows(terms[..i], nc)| + j] == RowsOf(t, nc)[j];
      RowIs(t, nc, j, c);
    }
    assert e.blocks == t.infos[c].blocks;
  }

  lemma AgreesAt(t: Term, nc: nat, c: nat)
    requires WellFormed(t, nc) && c < nc
    ensures Agrees(t.infos[c], t.infos[0])
  {
  }

  lemma RowIs(t: Term, nc: nat, j: nat, c: nat)
    requires HasRow(t, nc, j) && c < nc
    ensures |RowOf(t, nc, j).off| == nc && j < |t.infos[c].blocks|
    ensures BlockInfo(RowOf(t, nc, j).lastDoc, RowOf(t, nc, j).off[c], RowOf(t, nc, j).bound) == t.infos[c].blocks[j]
  {
    RowOk(t, nc, j);
    AgreesAt(t, nc, c);
  }
}
