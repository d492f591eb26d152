/** The spilled runs of engine/src/lexical/index_builder.cc: flush_run's counting sort and the reading side of
    the merge loop. */
module Runs {
  import opened Bits
  import opened Varint
  import opened Codec

  /** One entry of the run buffers: a term's frequency in a document. */
  datatype Entry = Entry(term: nat, doc: u32, tf: u32)
  datatype Posting = Posting(doc: u32, tf: u32)

  /** `offsets[t]` is where the postings of term `t` begin. */
  datatype Run = Run(vocab: nat, offsets: seq<nat>, bytes: seq<byte>)

  /** A term's postings, in the order they were added. */
  function Of(entries: seq<Entry>, t: nat): (ps: seq<Posting>)
    ensures |ps| <= |entries|
  {
    if entries == [] then []
    else
      var n := |entries| - 1;
      Of(entries[..n], t) + if entries[n].term == t then [Posting(entries[n].doc, entries[n].tf)] else []
  }

  lemma {:induction false} OfConcat(a: seq<Entry>, b: seq<Entry>, t: nat)
    ensures Of(a + b, t) == Of(a, t) + Of(b, t)
    decreases |b|
  {
    if b == [] {
      assert a + b == a;
    } else {
      var n := |b| - 1;
      assert (a + b)[..|a + b| - 1] == a + b[..n];
      OfConcat(a, b[..n], t);
    }
  }

  lemma OfNext(entries: seq<Entry>, i: nat, t: nat)
    requires i < |entries|
    ensures Of(entries[..i + 1], t) == Of(entries[..i], t)
         + if entries[i].term == t then [Posting(entries[i].doc, entries[i].tf)] else []
  {
    assert entries[..i + 1][..i] == entries[..i];
  }

  /** How many entries are of terms before `t`. */
  function Below(entries: seq<Entry>, t: nat): (n: nat)
    ensures n <= |entries|
  {
    if entries == [] then 0
    else
      var n := |entries| - 1;
      Below(entries[..n], t) + if entries[n].term < t then 1 else 0
  }

  lemma {:induction false} BelowStep(entries: seq<Entry>, t: nat)
    ensures Below(entries, t + 1) == Below(entries, t) + |Of(entries, t)|
  {
    if entries != [] {
      BelowStep(entries[..|entries| - 1], t);
    }
  }

  lemma {:induction false} BelowEnds(entries: seq<Entry>, v: nat)
    requires forall i :: 0 <= i < |entries| ==> entries[i].term < v
    ensures Below(entries, 0) == 0 && Below(entries, v) == |entries|
  {
    if entries != [] {
      BelowEnds(entries[..|entries| - 1], v);
    }
  }

  lemma {:induction false} BelowMonotone(entries: seq<Entry>, a: nat, b: nat)
    requires a < b
    ensures Below(entries, a) + |Of(entries, a)| <= Below(entries, b)
    decreases b
  {
    BelowStep(entries, a);
    if a < b - 1 {
      BelowMonotone(entries, a, b - 1);
      BelowStep(entries, b - 1);
    }
  }

  lemma {:induction false} OfGrows(entries: seq<Entry>, i: nat, t: nat)
    requires i <= |entries|
    ensures Of(entries[..i], t) <= Of(entries, t)
    decreases |entries| - i
  {
    if i < |entries| {
      OfGrows(entries, i + 1, t);
      OfNext(entries, i, t);
    } else {
      assert entries[..i] == entries;
    }
  }

  ghost predicate InVocab(entries: seq<Entry>, v: nat) {
    forall i :: 0 <= i < |entries| ==> entries[i].term < v
  }

  /** start[t + 1] holds how often term `t` occurs among the first `i` entries. */
  ghost predicate Counted(start: seq<nat>, entries: seq<Entry>, v: nat, i: nat) {
    |start| == v + 1 && start[0] == 0 && i <= |entries|
    && forall t :: 0 <= t < v ==> start[t + 1] == |Of(entries[..i], t)|
  }

  /** Where each term's postings begin once the entries are sorted by term. */
  method Starts(entries: seq<Entry>, v: nat) returns (start: array<nat>)
    requires InVocab(entries, v)
    ensures fresh(start) && start.Length == v + 1 && forall t :: 0 <= t <= v ==> start[t] == Below(entries, t)
  {
    start := new nat[v + 1](_ => 0);
    for i := 0 to |entries|
      invariant Counted(start[..], entries, v, i)
    {
      var t := entries[i].term;
      ghost var before := start[..];
      start[t + 1] := start[t + 1] + 1;
      CountOne(before, start[..], entries, v, i);
    }
    assert entries[..|entries|] == entries;
    ghost var counts := start[..];
    BelowEnds(entries, v);
    for t := 0 to v
      invariant forall u :: 0 <= u <= t ==> start[u] == Below(entries, u)
      invariant forall u :: t < u <= v ==> start[u] == counts[u]
    {
      BelowStep(entries, t);
      assert counts[t + 1] == |Of(entries, t)|;
      start[t + 1] := start[t + 1] + start[t];
    }
  }

  lemma CountOne(before: seq<nat>, after: seq<nat>, entries: seq<Entry>, v: nat, i: nat)
    requires Counted(before, entries, v, i) && i < |entries| && entries[i].term < v
    requires after == before[entries[i].term + 1 := before[entries[i].term + 1] + 1]
    ensures Counted(after, entries, v, i + 1)
  {
    hide Of;
    forall u | 0 < u <= v ensures after[u] == |Of(entries[..i + 1], u - 1)| {
      OfNext(entries, i, u - 1);
    }
  }

  /** The first `i` entries are in their places. */
  ghost predicate Placed(s: seq<Posting>, pos: seq<nat>, entries: seq<Entry>, v: nat, i: nat) {
    && |s| == |entries| && |pos| == v && i <= |entries|
    && (forall t :: 0 <= t < v ==> pos[t] == Below(entries, t) + |Of(entries[..i], t)|)
    && (forall t :: 0 <= t < v ==> TermPlaced(s, entries, i, t))
  }

  ghost predicate TermPlaced(s: seq<Posting>, entries: seq<Entry>, i: nat, t: nat)
    requires i <= |entries|
  {
    var ps := Of(entries[..i], t);
    Below(entries, t) + |ps| <= |s| && s[Below(entries, t)..Below(entries, t) + |ps|] == ps
  }

  /** The second pass of the counting sort: each term's postings together, in the order they were added. */
  method Place(entries: seq<Entry>, v: nat, start: array<nat>) returns (s: array<Posting>)
    requires InVocab(entries, v)
    requires start.Length == v + 1 && forall t :: 0 <= t <= v ==> start[t] == Below(entries, t)
    ensures s.Length == |entries|
    ensures forall t :: 0 <= t < v ==> TermPlaced(s[..], entries, |entries|, t)
  {
    s := new Posting[|entries|](_ => Posting(0, 0));
    var pos := new nat[v];
    for t := 0 to v
      invariant forall u :: 0 <= u < t ==> pos[u] == start[u]
    {
      pos[t] := start[t];
    }
    StartPlaces(s[..], pos[..], entries, v);
    hide Placed, TermPlaced, Of, Below;
    for i := 0 to |entries|
      invariant Placed(s[..], pos[..], entries, v, i)
    {
      PlaceEntry(entries, v, i, s, pos);
    }
    PlacesFilled(s[..], pos[..], entries, v);
  }

  /** Put one entry in its term's next place. */
  method PlaceEntry(entries: seq<Entry>, v: nat, i: nat, s: array<Posting>, pos: array<nat>)
    requires InVocab(entries, v) && i < |entries| && Placed(s[..], pos[..], entries, v, i)
    modifies s, pos
    ensures Placed(s[..], pos[..], entries, v, i + 1)
  {
    hide TermPlaced, Of, Below;
    var t := entries[i].term;
    ghost var before, was := s[..], pos[..];
    PlaceInRange(before, was, entries, v, i);
    var p := pos[t];
    s[p] := Posting(entries[i].doc, entries[i].tf);
    pos[t] := p + 1;
    assert s[..] == before[p := Posting(entries[i].doc, entries[i].tf)] && pos[..] == was[t := p + 1];
    PlaceOne(before, s[..], was, pos[..], entries, v, i);
  }

  lemma PlacesFilled(s: seq<Posting>, pos: seq<nat>, entries: seq<Entry>, v: nat)
    requires Placed(s, pos, entries, v, |entries|)
    ensures forall t :: 0 <= t < v ==> TermPlaced(s, entries, |entries|, t)
  {
  }

  lemma StartPlaces(s: seq<Posting>, pos: seq<nat>, entries: seq<Entry>, v: nat)
    requires |s| == |entries| && |pos| == v && forall t :: 0 <= t < v ==> pos[t] == Below(entries, t)
    ensures Placed(s, pos, entries, v, 0)
  {
    assert entries[..0] == [];
  }

  lemma PlaceInRange(s: seq<Posting>, pos: seq<nat>, entries: seq<Entry>, v: nat, i: nat)
    requires Placed(s, pos, entries, v, i) && InVocab(entries, v) && i < |entries|
    ensures pos[entries[i].term] < |s|
    ensures pos[entries[i].term] < Below(entries, entries[i].term) + |Of(entries, entries[i].term)|
  {
    var t := entries[i].term;
    OfNext(entries, i, t);
    OfGrows(entries, i + 1, t);
    BelowStep(entries, t);
  }

  lemma PlaceOne(s: seq<Posting>, s': seq<Posting>, pos: seq<nat>, pos': seq<nat>, entries: seq<Entry>, v: nat, i: nat)
    requires Placed(s, pos, entries, v, i) && InVocab(entries, v) && i < |entries|
    requires var t := entries[i].term;
             pos[t] < |s| && s' == s[pos[t] := Posting(entries[i].doc, entries[i].tf)] && pos' == pos[t := pos[t] + 1]
    ensures Placed(s', pos', entries, v, i + 1)
  {
    hide Of, Below;
    var x := entries[i].term;
    PlaceInRange(s, pos, entries, v, i);
    forall t | 0 <= t < v
      ensures pos'[t] == Below(entries, t) + |Of(entries[..i + 1], t)| && TermPlaced(s', entries, i + 1, t) {
      OfNext(entries, i, t);
      assert TermPlaced(s, entries, i, t);
      Elsewhere(entries, i, t, x);
      var lo, ps := Below(entries, t), Of(entries[..i], t);
      if t != x {
        assert s'[lo..lo + |ps|] == s[lo..lo + |ps|];
      } else {
        assert s'[lo..lo + |ps| + 1] == s[lo..lo + |ps|] + [s'[lo + |ps|]];
      }
    }
  }

  /** The places of different terms do not meet. */
  lemma Elsewhere(entries: seq<Entry>, i: nat, t: nat, x: nat)
    requires i < |entries|
    ensures t < x ==> Below(entries, t) + |Of(entries[..i], t)| <= Below(entries, x)
    ensures t > x ==> Below(entries, x) + |Of(entries, x)| <= Below(entries, t)
  {
    OfGrows(entries, i, t);
    if t < x {
      BelowMonotone(entries, t, x);
    } else if t > x {
      BelowMonotone(entries, x, t);
    }
  }

  // ---------------------------------------------------------------------------------------------
  // Bytes
  // ---------------------------------------------------------------------------------------------

  /** A term's postings in a run: gaps less one and frequencies, as varints. */
  function RunBytes(ps: seq<Posting>, prev: u32): seq<byte> {
    if ps == [] then []
    else VByte(GapOf(ps[0].doc, prev)) + VByte(ps[0].tf) + RunBytes(ps[1..], ps[0].doc)
  }

  function LastOf(ps: seq<Posting>, prev: u32): u32 {
    if ps == [] then prev else ps[|ps| - 1].doc
  }

  lemma {:induction false} RunBytesSnoc(ps: seq<Posting>, prev: u32, p: Posting)
    ensures RunBytes(ps + [p], prev) == RunBytes(ps, prev) + VByte(GapOf(p.doc, LastOf(ps, prev))) + VByte(p.tf)
  {
    if ps == [] {
      assert ps + [p] == [p] && [p][1..] == [];
    } else {
      assert (ps + [p])[1..] == ps[1..] + [p];
      RunBytesSnoc(ps[1..], ps[0].doc, p);
    }
  }

  /** A run holds every term's postings among `entries`. */
  ghost predicate Holds(run: Run, entries: seq<Entry>) {
    && InVocab(entries, run.vocab) && |run.offsets| == run.vocab + 1
    && (forall t :: 0 <= t < run.vocab ==> TermHeld(run, entries, t))
  }

  ghost predicate TermHeld(run: Run, entries: seq<Entry>, t: nat)
    requires t < run.vocab && |run.offsets| == run.vocab + 1
  {
    run.offsets[t] <= run.offsets[t + 1] <= |run.bytes|
    && run.bytes[run.offsets[t]..run.offsets[t + 1]] == RunBytes(Of(entries, t), U32_MAX)
  }

  /** flush_run: sort the buffer by term and write it. */
  method FlushRun(entries: seq<Entry>, vocab: nat) returns (run: Run)
    requires InVocab(entries, vocab)
    ensures run.vocab == vocab && Holds(run, entries)
  {
    var start := Starts(entries, vocab);
    var s := Place(entries, vocab, start);
    var sorted, starts := s[..], start[..];
    var bytes: seq<byte>, offsets: seq<nat> := [], [];
    for t := 0 to vocab
      invariant |offsets| == t
      invariant Written(Run(t, offsets + [|bytes|], bytes), entries)
    {
      ghost var before := bytes;
      BelowStep(entries, t);
      assert entries[..|entries|] == entries && TermPlaced(sorted, entries, |entries|, t);
      offsets := offsets + [|bytes|];
      bytes := WriteTerm(sorted[starts[t]..starts[t + 1]], bytes);
      WrittenNext(entries, t, offsets, before, bytes);
    }
    run := Run(vocab, offsets + [|bytes|], bytes);
  }

  ghost predicate Written(run: Run, entries: seq<Entry>) {
    |run.offsets| == run.vocab + 1 && run.offsets[run.vocab] == |run.bytes|
    && forall t :: 0 <= t < run.vocab ==> TermHeld(run, entries, t)
  }

  lemma WrittenNext(entries: seq<Entry>, t: nat, offsets: seq<nat>, before: seq<byte>, after: seq<byte>)
    requires |offsets| == t + 1 && offsets[t] == |before| && Written(Run(t, offsets, before), entries)
    requires after == before + RunBytes(Of(entries, t), U32_MAX)
    ensures Written(Run(t + 1, offsets + [|after|], after), entries)
  {
    var run, next := Run(t, offsets, before), Run(t + 1, offsets + [|after|], after);
    forall u | 0 <= u < t + 1 ensures TermHeld(next, entries, u) {
      if u < t {
        assert TermHeld(run, entries, u);
        assert after[offsets[u]..offsets[u + 1]] == before[offsets[u]..offsets[u + 1]];
      }
    }
  }

  method WriteTerm(ps: seq<Posting>, out: seq<byte>) returns (bytes: seq<byte>)
    ensures bytes == out + RunBytes(ps, U32_MAX)
  {
    bytes := out;
    var prev := U32_MAX;
    for i := 0 to |ps|
      invariant bytes == out + RunBytes(ps[..i], U32_MAX) && prev == LastOf(ps[..i], U32_MAX)
    {
      assert ps[..i + 1] == ps[..i] + [ps[i]];
      RunBytesSnoc(ps[..i], U32_MAX, ps[i]);
      bytes := PutVarint(GapOf(ps[i].doc, prev), bytes);
      bytes := PutVarint(ps[i].tf, bytes);
      prev := ps[i].doc;
    }
    assert ps[..|ps|] == ps;
  }

  // ---------------------------------------------------------------------------------------------
  // Reading back
  // ---------------------------------------------------------------------------------------------

  lemma NextInvertsGap(doc: u32, prev: u32)
    ensures NextDoc(prev, GapOf(doc, prev)) == doc
  {
  }

  /** What the reader sees when `ps` is still to come. */
  lemma ReadOne(bytes: seq<byte>, p: nat, end: nat, ps: seq<Posting>, prev: u32)
    requires end <= |bytes| && p <= end && ps != [] && bytes[p..end] == RunBytes(ps, prev)
    ensures p < end
    ensures var g := VByte(GapOf(ps[0].doc, prev));
            && NextFrom(bytes, p, end, 0, 0) == Ok(Read(GapOf(ps[0].doc, prev), p + |g|))
            && NextFrom(bytes, p + |g|, end, 0, 0) == Ok(Read(ps[0].tf, p + |g| + |VByte(ps[0].tf)|))
            && p + |g| + |VByte(ps[0].tf)| <= end
            && bytes[p + |g| + |VByte(ps[0].tf)|..end] == RunBytes(ps[1..], ps[0].doc)
  {
    hide NextFrom, VByte;
    var gap, tf := GapOf(ps[0].doc, prev), ps[0].tf;
    var g, f, rest := VByte(gap), VByte(tf), RunBytes(ps[1..], ps[0].doc);
    SplitThree(bytes, p, end, g, f, rest);
    assert Pow2(0) == 1;
    NextInvertsPut(bytes, p, end, gap, 0, 0);
    NextInvertsPut(bytes, p + |g|, end, tf, 0, 0);
  }

  lemma SplitThree(bytes: seq<byte>, p: nat, end: nat, a: seq<byte>, b: seq<byte>, c: seq<byte>)
    requires p <= end <= |bytes| && bytes[p..end] == a + b + c
    ensures p + |a| + |b| <= end && BytesAt(bytes, p, a) && BytesAt(bytes, p + |a|, b)
    ensures bytes[p + |a| + |b|..end] == c
  {
    var w := bytes[p..end];
    assert w[..|a|] == a && w[|a|..|a| + |b|] == b && w[|a| + |b|..] == c;
    SliceOfSlice(bytes, p, end, 0, |a|);
    SliceOfSlice(bytes, p, end, |a|, |a| + |b|);
    SliceOfSlice(bytes, p, end, |a| + |b|, |w|);
  }

  lemma SliceOfSlice(bytes: seq<byte>, p: nat, end: nat, i: nat, j: nat)
    requires p <= end <= |bytes| && i <= j <= end - p
    ensures bytes[p..end][i..j] == bytes[p + i..p + j]
  {
    var w := bytes[p..end];
    forall k | 0 <= k < j - i ensures w[i..j][k] == bytes[p + i..p + j][k] {
      assert w[i..j][k] == w[i + k] == bytes[p + (i + k)];
      assert bytes[p + i..p + j][k] == bytes[(p + i) + k];
    }
    assert |w[i..j]| == |bytes[p + i..p + j]|;
  }

  lemma NothingLeft(bytes: seq<byte>, p: nat, end: nat, prev: u32, ps: seq<Posting>)
    requires p <= end <= |bytes| && bytes[p..end] == RunBytes(ps, prev)
    ensures p == end <==> ps == []
  {
    if ps != [] {
      ReadOne(bytes, p, end, ps, prev);
    }
  }

  /** Append a term's postings in one run. */
  method ReadTerm(run: Run, t: nat, docs0: seq<u32>, tfs0: seq<u32>, ghost entries: seq<Entry>)
    returns (docs: seq<u32>, tfs: seq<u32>)
    requires Holds(run, entries) && t < run.vocab && |docs0| == |tfs0|
    ensures docs == docs0 + DocsOf(Of(entries, t)) && tfs == tfs0 + TfsOf(Of(entries, t))
  {
    hide RunBytes, NextFrom, Of, VByte;
    assert TermHeld(run, entries, t);
    docs, tfs := docs0, tfs0;
    var vr := new VarintReader(run.bytes, run.offsets[t], run.offsets[t + 1]);
    var prev := U32_MAX;
    ghost var ps, i := Of(entries, t), 0;
    NothingLeft(run.bytes, vr.p, vr.end, prev, ps);
    assert ps[0..] == ps && ps[..0] == [];
    while vr.p < vr.end
      invariant fresh(vr) && vr.p <= vr.end && vr.end <= |vr.bytes| && vr.bytes == run.bytes && i <= |ps|
      invariant vr.bytes[vr.p..vr.end] == RunBytes(ps[i..], prev)
      invariant vr.p == vr.end <==> i == |ps|
      invariant docs == docs0 + DocsOf(ps[..i]) && tfs == tfs0 + TfsOf(ps[..i])
      decreases |ps| - i
    {
      ReadOne(vr.bytes, vr.p, vr.end, ps[i..], prev);
      NextInvertsGap(ps[i].doc, prev);
      var gap := vr.Next32();
      prev := NextDoc(prev, gap.value);
      docs := docs + [prev];
      var tf := vr.Next32();
      tfs := tfs + [tf.value];
      assert ps[i..][1..] == ps[i + 1..] && ps[..i + 1] == ps[..i] + [ps[i]];
      i := i + 1;
      NothingLeft(vr.bytes, vr.p, vr.end, prev, ps[i..]);
    }
    assert ps[..i] == ps;
  }

  function DocsOf(ps: seq<Posting>): (d: seq<u32>)
    ensures |d| == |ps|
  {
    seq(|ps|, i requires 0 <= i < |ps| => ps[i].doc)
  }

  function TfsOf(ps: seq<Posting>): (f: seq<u32>)
    ensures |f| == |ps|
  {
    seq(|ps|, i requires 0 <= i < |ps| => ps[i].tf)
  }

  /** All the entries of a list of buffers. */
  function Flat(parts: seq<seq<Entry>>): seq<Entry> {
    if parts == [] then [] else Flat(parts[..|parts| - 1]) + parts[|parts| - 1]
  }

  ghost predicate AllHold(runs: seq<Run>, parts: seq<seq<Entry>>) {
    |runs| == |parts| && forall r :: 0 <= r < |runs| ==> Holds(runs[r], parts[r])
  }

  lemma {:induction false} NotInVocab(entries: seq<Entry>, v: nat, t: nat)
    requires InVocab(entries, v) && t >= v
    ensures Of(entries, t) == []
  {
    if entries != [] {
      NotInVocab(entries[..|entries| - 1], v, t);
    }
  }

  /** The merge of one term over all runs: exactly its postings among everything that was spilled,
      wherever the spills fell. */
  method MergeTerm(runs: seq<Run>, t: nat, ghost parts: seq<seq<Entry>>) returns (docs: seq<u32>, tfs: seq<u32>)
    requires AllHold(runs, parts)
    ensures docs == DocsOf(Of(Flat(parts), t)) && tfs == TfsOf(Of(Flat(parts), t))
  {
    hide Of, Holds;
    docs, tfs := [], [];
    NothingYet(t);
    for r := 0 to |runs|
      invariant docs == DocsOf(Of(Flat(parts[..r]), t)) && tfs == TfsOf(Of(Flat(parts[..r]), t))
    {
      assert Holds(runs[r], parts[r]);
      assert parts[..r + 1][..r] == parts[..r];
      OfConcat(Flat(parts[..r]), parts[r], t);
      if t < runs[r].vocab {
        docs, tfs := ReadTerm(runs[r], t, docs, tfs, parts[r]);
      } else {
        HoldsVocab(runs[r], parts[r]);
        NotInVocab(parts[r], runs[r].vocab, t);
      }
    }
    assert parts[..|runs|] == parts;
  }

  lemma NothingYet(t: nat)
    ensures Of(Flat([]), t) == []
  {
  }

  lemma HoldsVocab(run: Run, entries: seq<Entry>)
    requires Holds(run, entries)
    ensures InVocab(entries, run.vocab)
  {
  }
}
