/** run_daat of engine/src/lexical/search.cc. */
module DocAtATime {
  import opened Bits
  import opened Codec
  import opened Postings
  import opened Cursors
  import opened Rounding
  import opened Ranking
  import opened BoundedHeap
  import opened Scoring
  import opened CursorSets

  /** Add term `i`'s contribution if its cursor is on `d`, and move the cursor on. */
  method ScoreTerm(m: Arithmetic, c: CodecKind, q: Query, ghost ls: seq<PostingList>, cur: Cursor, i: nat,
                   d: u32, ghost f: nat, s0: real) returns (s: real)
    requires StoredQuery(c, q, ls) && i < |ls| && Tracks(cur, q.terms[i].info, ls[i])
    requires f <= d < END && cur.Behind(f) && cur.doc >= d
    requires s0 == Fold(m, Parts(q, ls, d), Hits(ls, d), i)
    modifies cur
    ensures Tracks(cur, q.terms[i].info, ls[i]) && Passed(cur, d, old(Left(cur)), old(cur.doc) == d)
    ensures s == Fold(m, Parts(q, ls, d), Hits(ls, d), i + 1)
  {
    hide Bounded, Stores, BoundOfBlock, ValidList, Cursor.Loaded, BlockDocs;
    CursorHit(cur, f, d);
    PartIs(c, q, ls, d, i);
    if cur.Doc() == d {
      s := m.rd(s0 + q.sc.contrib(q.terms[i].weight, d, cur.Tf()));
      cur.Next();
    } else {
      s := s0;
    }
  }

  /** Score document `d`, the least any cursor is on, and move the cursors on it past it. */
  method ScoreDoc(m: Arithmetic, c: CodecKind, q: Query, ghost ls: seq<PostingList>, cur: seq<Cursor>,
                  d: u32, ghost f: nat) returns (s: real)
    requires StoredQuery(c, q, ls) && Ready(cur, c, q, ls)
    requires f <= d < END && AllBehind(cur, f) && AllFrom(cur, d)
    requires exists t :: 0 <= t < |cur| && cur[t].doc == d
    modifies cur
    ensures Ready(cur, c, q, ls) && AllBehind(cur, d + 1)
    ensures AllFrom(cur, d + 1)
    ensures s == Fold(m, Parts(q, ls, d), Hits(ls, d), |ls|) && m.rf(s) == Score(m, c, q, ls, d)
    ensures Sum(AllLeft(cur)) < Sum(old(AllLeft(cur)))
  {
    hide *;
    ghost var hit: nat :| hit < |cur| && cur[hit].doc == d;
    ghost var lefts := AllLeft(cur);
    s := 0.0;
    ScoreStart(m, c, q, ls, cur, d, f, lefts, hit);
    for i := 0 to |cur|
      invariant Ready(cur, c, q, ls) && Scanned(cur, i, d, f, lefts, hit)
      invariant s == Fold(m, Parts(q, ls, d), Hits(ls, d), i)
    {
      s := ScoreNext(m, c, q, ls, cur, i, d, f, s, lefts, hit);
    }
    AllPassed(cur, d, f, lefts, hit);
    ScoreIs(m, c, q, ls, d);
  }

  lemma ScoreIs(m: Arithmetic, c: CodecKind, q: Query, ls: seq<PostingList>, d: nat)
    requires StoredQuery(c, q, ls)
    ensures m.rf(Fold(m, Parts(q, ls, d), Hits(ls, d), |ls|)) == Score(m, c, q, ls, d)
  {
  }

  /** The cursors when the first `i` terms have been scored. */
  ghost predicate Scanned(cur: seq<Cursor>, i: nat, d: nat, f: nat, lefts: seq<nat>, hit: nat)
    reads cur
    requires |lefts| == |cur| && hit < |cur|
  {
    && (forall t :: 0 <= t < i && t < |cur| ==> Passed(cur[t], d, lefts[t], t == hit))
    && (forall t :: i <= t < |cur| ==> Waiting(cur[t], d, f, lefts[t]))
    && (i <= hit ==> cur[hit].doc == d)
  }

  ghost predicate Waiting(cur: Cursor, d: nat, f: nat, left: nat)
    reads cur
  {
    cur.Valid() && cur.Behind(f) && cur.doc >= d && Left(cur) == left
  }

  lemma ScoreStart(m: Arithmetic, c: CodecKind, q: Query, ls: seq<PostingList>, cur: seq<Cursor>, d: nat, f: nat,
                   lefts: seq<nat>, hit: nat)
    requires StoredQuery(c, q, ls) && lefts == AllLeft(cur) && hit < |cur| && cur[hit].doc == d
    requires AllBehind(cur, f) && AllFrom(cur, d)
    ensures Scanned(cur, 0, d, f, lefts, hit) && Fold(m, Parts(q, ls, d), Hits(ls, d), 0) == 0.0
  {
  }

  method ScoreNext(m: Arithmetic, c: CodecKind, q: Query, ghost ls: seq<PostingList>, cur: seq<Cursor>, i: nat,
                   d: u32, ghost f: nat, s0: real, ghost lefts: seq<nat>, ghost hit: nat) returns (s: real)
    requires StoredQuery(c, q, ls) && Ready(cur, c, q, ls) && i < |cur| == |lefts| && hit < |cur|
    requires f <= d < END && Scanned(cur, i, d, f, lefts, hit)
    requires s0 == Fold(m, Parts(q, ls, d), Hits(ls, d), i)
    modifies cur
    ensures Ready(cur, c, q, ls) && Scanned(cur, i + 1, d, f, lefts, hit)
    ensures s == Fold(m, Parts(q, ls, d), Hits(ls, d), i + 1)
  {
    hide StoredQuery, Fold, Parts, Left, Cursor.Valid, Cursor.At, Cursor.Behind, Hits;
    s := ScoreTerm(m, c, q, ls, cur[i], i, d, f, s0);
  }

  lemma AllPassed(cur: seq<Cursor>, d: nat, f: nat, lefts: seq<nat>, hit: nat)
    requires |lefts| == |cur| && hit < |cur| && Scanned(cur, |cur|, d, f, lefts, hit)
    ensures AllBehind(cur, d + 1) && AllFrom(cur, d + 1) && Sum(AllLeft(cur)) < Sum(lefts)
  {
    SumFalls(AllLeft(cur), lefts, hit);
  }

  ghost predicate Passed(cur: Cursor, d: nat, left: nat, moved: bool)
    reads cur
  {
    cur.Valid() && cur.Behind(d + 1) && cur.doc > d && Left(cur) <= left && (moved ==> Left(cur) < left)
  }

  method LeastDoc(cur: seq<Cursor>, ghost f: nat) returns (d: u32)
    requires AllFrom(cur, f) && f <= END
    ensures AllFrom(cur, d) && f <= d <= END
    ensures d < END ==> exists t :: 0 <= t < |cur| && cur[t].doc == d
  {
    d := END;
    for i := 0 to |cur|
      invariant f <= d
      invariant forall t :: 0 <= t < i ==> cur[t].doc >= d
      invariant d < END ==> exists t :: 0 <= t < i && cur[t].doc == d
    {
      if cur[i].Doc() < d {
        d := cur[i].Doc();
      }
    }
  }

  /** run_daat: every matching document is scored, in document order. */
  method RunDaat(m: Arithmetic, c: CodecKind, q: Query, ghost ls: seq<PostingList>, top: TopK)
    requires StoredQuery(c, q, ls) && top.Valid() && top.heap == []
    modifies top
    ensures top.Valid() && IsAnswer(top.heap, m, c, q, ls, top.k)
  {
    hide *;
    var cur := InitCursors(c, q, ls);
    ghost var f: nat := 0;
    EmptySettled(top.k, m, c, q, ls);
    while true
      invariant top.Valid() && fresh(cur) && Ready(cur, c, q, ls)
      invariant f <= END && AllBehind(cur, f) && AllFrom(cur, f)
      invariant Settled(top.heap, top.k, m, c, q, ls, f, f)
      decreases Sum(AllLeft(cur))
    {
      var d := LeastDoc(cur, f);
      NothingBetween(cur, c, q, ls, f, d);
      SettleGap(top.heap, top.k, m, c, q, ls, f, d);
      if d == END {
        SettledIsAnswer(top.heap, top.k, m, c, q, ls, d);
        return;
      }
      ghost var t: nat :| t < |cur| && cur[t].doc == d;
      OnDocMatches(cur, c, q, ls, t, d);
      var s := ScoreDoc(m, c, q, ls, cur, d, f);
      SettlePush(top.heap, top.k, m, c, q, ls, d, d);
      var _ := top.Push(d, m.rf(s));
      f := d + 1;
    }
  }
}
