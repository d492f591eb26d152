/** The cursors of one query, a cursor a term. */
module CursorSets {
  import opened Bits
  import opened Codec
  import opened Postings
  import opened Cursors
  import opened Rounding
  import opened Ranking
  import opened Scoring

  ghost predicate Ready(store: seq<Cursor>, c: CodecKind, q: Query, ls: seq<PostingList>)
    reads store
    ensures Ready(store, c, q, ls) ==> |store| == |ls| == |q.terms|
  {
    && |store| == |ls| == |q.terms|
    && (forall i, j :: 0 <= i < j < |store| ==> store[i] != store[j])
    && (forall t :: 0 <= t < |store| ==> Tracks(store[t], q.terms[t].info, ls[t]))
  }

  ghost predicate Tracks(cur: Cursor, info: TermInfo, l: PostingList)
    reads cur
  {
    cur.Valid() && cur.t == info && cur.l == l
  }

  /** No cursor has passed a document at or after `f`. */
  ghost predicate AllBehind(store: seq<Cursor>, f: nat)
    reads store
  {
    forall t :: 0 <= t < |store| ==> store[t].Valid() && store[t].Behind(f)
  }

  ghost predicate AllFrom(store: seq<Cursor>, d: nat)
    reads store
  {
    forall t :: 0 <= t < |store| ==> store[t].doc >= d
  }

  lemma BehindLater(cur: Cursor, f: nat, f': nat)
    requires cur.Valid() && cur.Behind(f) && f <= f'
    ensures cur.Behind(f')
  {
  }

  /** Whether a cursor is on a document tells whether its term matches the document. */
  lemma CursorHit(cur: Cursor, f: nat, d: nat)
    requires cur.Valid() && cur.Behind(f) && f <= d < END && cur.doc >= d
    ensures cur.doc == d <==> d in cur.l.docs
  {
    if d in cur.l.docs {
      var i := IndexOf(cur.l.docs, d);
      var a := cur.At();
      assert a <= i && cur.l.docs[a] <= cur.l.docs[i];
    }
  }

  /** A posting at or after the frontier is in no block before the block pointer. */
  lemma NotSkipped(cur: Cursor, f: nat, i: nat)
    requires cur.Valid() && cur.Behind(f) && i < |cur.l.docs| && f <= cur.l.docs[i]
    ensures cur.blk <= i / BLOCK_SIZE
  {
    var b := i / BLOCK_SIZE;
    BlockBounds(|cur.l.docs|, b);
    assert i <= BlockHigh(|cur.l.docs|, b) - 1;
    assert cur.l.docs[i] <= LastDoc(cur.l, b);
    if b < cur.blk {
      PassedBlock(cur, f, b);
    }
  }

  /** A block before the block pointer ends below the frontier. */
  lemma PassedBlock(cur: Cursor, f: nat, b: nat)
    requires cur.Valid() && cur.Behind(f) && b < cur.blk
    ensures LastDoc(cur.l, b) < f
  {
    BlockBounds(|cur.l.docs|, b);
    assert cur.Skipped(b);
    var last := BlockHigh(|cur.l.docs|, b) - 1;
    assert LastDoc(cur.l, b) == cur.l.docs[last];
  }

  /** Nothing matches between the frontier and the cursors. */
  lemma NothingBetween(store: seq<Cursor>, c: CodecKind, q: Query, ls: seq<PostingList>, f: nat, d: nat)
    requires Ready(store, c, q, ls) && AllBehind(store, f) && AllFrom(store, d)
    ensures forall e :: f <= e < d && e < END ==> e !in DocsOf(ls, |ls|)
  {
    forall e | f <= e < d && e < END ensures e !in DocsOf(ls, |ls|) {
      forall t | 0 <= t < |ls| ensures e !in ls[t].docs {
        assert Tracks(store[t], q.terms[t].info, ls[t]) && store[t].doc >= d;
        CursorHit(store[t], f, e);
      }
    }
  }

  /** A document some cursor is on, at or after the frontier, is a candidate. */
  lemma OnDocMatches(store: seq<Cursor>, c: CodecKind, q: Query, ls: seq<PostingList>, t: nat, d: nat)
    requires Ready(store, c, q, ls) && t < |store| && store[t].doc == d < END
    ensures d in DocsOf(ls, |ls|)
  {
    assert Tracks(store[t], q.terms[t].info, ls[t]);
    assert ls[t].docs[store[t].At()] == d;
    MatchIsDoc(ls, t, d);
  }

  ghost function Left(cur: Cursor): nat
    reads cur
  {
    if cur.Valid() then |cur.l.docs| - cur.At() else 0
  }

  /** Postings that the cursors have still to pass. */
  ghost function AllLeft(store: seq<Cursor>): (lefts: seq<nat>)
    reads store
    ensures |lefts| == |store|
  {
    seq(|store|, t requires 0 <= t < |store| reads store => Left(store[t]))
  }

  ghost function Sum(s: seq<nat>): nat {
    if s == [] then 0 else Sum(s[..|s| - 1]) + s[|s| - 1]
  }

  lemma {:induction false} SumFalls(a: seq<nat>, b: seq<nat>, i: nat)
    requires |a| == |b| && i < |a| && a[i] < b[i]
    requires forall j :: 0 <= j < |a| ==> a[j] <= b[j]
    ensures Sum(a) < Sum(b)
    decreases |a|
  {
    var n := |a| - 1;
    if i < n {
      SumFalls(a[..n], b[..n], i);
    } else {
      SumNotRises(a[..n], b[..n]);
    }
  }

  lemma {:induction false} SumNotRises(a: seq<nat>, b: seq<nat>)
    requires |a| == |b| && forall j :: 0 <= j < |a| ==> a[j] <= b[j]
    ensures Sum(a) <= Sum(b)
    decreases |a|
  {
    if a != [] {
      SumNotRises(a[..|a| - 1], b[..|b| - 1]);
    }
  }

  method InitCursors(c: CodecKind, q: Query, ghost ls: seq<PostingList>) returns (store: seq<Cursor>)
    requires StoredQuery(c, q, ls)
    ensures Ready(store, c, q, ls) && AllBehind(store, 0) && AllFrom(store, 0)
    ensures fresh(store) && |store| == |q.terms|
    ensures forall t :: 0 <= t < |store| ==> ls[t].docs != [] && store[t].doc == ls[t].docs[0]
  {
    hide Stores, Bounded, Cursor.Valid, Cursor.At, Cursor.Behind, ValidList;
    store := [];
    for t := 0 to |q.terms|
      invariant |store| == t && fresh(store)
      invariant forall i, j :: 0 <= i < j < t ==> store[i] != store[j]
      invariant forall i :: 0 <= i < t ==> Tracks(store[i], q.terms[i].info, ls[i]) && store[i].Behind(0)
      invariant forall i :: 0 <= i < t ==> ls[i].docs != [] && store[i].doc == ls[i].docs[0]
    {
      var cur := new Cursor(c, q.terms[t].info, ls[t]);
      store := store + [cur];
    }
  }

  /** next_geq on a cursor behind `f`, for a target not past `f'`. */
  method SeekTo(cur: Cursor, target: u32, ghost info: TermInfo, ghost l: PostingList, ghost f: nat, ghost f': nat)
    requires Tracks(cur, info, l) && cur.Behind(f) && f <= f' && target <= f' && cur.shallow <= target
    modifies cur
    ensures Tracks(cur, info, l) && cur.Behind(f') && cur.doc >= target && cur.doc >= old(cur.doc)
    ensures Left(cur) <= old(Left(cur)) && (old(cur.doc) < target ==> Left(cur) < old(Left(cur)))
    ensures cur.shallow == old(cur.shallow)
  {
    hide Stores;
    cur.NextGeq(target);
  }

  /** next on a cursor whose document lies below `f'`. */
  method StepPast(cur: Cursor, ghost info: TermInfo, ghost l: PostingList, ghost f: nat, ghost f': nat)
    requires Tracks(cur, info, l) && cur.Behind(f) && f <= f' && cur.doc < f' && cur.doc < END
    modifies cur
    ensures Tracks(cur, info, l) && cur.Behind(f') && cur.doc > old(cur.doc)
    ensures Left(cur) < old(Left(cur)) && cur.shallow == old(cur.shallow)
  {
    hide Stores;
    cur.Next();
  }
}
