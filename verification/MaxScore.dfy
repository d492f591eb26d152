/** run_maxscore of engine/src/lexical/search.cc. */
module MaxScore {
  import opened Bits
  import opened Codec
  import opened Postings
  import opened Cursors
  import opened Rounding
  import opened Ranking
  import opened BoundedHeap
  import opened Scoring
  import opened Sequences
  import opened CursorSets
  import opened DocAtATime

  ghost predicate Permutation(ord: seq<nat>, n: nat)
    ensures Permutation(ord, n) ==> |ord| == n && forall i :: 0 <= i < n ==> ord[i] < n
  {
    && |ord| == n && Distinct(ord)
    && (forall i :: 0 <= i < |ord| ==> ord[i] < n)
    && Covers(ord, n)
  }

  ghost predicate Covers(ord: seq<nat>, n: nat) {
    forall t :: 0 <= t < n ==> t in ord
  }

  function UpperBounds(q: Query): (u: seq<real>)
    ensures |u| == |q.terms|
  {
    seq(|q.terms|, t requires 0 <= t < |q.terms| => q.terms[t].ub)
  }

  predicate BoundOrder(q: Query, a: nat, b: nat)
    requires a < |q.terms| && b < |q.terms|
  {
    q.terms[a].ub < q.terms[b].ub || (q.terms[a].ub == q.terms[b].ub && a < b)
  }

  ghost predicate ByBound(q: Query, ord: seq<nat>)
    requires forall i :: 0 <= i < |ord| ==> ord[i] < |q.terms|
  {
    forall i, j :: 0 <= i < j < |ord| ==> BoundOrder(q, ord[i], ord[j])
  }

  /** The terms by increasing bound, ties in canonical order. */
  method SortByBound(q: Query) returns (ord: seq<nat>)
    ensures Permutation(ord, |q.terms|) && ByBound(q, ord)
  {
    ord := [];
    for t := 0 to |q.terms|
      invariant Permutation(ord, t) && ByBound(q, ord)
    {
      var p := t;
      while p > 0 && q.terms[ord[p - 1]].ub > q.terms[t].ub
        invariant p <= t
        invariant p < t ==> q.terms[ord[p]].ub > q.terms[t].ub
      {
        p := p - 1;
      }
      InsertKeeps(ord, t, p);
      InsertOrdered(q, ord, t, p);
      ord := ord[..p] + [t] + ord[p..];
    }
  }

  lemma InsertOrdered(q: Query, ord: seq<nat>, t: nat, p: nat)
    requires t < |q.terms| && Permutation(ord, t) && ByBound(q, ord) && p <= t
    requires p < t ==> q.terms[ord[p]].ub > q.terms[t].ub
    requires p > 0 ==> q.terms[ord[p - 1]].ub <= q.terms[t].ub
    ensures Permutation(ord[..p] + [t] + ord[p..], t + 1) && ByBound(q, ord[..p] + [t] + ord[p..])
  {
    InsertKeeps(ord, t, p);
    forall i | 0 <= i < p ensures BoundOrder(q, ord[i], t) {
      assert i < p - 1 ==> BoundOrder(q, ord[i], ord[p - 1]);
    }
    forall i | p <= i < t ensures BoundOrder(q, t, ord[i]) {
      assert p < i ==> BoundOrder(q, ord[p], ord[i]);
    }
  }

  lemma InsertKeeps(ord: seq<nat>, t: nat, p: nat)
    requires Permutation(ord, t) && p <= t
    ensures Permutation(ord[..p] + [t] + ord[p..], t + 1)
  {
    var r := ord[..p] + [t] + ord[p..];
    assert forall i :: 0 <= i < |r| ==> r[i] == if i < p then ord[i] else if i == p then t else ord[i - 1];
    forall x | 0 <= x < t + 1 ensures x in r {
      if x < t {
        assert x in ord;
        var i :| 0 <= i < |ord| && ord[i] == x;
        assert r[if i < p then i else i + 1] == x;
      } else {
        assert r[p] == t;
      }
    }
  }

  // ---------------------------------------------------------------------------------------------
  // Bound sums
  // ---------------------------------------------------------------------------------------------

  lemma {:induction false} SumConcat(v: seq<real>, a: seq<nat>, b: seq<nat>)
    requires forall i :: 0 <= i < |a| ==> a[i] < |v|
    requires forall i :: 0 <= i < |b| ==> b[i] < |v|
    ensures SumAt(v, a + b) == SumAt(v, a) + SumAt(v, b)
    decreases |b|
  {
    if b == [] {
      assert a + b == a;
    } else {
      var n := |b| - 1;
      SumConcat(v, a, b[..n]);
      assert (a + b)[..|a + b| - 1] == a + b[..n];
    }
  }

  lemma {:induction false} SumAgrees(v: seq<real>, w: seq<real>, s: seq<nat>)
    requires |v| == |w| && forall i :: 0 <= i < |s| ==> s[i] < |v| && v[s[i]] == w[s[i]]
    ensures SumAt(v, s) == SumAt(w, s)
    decreases |s|
  {
    if s != [] {
      SumAgrees(v, w, s[..|s| - 1]);
    }
  }

  /** prefix[i] is the rounded sum of the i + 1 smallest bounds. */
  ghost predicate PrefixBounds(q: Query, ord: seq<nat>, prefix: seq<real>)
    requires Permutation(ord, |q.terms|)
    ensures PrefixBounds(q, ord, prefix) ==> |prefix| == |ord|
  {
    && |prefix| == |ord|
    && (forall i :: 0 <= i < |ord| ==> Near(prefix[i], SumAt(UpperBounds(q), ord[..i + 1]), i + 1))
  }

  method PrefixSums(m: Arithmetic, q: Query, ord: seq<nat>) returns (prefix: seq<real>)
    requires Ieee(m) && Permutation(ord, |q.terms|) && |ord| <= MAX_TERMS
    requires forall t :: 0 <= t < |q.terms| ==> q.terms[t].ub >= 0.0
    ensures PrefixBounds(q, ord, prefix)
  {
    hide Near, Permutation;
    assert |ord| == |q.terms| && forall i :: 0 <= i < |ord| ==>
           ord[i] < |q.terms| by { PermutationRange(ord, |q.terms|); }
    prefix := [];
    var run := 0.0;
    ghost var ubs := UpperBounds(q);
    NearZero(0);
    for i := 0 to |ord|
      invariant |prefix| == i && Near(run, SumAt(ubs, ord[..i]), i)
      invariant forall j :: 0 <= j < i ==> Near(prefix[j], SumAt(ubs, ord[..j + 1]), j + 1)
    {
      var u := q.terms[ord[i]].ub;
      NearSelf(u, i);
      NearAdd(m, run, SumAt(ubs, ord[..i]), u, u, i);
      assert ord[..i + 1][..i] == ord[..i];
      run := m.rd(run + u);
      prefix := prefix + [run];
    }
  }

  lemma PermutationRange(ord: seq<nat>, n: nat)
    requires Permutation(ord, n)
    ensures |ord| == n && forall i :: 0 <= i < n ==> ord[i] < n
  {
  }

  lemma NearZero(i: nat)
    ensures Near(0.0, 0.0, i)
  {
  }

  lemma NearSelf(x: real, i: nat)
    requires x >= 0.0
    ensures Near(x, x, i)
  {
    NearWeaken(x, x, 0, i);
  }

  /** `partial` is the rounded sum of the contributions to `d` of the terms at positions `lo` to `hi`. */
  ghost predicate PartialSum(q: Query, ls: seq<PostingList>, d: nat, ord: seq<nat>, lo: nat, hi: nat, partial: real)
    requires Paired(q, ls) && Permutation(ord, |ls|) && lo <= hi <= |ls|
  {
    Near(partial, SumAt(Parts(q, ls, d), ord[lo..hi]), hi - lo)
  }

  /** Terms up to position `i` of the order bounded by their bounds, later ones by their
      contributions to `d`. */
  ghost function Mixed(q: Query, ls: seq<PostingList>, ord: seq<nat>, i: nat, d: nat): (v: seq<real>)
    requires Paired(q, ls)
    requires Permutation(ord, |ls|) && i <= |ls|
    ensures |v| == |ls|
  {
    seq(|ls|, t requires 0 <= t < |ls| => if t in ord[..i] then q.terms[t].ub else Parts(q, ls, d)[t])
  }

  /** The pruning test of the non-essential loop: the contributions found so far and the bounds of
      the terms not looked at cannot beat the list, so the document is dominated. */
  lemma PartialDominates(m: Arithmetic, c: CodecKind, q: Query, ls: seq<PostingList>, ord: seq<nat>, prefix: seq<real>,
                         i: nat, d: nat, partial: real, theta: real)
    requires Ieee(m) && ValidQuery(c, q, ls) && Permutation(ord, |ls|) && PrefixBounds(q, ord, prefix) && i < |ls|
    requires PartialSum(q, ls, d, ord, i + 1, |ls|, partial)
    requires m.rf(m.rd(m.rd(partial + prefix[i]) * BOUND_SLACK)) <= theta
    ensures Dominated(m, c, q, ls, d, theta)
  {
    hide Stores, Bounded, Parts, Near, Dominated, SumAt, Mixed;
    var v, bound := Mixed(q, ls, ord, i + 1, d), m.rd(partial + prefix[i]);
    MixedCovers(c, q, ls, ord, i + 1, d);
    assert ord[..i + 1] + ord[i + 1..] == ord && ord[i + 1..|ls|] == ord[i + 1..];
    NearWeaken(partial, SumAt(Parts(q, ls, d), ord[i + 1..]), |ls| - i - 1, |ls|);
    NearWeaken(prefix[i], SumAt(UpperBounds(q), ord[..i + 1]), i + 1, |ls|);
    NearAdd(m, partial, SumAt(Parts(q, ls, d), ord[i + 1..]), prefix[i], SumAt(UpperBounds(q), ord[..i + 1]), |ls|);
    NearWeaken(bound, SumAt(v, ord), |ls| + 1, MAX_TERMS + 2);
    BoundsDominate(m, c, q, ls, d, v, ord, bound, theta);
  }

  lemma MixedCovers(c: CodecKind, q: Query, ls: seq<PostingList>, ord: seq<nat>, i: nat, d: nat)
    requires ValidQuery(c, q, ls) && Permutation(ord, |ls|) && i <= |ls|
    ensures forall t :: 0 <= t < |ls| ==> 0.0 <= Parts(q, ls, d)[t] <= Mixed(q, ls, ord, i, d)[t]
    ensures SumAt(Mixed(q, ls, ord, i, d), ord)
         == SumAt(Parts(q, ls, d), ord[i..]) + SumAt(UpperBounds(q), ord[..i])
  {
    hide Stores, Bounded, Parts, SumAt;
    var v := Mixed(q, ls, ord, i, d);
    forall t | 0 <= t < |ls| ensures 0.0 <= Parts(q, ls, d)[t] <= v[t] {
      PartsOf(c, q, ls, d, t);
      UbNonNegative(c, q, ls, t);
    }
    SplitMixed(c, q, ls, ord, i, d);
    SumAgrees(v, UpperBounds(q), ord[..i]);
    SumAgrees(v, Parts(q, ls, d), ord[i..]);
    SumConcat(v, ord[..i], ord[i..]);
    assert ord[..i] + ord[i..] == ord;
  }

  lemma UbNonNegative(c: CodecKind, q: Query, ls: seq<PostingList>, t: nat)
    requires ValidQuery(c, q, ls) && t < |ls|
    ensures q.terms[t].ub >= 0.0
  {
    assert Bounded(q, ls, t, 0);
  }

  lemma SplitMixed(c: CodecKind, q: Query, ls: seq<PostingList>, ord: seq<nat>, i: nat, d: nat)
    requires ValidQuery(c, q, ls) && Permutation(ord, |ls|) && i <= |ls|
    ensures forall j :: 0 <= j < i ==> Mixed(q, ls, ord, i, d)[ord[j]] == UpperBounds(q)[ord[j]]
    ensures forall j :: i <= j < |ls| ==> Mixed(q, ls, ord, i, d)[ord[j]] == Parts(q, ls, d)[ord[j]]
  {
    hide Parts, Stores, Bounded;
    forall j | i <= j < |ls| ensures ord[j] !in ord[..i] {
    }
    forall j | 0 <= j < i ensures ord[j] in ord[..i] {
      assert ord[..i][j] == ord[j];
    }
  }

  /** A document that only terms up to position `fe - 1` match is dominated once their bounds cannot
      beat the list. */
  lemma NonEssentialDominates(m: Arithmetic, c: CodecKind, q: Query, ls: seq<PostingList>, ord: seq<nat>,
                              prefix: seq<real>, fe: nat, d: nat, theta: real)
    requires Ieee(m) && ValidQuery(c, q, ls) && Permutation(ord, |ls|) && PrefixBounds(q, ord, prefix) && 0 < fe <= |ls|
    requires forall t :: 0 <= t < |ls| && d in ls[t].docs ==> t in ord[..fe]
    requires m.rf(m.rd(prefix[fe - 1] * BOUND_SLACK)) <= theta
    ensures Dominated(m, c, q, ls, d, theta)
  {
    hide Stores, Bounded, Parts, Near, Dominated;
    var low := ord[..fe];
    forall t | 0 <= t < |ls| ensures q.terms[t].ub >= 0.0 && (d in ls[t].docs ==> Parts(q, ls, d)[t] <= q.terms[t].ub) {
      PartsOf(c, q, ls, d, t);
      UbNonNegative(c, q, ls, t);
    }
    NearWeaken(prefix[fe - 1], SumAt(UpperBounds(q), low), fe, MAX_TERMS + 2);
    BoundsDominate(m, c, q, ls, d, UpperBounds(q), low, prefix[fe - 1], theta);
  }

  // ---------------------------------------------------------------------------------------------
  // One document
  // ---------------------------------------------------------------------------------------------

  /** Hits and contributions of `d` are known for the terms from position `i` of the order, and no
      other hits are set. */
  ghost predicate Found(q: Query, ls: seq<PostingList>, d: nat, ord: seq<nat>, i: nat, contrib: seq<real>,
                        hit: seq<bool>)
    requires Paired(q, ls)
    requires Permutation(ord, |ls|)
  {
    && |contrib| == |hit| == |ls|
    && (forall j :: 0 <= j < i && j < |ls| ==> !hit[ord[j]])
    && (forall j :: i <= j < |ls| ==> (hit[ord[j]] <==> d in ls[ord[j]].docs))
    && (forall j :: i <= j < |ls| && hit[ord[j]] ==> contrib[ord[j]] == Parts(q, ls, d)[ord[j]])
  }

  /** The sum of the contributions found, over terms from position `i`. */
  lemma PartialGrows(m: Arithmetic, c: CodecKind, q: Query, ls: seq<PostingList>, d: nat, t: nat,
                     partial: real, x: real, ops: nat)
    requires Ieee(m) && ValidQuery(c, q, ls) && t < |ls| && ops < |ls| && Near(partial, x, ops)
    ensures Near(if d in ls[t].docs then m.rd(partial + Parts(q, ls, d)[t]) else partial,
                 x + Parts(q, ls, d)[t], ops + 1)
  {
    hide Stores, Bounded, Parts;
    PartsOf(c, q, ls, d, t);
    var p := Parts(q, ls, d)[t];
    if d in ls[t].docs {
      NearSelf(p, ops);
      NearAdd(m, partial, x, p, p, ops);
    } else {
      NearWeaken(partial, x, ops, ops + 1);
    }
  }

  lemma FoundNext(q: Query, ls: seq<PostingList>, d: nat, ord: seq<nat>, lo: nat, i: nat)
    requires Paired(q, ls)
    requires Permutation(ord, |ls|) && lo <= i < |ls|
    ensures SumAt(Parts(q, ls, d), ord[lo..i + 1]) == SumAt(Parts(q, ls, d), ord[lo..i]) + Parts(q, ls, d)[ord[i]]
    ensures SumAt(Parts(q, ls, d), ord[i..|ls|]) == SumAt(Parts(q, ls, d), ord[i + 1..|ls|]) + Parts(q, ls, d)[ord[i]]
  {
    hide Parts;
    assert ord[lo..i + 1] == ord[lo..i] + [ord[i]];
    assert ord[i..|ls|] == [ord[i]] + ord[i + 1..|ls|];
    SumConcat(Parts(q, ls, d), ord[lo..i], [ord[i]]);
    SumConcat(Parts(q, ls, d), [ord[i]], ord[i + 1..|ls|]);
    assert [ord[i]][..0] == [];
  }

  /** If term `t`'s cursor is on `d`, note the contribution and add it to the partial sum. */
  method TakeHit(m: Arithmetic, c: CodecKind, q: Query, ghost ls: seq<PostingList>, cur: Cursor, t: nat, d: u32,
                 ghost f: nat, contrib0: seq<real>, hit0: seq<bool>, partial0: real, ghost x: real, ghost ops: nat)
    returns (contrib: seq<real>, hit: seq<bool>, partial: real)
    requires Ieee(m) && ValidQuery(c, q, ls) && t < |ls| && Tracks(cur, q.terms[t].info, ls[t])
    requires f <= d < END && cur.Behind(f) && cur.doc >= d
    requires |contrib0| == |hit0| == |ls| && ops < |ls| && Near(partial0, x, ops)
    ensures cur.doc == d <==> d in ls[t].docs
    ensures Near(partial, x + Parts(q, ls, d)[t], ops + 1)
    ensures if d in ls[t].docs then contrib == contrib0[t := Parts(q, ls, d)[t]] && hit == hit0[t := true]
            else contrib == contrib0 && hit == hit0
  {
    hide Stores, Bounded, Parts, Near, Ieee;
    CursorHit(cur, f, d);
    PartsOf(c, q, ls, d, t);
    PartialGrows(m, c, q, ls, d, t, partial0, x, ops);
    contrib, hit, partial := contrib0, hit0, partial0;
    if cur.Doc() == d {
      assert ls[t].docs[cur.At()] == d;
      var s := q.sc.contrib(q.terms[t].weight, d, cur.Tf());
      contrib, hit, partial := contrib[t := s], hit[t := true], m.rd(partial + s);
    }
  }

  /** Cursors of essential terms stand at or after `f`. */
  ghost predicate EssentialFrom(cur: seq<Cursor>, ord: seq<nat>, fe: nat, f: nat)
    reads cur
    requires Permutation(ord, |cur|)
  {
    forall j :: fe <= j < |cur| ==> cur[ord[j]].doc >= f
  }

  /** Non-essential cursors are behind `f`; essential ones are past everything below `f'`. */
  ghost predicate Divided(cur: seq<Cursor>, ord: seq<nat>, fe: nat, f: nat, f': nat)
    reads cur
    requires Permutation(ord, |cur|)
  {
    && (forall j :: 0 <= j < fe && j < |cur| ==> cur[ord[j]].Valid() && cur[ord[j]].Behind(f))
    && (forall j :: fe <= j < |cur| ==> cur[ord[j]].Valid() && cur[ord[j]].Behind(f') && cur[ord[j]].doc >= f')
  }

  /** Score `d` on the essential terms and move their cursors past it. */
  method ScoreEssential(m: Arithmetic, c: CodecKind, q: Query, ghost ls: seq<PostingList>, cur: seq<Cursor>,
                        ord: seq<nat>, fe: nat, d: u32, ghost f: nat, contrib0: seq<real>, ghost on: nat)
    returns (contrib: seq<real>, hit: seq<bool>, partial: real)
    requires Ieee(m) && ValidQuery(c, q, ls) && Ready(cur, c, q, ls)
    requires |cur| == |ls| == |contrib0| && Permutation(ord, |ls|) && fe <= |ls|
    requires f <= d < END && AllBehind(cur, f) && EssentialFrom(cur, ord, fe, d)
    requires fe <= on < |ls| && cur[ord[on]].doc == d
    modifies cur
    ensures Ready(cur, c, q, ls) && Divided(cur, ord, fe, f, d + 1)
    ensures |contrib| == |hit| == |ls| && Found(q, ls, d, ord, fe, contrib, hit)
    ensures PartialSum(q, ls, d, ord, fe, |ls|, partial)
    ensures Sum(AllLeft(cur)) < Sum(old(AllLeft(cur)))
  {
    hide *;
    ghost var lefts := AllLeft(cur);
    contrib, hit, partial := contrib0, seq(|cur|, _ => false), 0.0;
    StartVisits(cur, ord, fe, d, f, lefts, on);
    NothingFound(c, q, ls, d, ord, fe, contrib, hit);
    for i := fe to |cur|
      invariant Ready(cur, c, q, ls) && Visited(cur, ord, fe, i, d, f, lefts, on)
      invariant |contrib| == |hit| == |ls| && FoundSome(q, ls, d, ord, fe, i, contrib, hit)
      invariant PartialSum(q, ls, d, ord, fe, i, partial)
    {
      contrib, hit, partial := VisitNext(m, c, q, ls, cur, ord, fe, i, d, f, contrib, hit, partial, lefts, on);
    }
    EssentialPassed(cur, ord, fe, d, f, lefts, on);
    AllFound(q, ls, d, ord, fe, contrib, hit);
  }

  /** The essential loop has done the terms at positions `fe` to `i`. */
  ghost predicate Visited(cur: seq<Cursor>, ord: seq<nat>, fe: nat, i: nat, d: nat, f: nat, lefts: seq<nat>, on: nat)
    reads cur
    requires Permutation(ord, |cur|) && |lefts| == |cur| && on < |cur|
  {
    && (forall j :: 0 <= j < |cur| && (j >= i || j < fe) ==> Pending(cur[ord[j]], f, lefts[ord[j]]))
    && (forall j :: i <= j < |cur| ==> cur[ord[j]].doc >= d)
    && (forall j :: fe <= j < i && j < |cur| ==> Passed(cur[ord[j]], d, lefts[ord[j]], j == on))
    && (i <= on ==> cur[ord[on]].doc == d)
  }

  lemma StartVisits(cur: seq<Cursor>, ord: seq<nat>, fe: nat, d: nat, f: nat, lefts: seq<nat>, on: nat)
    requires Permutation(ord, |cur|) && lefts == AllLeft(cur) && fe <= on < |cur|
    requires AllBehind(cur, f) && EssentialFrom(cur, ord, fe, d) && cur[ord[on]].doc == d
    ensures Visited(cur, ord, fe, fe, d, f, lefts, on)
  {
    hide Cursor.Valid, Cursor.At, Cursor.Behind, Left, Covers;
  }

  method VisitNext(m: Arithmetic, c: CodecKind, q: Query, ghost ls: seq<PostingList>, cur: seq<Cursor>,
                   ord: seq<nat>, ghost fe: nat, i: nat, d: u32, ghost f: nat,
                   contrib0: seq<real>, hit0: seq<bool>, partial0: real, ghost lefts: seq<nat>, ghost on: nat)
    returns (contrib: seq<real>, hit: seq<bool>, partial: real)
    requires Ieee(m) && ValidQuery(c, q, ls) && Ready(cur, c, q, ls) && |cur| == |ls| == |lefts|
    requires Permutation(ord, |ls|)
    requires fe <= i < |cur| && on < |cur| && f <= d < END && Visited(cur, ord, fe, i, d, f, lefts, on)
    requires |contrib0| == |hit0| == |ls| && FoundSome(q, ls, d, ord, fe, i, contrib0, hit0)
    requires PartialSum(q, ls, d, ord, fe, i, partial0)
    modifies cur
    ensures Ready(cur, c, q, ls) && Visited(cur, ord, fe, i + 1, d, f, lefts, on)
    ensures |contrib| == |hit| == |ls| && FoundSome(q, ls, d, ord, fe, i + 1, contrib, hit)
    ensures PartialSum(q, ls, d, ord, fe, i + 1, partial)
  {
    hide Stores, Bounded, ValidList, Parts, Near, Ieee, Left, SumAt, Cursor.Valid, Cursor.At, Cursor.Behind,
      Passed, Pending, FoundSome, Covers;
    var t := ord[i];
    FoundNext(q, ls, d, ord, fe, i);
    contrib, hit, partial := VisitTerm(m, c, q, ls, cur[t], t, d, f, contrib0, hit0, partial0,
      SumAt(Parts(q, ls, d), ord[fe..i]), i - fe, lefts[t], i == on);
    FoundSomeNext(q, ls, d, ord, fe, i, contrib0, hit0, contrib, hit);
  }

  /** One step of the essential loop. */
  method VisitTerm(m: Arithmetic, c: CodecKind, q: Query, ghost ls: seq<PostingList>, cur: Cursor, t: nat, d: u32,
                   ghost f: nat, contrib0: seq<real>, hit0: seq<bool>, partial0: real, ghost x: real, ghost ops: nat,
                   ghost left: nat, ghost on: bool)
    returns (contrib: seq<real>, hit: seq<bool>, partial: real)
    requires Ieee(m) && ValidQuery(c, q, ls) && t < |ls| && Tracks(cur, q.terms[t].info, ls[t])
    requires f <= d < END && Pending(cur, f, left) && cur.doc >= d && (on ==> cur.doc == d)
    requires |contrib0| == |hit0| == |ls| && ops < |ls| && Near(partial0, x, ops)
    modifies cur
    ensures Tracks(cur, q.terms[t].info, ls[t]) && Passed(cur, d, left, on)
    ensures Near(partial, x + Parts(q, ls, d)[t], ops + 1)
    ensures if d in ls[t].docs then contrib == contrib0[t := Parts(q, ls, d)[t]] && hit == hit0[t := true]
            else contrib == contrib0 && hit == hit0
  {
    hide Stores, Bounded, Parts, Near, Ieee, Cursor.At, Cursor.Behind, Cursor.Loaded, ValidList;
    contrib, hit, partial := TakeHit(m, c, q, ls, cur, t, d, f, contrib0, hit0, partial0, x, ops);
    if cur.Doc() == d {
      StepPast(cur, q.terms[t].info, ls[t], f, d + 1);
    } else {
      BehindLater(cur, f, d + 1);
    }
  }

  lemma FoundSomeNext(q: Query, ls: seq<PostingList>, d: nat, ord: seq<nat>, lo: nat, i: nat,
                      contrib0: seq<real>, hit0: seq<bool>, contrib: seq<real>, hit: seq<bool>)
    requires Paired(q, ls)
    requires Permutation(ord, |ls|) && lo <= i < |ls| && FoundSome(q, ls, d, ord, lo, i, contrib0, hit0)
    requires var t := ord[i];
      if d in ls[t].docs then contrib == contrib0[t := Parts(q, ls, d)[t]] && hit == hit0[t := true]
      else contrib == contrib0 && hit == hit0
    ensures FoundSome(q, ls, d, ord, lo, i + 1, contrib, hit)
  {
    hide Parts, Covers;
  }

  /** A cursor the document has not been scored on. */
  ghost predicate Pending(cur: Cursor, f: nat, left: nat)
    reads cur
  {
    cur.Valid() && cur.Behind(f) && Left(cur) == left
  }

  lemma EssentialPassed(cur: seq<Cursor>, ord: seq<nat>, fe: nat, d: nat, f: nat, lefts: seq<nat>, on: nat)
    requires Permutation(ord, |cur|) && |lefts| == |cur| && fe <= on < |cur|
    requires Visited(cur, ord, fe, |cur|, d, f, lefts, on)
    ensures Divided(cur, ord, fe, f, d + 1) && Sum(AllLeft(cur)) < Sum(lefts)
  {
    hide Cursor.Valid, Cursor.Behind, Cursor.At, Sum;
    forall t | 0 <= t < |cur| ensures Left(cur[t]) <= lefts[t] {
      assert t in ord;
      var j :| 0 <= j < |ord| && ord[j] == t;
      assert j >= fe ==> Passed(cur[ord[j]], d, lefts[ord[j]], j == on);
      assert j < fe ==> Pending(cur[ord[j]], f, lefts[ord[j]]);
    }
    SumFalls(AllLeft(cur), lefts, ord[on]);
  }

  /** Found, for the terms at positions `lo` to `i` only. */
  ghost predicate FoundSome(q: Query, ls: seq<PostingList>, d: nat, ord: seq<nat>, lo: nat, i: nat,
                            contrib: seq<real>, hit: seq<bool>)
    requires Paired(q, ls)
    requires Permutation(ord, |ls|)
  {
    && |contrib| == |hit| == |ls|
    && (forall j :: 0 <= j < |ls| && (j < lo || j >= i) ==> !hit[ord[j]])
    && (forall j :: lo <= j < i && j < |ls| ==> (hit[ord[j]] <==> d in ls[ord[j]].docs))
    && (forall j :: lo <= j < i && j < |ls| && hit[ord[j]] ==> contrib[ord[j]] == Parts(q, ls, d)[ord[j]])
  }

  lemma NothingFound(c: CodecKind, q: Query, ls: seq<PostingList>, d: nat, ord: seq<nat>, i: nat,
                     contrib: seq<real>, hit: seq<bool>)
    requires ValidQuery(c, q, ls) && i <= |ls|
    requires Permutation(ord, |ls|) && |contrib| == |hit| == |ls| && forall t :: 0 <= t < |ls| ==> !hit[t]
    ensures FoundSome(q, ls, d, ord, i, i, contrib, hit)
    ensures PartialSum(q, ls, d, ord, i, i, 0.0)
  {
    assert ord[i..i] == [];
  }

  lemma AllFound(q: Query, ls: seq<PostingList>, d: nat, ord: seq<nat>, fe: nat, contrib: seq<real>, hit: seq<bool>)
    requires Paired(q, ls)
    requires Permutation(ord, |ls|) && FoundSome(q, ls, d, ord, fe, |ls|, contrib, hit)
    ensures Found(q, ls, d, ord, fe, contrib, hit)
  {
  }

  /** Complete `d` on the non-essential terms, largest bound first, unless the bounds of what is
      left show that it cannot enter the list. */
  method ScoreRest(m: Arithmetic, c: CodecKind, q: Query, ghost ls: seq<PostingList>, cur: seq<Cursor>,
                   ord: seq<nat>, prefix: seq<real>, fe: nat, d: u32, ghost f: nat, top: TopK,
                   contrib0: seq<real>, hit0: seq<bool>, partial0: real)
    returns (pruned: bool, contrib: seq<real>, hit: seq<bool>)
    requires Ieee(m) && ValidQuery(c, q, ls) && Ready(cur, c, q, ls) && Permutation(ord, |ls|) && fe <= |ls|
    requires PrefixBounds(q, ord, prefix) && |prefix| == |ls| && top.Valid() && f <= d < END
    requires |cur| == |ls| && Divided(cur, ord, fe, f, d + 1)
    requires |contrib0| == |hit0| == |ls| && Found(q, ls, d, ord, fe, contrib0, hit0)
    requires PartialSum(q, ls, d, ord, fe, |ls|, partial0)
    modifies cur
    ensures Ready(cur, c, q, ls) && AllBehind(cur, d + 1) && EssentialFrom(cur, ord, fe, d + 1)
    ensures pruned ==> |top.heap| == top.k && Dominated(m, c, q, ls, d, top.heap[top.k - 1].score)
    ensures |contrib| == |hit| == |ls| && (!pruned ==> Found(q, ls, d, ord, 0, contrib, hit))
    ensures Sum(AllLeft(cur)) <= Sum(old(AllLeft(cur)))
  {
    hide *;
    ghost var lefts := AllLeft(cur);
    contrib, hit, pruned := contrib0, hit0, false;
    var partial, i := partial0, fe;
    ghost var seen := fe;
    AllKept(cur, ord, fe, f, d + 1, lefts);
    while i > 0
      invariant 0 <= i <= fe && seen == i && Ready(cur, c, q, ls)
      invariant Resting(cur, ord, i, f, d + 1, lefts) && EssentialFrom(cur, ord, fe, d + 1)
      invariant |contrib| == |hit| == |ls| && Found(q, ls, d, ord, i, contrib, hit)
      invariant PartialSum(q, ls, d, ord, i, |ls|, partial)
    {
      i := i - 1;
      if CannotBeatTop(m, top, m.rd(partial + prefix[i])) {
        PartialCannotBeat(m, c, q, ls, ord, prefix, i, d, partial, top.heap, top.k);
        pruned := true;
        break;
      }
      contrib, hit, partial := RestNext(m, c, q, ls, cur, ord, fe, i, d, f, contrib, hit, partial, lefts);
      seen := i;
    }
    SettleCursors(cur, c, q, ls, ord, seen, f, d + 1, lefts);
  }

  lemma PartialCannotBeat(m: Arithmetic, c: CodecKind, q: Query, ls: seq<PostingList>, ord: seq<nat>, prefix: seq<real>,
                          i: nat, d: nat, partial: real, heap: seq<ScoredDoc>, k: nat)
    requires Ieee(m) && ValidQuery(c, q, ls) && Permutation(ord, |ls|) && PrefixBounds(q, ord, prefix) && i < |ls|
    requires PartialSum(q, ls, d, ord, i + 1, |ls|, partial) && 0 < k && |heap| <= k
    requires CannotBeat(m, heap, k, m.rd(partial + prefix[i]))
    ensures |heap| == k && Dominated(m, c, q, ls, d, heap[k - 1].score)
  {
    PartialDominates(m, c, q, ls, ord, prefix, i, d, partial, heap[k - 1].score);
  }

  /** The cursors while the non-essential loop is at position `i`. */
  ghost predicate Resting(cur: seq<Cursor>, ord: seq<nat>, i: nat, f: nat, f': nat, lefts: seq<nat>)
    reads cur
    requires Permutation(ord, |cur|) && |lefts| == |cur|
  {
    forall j :: 0 <= j < |cur| ==> Kept(cur[ord[j]], if j < i then f else f', lefts[ord[j]])
  }

  method RestNext(m: Arithmetic, c: CodecKind, q: Query, ghost ls: seq<PostingList>, cur: seq<Cursor>,
                  ord: seq<nat>, ghost fe: nat, i: nat, d: u32, ghost f: nat,
                  contrib0: seq<real>, hit0: seq<bool>, partial0: real, ghost lefts: seq<nat>)
    returns (contrib: seq<real>, hit: seq<bool>, partial: real)
    requires Ieee(m) && ValidQuery(c, q, ls) && Ready(cur, c, q, ls) && Permutation(ord, |ls|) && |lefts| == |cur|
    requires i < |cur| && f <= d < END && Resting(cur, ord, i + 1, f, d + 1, lefts)
    requires EssentialFrom(cur, ord, fe, d + 1)
    requires |contrib0| == |hit0| == |ls| && Found(q, ls, d, ord, i + 1, contrib0, hit0)
    requires PartialSum(q, ls, d, ord, i + 1, |ls|, partial0)
    modifies cur
    ensures Ready(cur, c, q, ls) && Resting(cur, ord, i, f, d + 1, lefts) && EssentialFrom(cur, ord, fe, d + 1)
    ensures |contrib| == |hit| == |ls| && Found(q, ls, d, ord, i, contrib, hit)
    ensures PartialSum(q, ls, d, ord, i, |ls|, partial)
  {
    hide Stores, Bounded, ValidList, Parts, Near, Ieee, Left, SumAt, Cursor.Valid, Cursor.At, Cursor.Behind,
      Kept, Found, Covers;
    var t := ord[i];
    FoundNext(q, ls, d, ord, i, i);
    contrib, hit, partial := VisitRest(m, c, q, ls, cur[t], t, d, f, contrib0, hit0, partial0,
      SumAt(Parts(q, ls, d), ord[i + 1..|ls|]), |ls| - i - 1, lefts[t]);
    FoundEarlier(q, ls, d, ord, i, contrib0, hit0, contrib, hit);
  }

  ghost predicate Kept(cur: Cursor, f: nat, left: nat)
    reads cur
  {
    cur.Valid() && cur.Behind(f) && Left(cur) <= left
  }

  lemma AllKept(cur: seq<Cursor>, ord: seq<nat>, fe: nat, f: nat, f': nat, lefts: seq<nat>)
    requires Permutation(ord, |cur|) && lefts == AllLeft(cur) && Divided(cur, ord, fe, f, f')
    ensures EssentialFrom(cur, ord, fe, f') && Resting(cur, ord, fe, f, f', lefts)
  {
  }

  /** One step of the non-essential loop. */
  method VisitRest(m: Arithmetic, c: CodecKind, q: Query, ghost ls: seq<PostingList>, cur: Cursor, t: nat, d: u32,
                   ghost f: nat, contrib0: seq<real>, hit0: seq<bool>, partial0: real, ghost x: real, ghost ops: nat,
                   ghost left: nat)
    returns (contrib: seq<real>, hit: seq<bool>, partial: real)
    requires Ieee(m) && ValidQuery(c, q, ls) && t < |ls| && Tracks(cur, q.terms[t].info, ls[t])
    requires f <= d < END && Kept(cur, f, left)
    requires |contrib0| == |hit0| == |ls| && ops < |ls| && Near(partial0, x, ops)
    modifies cur
    ensures Tracks(cur, q.terms[t].info, ls[t]) && Kept(cur, d + 1, left) && cur.doc >= old(cur.doc)
    ensures Near(partial, x + Parts(q, ls, d)[t], ops + 1)
    ensures if d in ls[t].docs then contrib == contrib0[t := Parts(q, ls, d)[t]] && hit == hit0[t := true]
            else contrib == contrib0 && hit == hit0
  {
    hide Stores, Bounded, Parts, Near, Ieee, Cursor.At, Cursor.Behind, Cursor.Loaded, ValidList;
    SeekTo(cur, d, q.terms[t].info, ls[t], f, d);
    contrib, hit, partial := TakeHit(m, c, q, ls, cur, t, d, d, contrib0, hit0, partial0, x, ops);
    BehindLater(cur, d, d + 1);
  }

  lemma FoundEarlier(q: Query, ls: seq<PostingList>, d: nat, ord: seq<nat>, i: nat,
                     contrib0: seq<real>, hit0: seq<bool>, contrib: seq<real>, hit: seq<bool>)
    requires Paired(q, ls)
    requires Permutation(ord, |ls|) && i < |ls| && Found(q, ls, d, ord, i + 1, contrib0, hit0)
    requires var t := ord[i];
      if d in ls[t].docs then contrib == contrib0[t := Parts(q, ls, d)[t]] && hit == hit0[t := true]
      else contrib == contrib0 && hit == hit0
    ensures Found(q, ls, d, ord, i, contrib, hit)
  {
    hide Parts, Covers;
  }

  lemma SettleCursors(cur: seq<Cursor>, c: CodecKind, q: Query, ls: seq<PostingList>, ord: seq<nat>, i: nat,
                      f: nat, f': nat, lefts: seq<nat>)
    requires Ready(cur, c, q, ls) && Permutation(ord, |ls|) && i <= |ls| && f <= f' && |lefts| == |cur|
    requires Resting(cur, ord, i, f, f', lefts)
    ensures AllBehind(cur, f') && Sum(AllLeft(cur)) <= Sum(lefts)
  {
    hide Cursor.Valid, Cursor.At, Sum;
    forall t | 0 <= t < |cur| ensures cur[t].Valid() && cur[t].Behind(f') && Left(cur[t]) <= lefts[t] {
      assert t in ord;
      var j :| 0 <= j < |ord| && ord[j] == t;
      assert Kept(cur[ord[j]], if j < i then f else f', lefts[ord[j]]);
      BehindLater(cur[t], if j < i then f else f', f');
    }
    SumNotRises(AllLeft(cur), lefts);
  }

  // ---------------------------------------------------------------------------------------------
  // The whole run
  // ---------------------------------------------------------------------------------------------

  lemma FoundScore(m: Arithmetic, c: CodecKind, q: Query, ls: seq<PostingList>, d: nat, ord: seq<nat>,
                   contrib: seq<real>, hit: seq<bool>)
    requires ValidQuery(c, q, ls) && Permutation(ord, |ls|) && |contrib| == |hit| == |ls|
    requires Found(q, ls, d, ord, 0, contrib, hit)
    ensures m.rf(Fold(m, contrib, hit, |ls|)) == Score(m, c, q, ls, d)
  {
    hide Parts, Stores, Bounded, Fold;
    forall t | 0 <= t < |ls| ensures hit[t] == Hits(ls, d)[t] && (hit[t] ==> contrib[t] == Parts(q, ls, d)[t]) {
      assert t in ord;
      var j :| 0 <= j < |ord| && ord[j] == t;
    }
    assert hit == Hits(ls, d);
    FoldAgrees(m, contrib, Parts(q, ls, d), hit, |ls|);
  }

  /** Documents between the frontier and the essential cursors match non-essential terms only. */
  lemma GapDominated(m: Arithmetic, c: CodecKind, q: Query, ls: seq<PostingList>, cur: seq<Cursor>, ord: seq<nat>,
                     prefix: seq<real>, fe: nat, f: nat, d: nat, heap: seq<ScoredDoc>, k: nat)
    requires Ieee(m) && ValidQuery(c, q, ls) && Ready(cur, c, q, ls) && Permutation(ord, |ls|) && fe <= |ls|
    requires PrefixBounds(q, ord, prefix) && |prefix| == |ls| && 0 < k && |heap| <= k
    requires AllBehind(cur, f) && EssentialFrom(cur, ord, fe, d) && d <= END
    requires fe > 0 ==> CannotBeat(m, heap, k, prefix[fe - 1])
    ensures AllDominated(heap, k, m, c, q, ls, f, d)
  {
    hide Stores, Bounded, Parts, PrefixBounds, Dominated, Ieee, Cursor.Valid, Cursor.At, Cursor.Behind;
    forall e | f <= e < d && e in DocsOf(ls, |ls|)
      ensures |heap| == k > 0 && Dominated(m, c, q, ls, e, heap[k - 1].score)
    {
      forall t | 0 <= t < |ls| && e in ls[t].docs ensures t in ord[..fe] {
        assert t in ord;
        var j :| 0 <= j < |ord| && ord[j] == t;
        if j >= fe {
          assert Tracks(cur[t], q.terms[t].info, ls[t]);
          CursorHit(cur[t], f, e);
        }
        assert ord[..fe][j] == t;
      }
      var t :| 0 <= t < |ls| && e in ls[t].docs;
      assert fe > 0;
      NonEssentialDominates(m, c, q, ls, ord, prefix, fe, e, heap[k - 1].score);
    }
  }

  /** canonical_sum: the contributions hit, in canonical order. */
  method CanonicalSum(m: Arithmetic, contrib: seq<real>, hit: seq<bool>) returns (s: real)
    requires |contrib| == |hit|
    ensures s == m.rf(Fold(m, contrib, hit, |hit|))
  {
    var sum := 0.0;
    for i := 0 to |hit|
      invariant sum == Fold(m, contrib, hit, i)
    {
      if hit[i] {
        sum := m.rd(sum + contrib[i]);
      }
    }
    s := m.rf(sum);
  }

  /** update_partition: terms become non-essential while their bounds together cannot beat the list. */
  method UpdatePartition(m: Arithmetic, top: TopK, prefix: seq<real>, fe0: nat) returns (fe: nat)
    requires top.Valid() && fe0 <= |prefix| && (fe0 > 0 ==> CannotBeat(m, top.heap, top.k, prefix[fe0 - 1]))
    ensures fe0 <= fe <= |prefix| && (fe > 0 ==> CannotBeat(m, top.heap, top.k, prefix[fe - 1]))
    ensures fe < |prefix| ==> !CannotBeat(m, top.heap, top.k, prefix[fe])
  {
    fe := fe0;
    while fe < |prefix| && CannotBeatTop(m, top, prefix[fe])
      invariant fe0 <= fe <= |prefix| && (fe > 0 ==> CannotBeat(m, top.heap, top.k, prefix[fe - 1]))
    {
      fe := fe + 1;
    }
  }

  method LeastEssential(cur: seq<Cursor>, ord: seq<nat>, fe: nat, ghost f: nat) returns (d: u32, ghost on: nat)
    requires Permutation(ord, |cur|) && fe <= |cur| && EssentialFrom(cur, ord, fe, f) && f <= END
    ensures EssentialFrom(cur, ord, fe, d) && f <= d <= END
    ensures d < END ==> fe <= on < |cur| && ord[on] < |cur| && cur[ord[on]].doc == d
  {
    d, on := END, fe;
    for i := fe to |cur|
      invariant f <= d
      invariant forall j :: fe <= j < i ==> cur[ord[j]].doc >= d
      invariant d < END ==> fe <= on < i && cur[ord[on]].doc == d
    {
      if cur[ord[i]].Doc() < d {
        d, on := cur[ord[i]].Doc(), i;
      }
    }
  }

  /** run_maxscore finds the same list as scoring every document. */
  method RunMaxScore(m: Arithmetic, c: CodecKind, q: Query, ghost ls: seq<PostingList>, top: TopK)
    requires Ieee(m) && ValidQuery(c, q, ls) && top.Valid() && top.heap == []
    modifies top
    ensures top.Valid() && IsAnswer(top.heap, m, c, q, ls, top.k)
  {
    forall t | 0 <= t < |q.terms| ensures q.terms[t].ub >= 0.0 { UbNonNegative(c, q, ls, t); }
    assert |q.terms| == |ls| <= MAX_TERMS;
    hide *;
    var cur := InitCursors(c, q, ls);
    var ord := SortByBound(q);
    var prefix := PrefixSums(m, q, ord);
    RunSorted(m, c, q, ls, cur, ord, prefix, top);
  }

  /** run_maxscore once the terms are sorted. */
  method RunSorted(m: Arithmetic, c: CodecKind, q: Query, ghost ls: seq<PostingList>, cur: seq<Cursor>,
                   ord: seq<nat>, prefix: seq<real>, top: TopK)
    requires Ieee(m) && ValidQuery(c, q, ls) && top.Valid() && top.heap == []
    requires |ord| == |prefix| == |ls| == |cur| == |q.terms|
    requires Ready(cur, c, q, ls) && AllBehind(cur, 0) && AllFrom(cur, 0)
    requires Permutation(ord, |ls|) && PrefixBounds(q, ord, prefix)
    modifies cur, top
    ensures top.Valid() && IsAnswer(top.heap, m, c, q, ls, top.k)
  {
    hide *;
    var n := |q.terms|;
    var fe: nat, contrib: seq<real> := 0, seq(n, _ => 0.0);
    ghost var f: nat := 0;
    EmptySettled(top.k, m, c, q, ls);
    EssentialStart(cur, ord);
    while fe < n
      invariant top.Valid() && Ready(cur, c, q, ls) && |contrib| == n
      invariant fe <= n && f <= END && AllBehind(cur, f) && EssentialFrom(cur, ord, fe, f)
      invariant Settled(top.heap, top.k, m, c, q, ls, f, f)
      invariant fe > 0 ==> CannotBeat(m, top.heap, top.k, prefix[fe - 1])
      decreases Sum(AllLeft(cur))
    {
      var d, on := LeastEssential(cur, ord, fe, f);
      GapDominated(m, c, q, ls, cur, ord, prefix, fe, f, d, top.heap, top.k);
      SettleTo(top.heap, top.k, m, c, q, ls, f, f, d);
      if d == END {
        SettledIsAnswer(top.heap, top.k, m, c, q, ls, f);
        return;
      }
      fe, contrib := ScoreNext(m, c, q, ls, cur, ord, prefix, fe, d, f, top, contrib, on);
      f := d + 1;
    }
    EssentialNone(cur, ord, fe);
    GapDominated(m, c, q, ls, cur, ord, prefix, fe, f, END, top.heap, top.k);
    SettleTo(top.heap, top.k, m, c, q, ls, f, f, END);
    SettledIsAnswer(top.heap, top.k, m, c, q, ls, f);
  }

  /** The body of run_maxscore's loop for the document `d` that the essential terms lead to. */
  method ScoreNext(m: Arithmetic, c: CodecKind, q: Query, ghost ls: seq<PostingList>, cur: seq<Cursor>,
                   ord: seq<nat>, prefix: seq<real>, fe0: nat, d: u32, ghost f: nat, top: TopK,
                   contrib0: seq<real>, ghost on: nat)
    returns (fe: nat, contrib: seq<real>)
    requires Ieee(m) && ValidQuery(c, q, ls) && Ready(cur, c, q, ls) && Permutation(ord, |ls|)
    requires PrefixBounds(q, ord, prefix) && fe0 <= |ls|
    requires |ord| == |prefix| == |ls| == |contrib0| == |cur| == |q.terms|
    requires f <= d < END && AllBehind(cur, f) && EssentialFrom(cur, ord, fe0, d)
    requires fe0 <= on < |ls| && ord[on] < |cur| && cur[ord[on]].doc == d
    requires top.Valid() && Settled(top.heap, top.k, m, c, q, ls, f, d)
    requires fe0 > 0 ==> CannotBeat(m, top.heap, top.k, prefix[fe0 - 1])
    modifies cur, top
    ensures Ready(cur, c, q, ls) && AllBehind(cur, d + 1) && fe <= |ls| && EssentialFrom(cur, ord, fe, d + 1)
    ensures top.Valid() && Settled(top.heap, top.k, m, c, q, ls, d + 1, d + 1)
    ensures fe > 0 ==> CannotBeat(m, top.heap, top.k, prefix[fe - 1])
    ensures |contrib| == |ls| && Sum(AllLeft(cur)) < Sum(old(AllLeft(cur)))
  {
    hide *;
    OnDocMatches(cur, c, q, ls, ord[on], d);
    fe := fe0;
    var hit, partial, pruned;
    contrib, hit, partial := ScoreEssential(m, c, q, ls, cur, ord, fe, d, f, contrib0, on);
    pruned, contrib, hit := ScoreRest(m, c, q, ls, cur, ord, prefix, fe, d, f, top, contrib, hit, partial);
    if pruned {
      SettleOne(top.heap, top.k, m, c, q, ls, f, d);
      return;
    }
    fe := OfferDoc(m, c, q, ls, ord, prefix, fe, d, f, top, contrib, hit);
    EssentialLater(cur, ord, fe0, fe, d + 1);
  }

  /** Offer a completely scored document and move the partition if it was admitted. */
  method OfferDoc(m: Arithmetic, c: CodecKind, q: Query, ghost ls: seq<PostingList>, ghost ord: seq<nat>,
                  prefix: seq<real>, fe0: nat, d: u32, ghost f: nat, top: TopK, contrib: seq<real>, hit: seq<bool>)
    returns (fe: nat)
    requires ValidQuery(c, q, ls) && Permutation(ord, |ls|) && |prefix| == |ls| == |q.terms| && fe0 <= |ls|
    requires |contrib| == |hit| == |ls| && Found(q, ls, d, ord, 0, contrib, hit) && d in DocsOf(ls, |ls|)
    requires top.Valid() && Settled(top.heap, top.k, m, c, q, ls, f, d)
    requires fe0 > 0 ==> CannotBeat(m, top.heap, top.k, prefix[fe0 - 1])
    modifies top
    ensures fe0 <= fe <= |ls| && top.Valid() && Settled(top.heap, top.k, m, c, q, ls, d + 1, d + 1)
    ensures fe > 0 ==> CannotBeat(m, top.heap, top.k, prefix[fe - 1])
  {
    hide *;
    FoundScore(m, c, q, ls, d, ord, contrib, hit);
    SettlePush(top.heap, top.k, m, c, q, ls, f, d);
    var s := CanonicalSum(m, contrib, hit);
    PartitionPersists(m, c, q, ls, top.heap, top.k, f, d, ScoredDoc(d, s), prefix, fe0);
    var admitted := top.Push(d, s);
    fe := fe0;
    if admitted {
      fe := UpdatePartition(m, top, prefix, fe0);
    }
  }

  lemma EssentialStart(cur: seq<Cursor>, ord: seq<nat>)
    requires Permutation(ord, |cur|) && AllFrom(cur, 0)
    ensures EssentialFrom(cur, ord, 0, 0)
  {
  }

  lemma EssentialLater(cur: seq<Cursor>, ord: seq<nat>, fe: nat, fe': nat, f: nat)
    requires Permutation(ord, |cur|) && EssentialFrom(cur, ord, fe, f) && fe <= fe'
    ensures EssentialFrom(cur, ord, fe', f)
  {
  }

  lemma EssentialNone(cur: seq<Cursor>, ord: seq<nat>, fe: nat)
    requires Permutation(ord, |cur|) && fe >= |cur|
    ensures EssentialFrom(cur, ord, fe, END)
  {
  }

  lemma PartitionPersists(m: Arithmetic, c: CodecKind, q: Query, ls: seq<PostingList>, heap: seq<ScoredDoc>, k: nat,
                          f: nat, d: nat, x: ScoredDoc, prefix: seq<real>, fe: nat)
    requires ValidQuery(c, q, ls) && 0 < k && |heap| <= k && Settled(heap, k, m, c, q, ls, f, d)
    requires fe <= |prefix| && (fe > 0 ==> CannotBeat(m, heap, k, prefix[fe - 1]))
    ensures fe > 0 ==> CannotBeat(m, Offer(heap, k, x), k, prefix[fe - 1])
  {
    if fe > 0 {
      CannotBeatPersists(m, heap, k, x, prefix[fe - 1]);
    }
  }
}
