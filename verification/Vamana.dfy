/** VamanaIndex::build of engine/src/vector/vamana.cc: a graph that is rewritten in place, batch by batch, by
    phases whose jobs may run in any order. */
module Vamana {
  import opened Sequences
  import opened Numbers
  import Bits
  import opened Pruning
  import opened Grouping
  import opened InitialGraph

  /** Out-lists, by point. */
  type Graph = seq<seq<nat>>

  /** Everything a build is given: the number of points, the bounds on out-lists (at the end, and while
      building), the cap on candidates, what a search in a frozen graph expands for a point, and what the
      generator of a point yields. */
  datatype Env = Env(n: nat, R: nat, C: nat, cap: nat, dist: (nat, nat) -> real, search: (Graph, nat) -> seq<nat>,
                     draw: nat -> nat -> nat)

  ghost predicate GraphOk(n: nat, g: Graph, most: nat)
    ensures GraphOk(n, g, most) ==> |g| == n
  {
    |g| == n && forall i :: 0 <= i < n ==> RowOk(n, i, g[i], most)
  }

  /** Searches return points, and generators come up with enough of them. */
  ghost predicate ValidEnv(e: Env)
    ensures ValidEnv(e) ==> e.n > 0
  {
    && 0 < e.n < EMPTY_SLOT && 0 < e.R <= e.C
    && (forall i: nat :: i < e.n && e.n - 1 > e.R ==> Enough(e.n, i, e.draw(i), e.R))
    && (forall g, p: nat :: GraphOk(e.n, g, e.C) && p < e.n ==> AllBelow(e.search(g, p), e.n))
  }

  ghost predicate AllBelow(s: seq<nat>, n: nat) {
    forall i :: 0 <= i < |s| ==> s[i] < n
  }

  /** An order in which the jobs of a phase may run: each job once. */
  ghost predicate IsSchedule(sched: seq<nat>, jobs: nat)
    ensures IsSchedule(sched, jobs) ==> AllBelow(sched, jobs)
  {
    AllBelow(sched, jobs) && Distinct(sched) && forall j: nat :: j < jobs ==> j in sched
  }

  function MetricOf(e: Env, times: real -> real): Metric {
    Metric(e.dist, times)
  }

  /** `row` is what robust_prune makes of the candidates of point `p`. */
  ghost predicate Pruned(e: Env, times: real -> real, p: nat, cands: seq<nat>, row: seq<nat>) {
    IsPruned(MetricOf(e, times), p, cands, e.R, e.cap, row)
  }

  lemma PrunedSame(e: Env, times: real -> real, p: nat, cands: seq<nat>, row: seq<nat>, row': seq<nat>)
    requires Pruned(e, times, p, cands, row) && Pruned(e, times, p, cands, row')
    ensures row == row'
  {
    PrunedUnique(MetricOf(e, times), p, cands, cands, e.R, e.cap, row, row');
  }

  lemma PrunedRowOk(e: Env, times: real -> real, p: nat, cands: seq<nat>, row: seq<nat>)
    requires Pruned(e, times, p, cands, row) && AllBelow(cands, e.n)
    ensures RowOk(e.n, p, row, e.R)
  {
    hide IsPruned;
    PrunedMeaning(MetricOf(e, times), p, cands, e.R, e.cap, row);
    forall j | 0 <= j < |row| ensures row[j] < e.n && row[j] != p {
      assert row[j] in row;
    }
  }

  // ---------------------------------------------------------------------------------------------
  // One batch, as a relation between graphs
  // ---------------------------------------------------------------------------------------------

  /** Phase 1: the new out-lists of the batch's points, all from the same graph. */
  ghost predicate NewLists(e: Env, times: real -> real, g: Graph, batch: seq<nat>, lists: seq<seq<nat>>)
    requires |g| == e.n && AllBelow(batch, e.n)
  {
    && |lists| == |batch|
    && (forall j :: 0 <= j < |batch| ==> ListIs(e, times, g, batch[j], lists[j]))
  }

  ghost predicate ListIs(e: Env, times: real -> real, g: Graph, p: nat, list: seq<nat>)
    requires |g| == e.n && p < e.n
  {
    Pruned(e, times, p, e.search(g, p) + g[p], list)
  }

  /** Phase 2: the new lists replace the old ones, and nothing else changes. */
  ghost predicate Installed(g: Graph, batch: seq<nat>, lists: seq<seq<nat>>, h: Graph)
    requires |lists| == |batch| && AllBelow(batch, |g|)
  {
    && |h| == |g|
    && (forall j :: 0 <= j < |batch| ==> h[batch[j]] == lists[j])
    && (forall i :: 0 <= i < |g| && i !in batch ==> h[i] == g[i])
  }

  /** The sources that are not yet in the row. */
  function Extra(dst: nat, row: seq<nat>, srcs: seq<nat>): seq<nat> {
    if srcs == [] then []
    else
      var n := |srcs| - 1;
      var before := Extra(dst, row, srcs[..n]);
      if srcs[n] == dst || srcs[n] in row || srcs[n] in before then before else before + [srcs[n]]
  }

  /** Phase 3 for one destination: the back-edges are added, and the list is pruned if they do not fit. */
  ghost predicate BackRow(e: Env, times: real -> real, dst: nat, row: seq<nat>, srcs: seq<nat>, row': seq<nat>) {
    var extra := Extra(dst, row, srcs);
    if |row| + |extra| <= e.C then row' == row + extra else Pruned(e, times, dst, row + extra, row')
  }

  ghost predicate BackEdges(e: Env, times: real -> real, g: Graph, batch: seq<nat>, lists: seq<seq<nat>>, h: Graph)
    requires |g| == e.n && |lists| == |batch|
  {
    |h| == |g| && forall i :: 0 <= i < e.n ==> BackRow(e, times, i, g[i], Sources(batch, lists, i), h[i])
  }

  /** A batch: the three phases. */
  ghost predicate BatchStep(e: Env, times: real -> real, g: Graph, batch: seq<nat>, h: Graph)
    requires |g| == e.n && AllBelow(batch, e.n)
  {
    exists lists, mid: Graph ::
      NewLists(e, times, g, batch, lists) && Installed(g, batch, lists, mid) && |mid| == e.n
      && BackEdges(e, times, mid, batch, lists, h)
  }

  /** A batch has one outcome. */
  lemma BatchDetermined(e: Env, times: real -> real, g: Graph, batch: seq<nat>, h: Graph, h': Graph)
    requires |g| == e.n && AllBelow(batch, e.n) && Distinct(batch)
    requires BatchStep(e, times, g, batch, h) && BatchStep(e, times, g, batch, h')
    ensures h == h'
  {
    hide Pruned, Sources, Extra;
    var lists, mid: Graph :| NewLists(e, times, g, batch, lists) && Installed(g, batch, lists, mid) && |mid| == e.n
                             && BackEdges(e, times, mid, batch, lists, h);
    var lists', mid': Graph :| NewLists(e, times, g, batch, lists')
                             && Installed(g, batch, lists', mid') && |mid'| == e.n
                               && BackEdges(e, times, mid', batch, lists', h');
    forall j | 0 <= j < |batch| ensures lists[j] == lists'[j] {
      assert ListIs(e, times, g, batch[j], lists[j]) && ListIs(e, times, g, batch[j], lists'[j]);
      PrunedSame(e, times, batch[j], e.search(g, batch[j]) + g[batch[j]], lists[j], lists'[j]);
    }
    assert lists == lists';
    InstalledSame(g, batch, lists, mid, mid');
    forall i | 0 <= i < e.n ensures h[i] == h'[i] {
      assert BackRow(e, times, i, mid[i], Sources(batch, lists, i), h[i])
             && BackRow(e, times, i, mid[i], Sources(batch, lists, i), h'[i]);
      var extra := Extra(i, mid[i], Sources(batch, lists, i));
      if |mid[i]| + |extra| > e.C {
        PrunedSame(e, times, i, mid[i] + extra, h[i], h'[i]);
      }
    }
  }

  lemma InstalledSame(g: Graph, batch: seq<nat>, lists: seq<seq<nat>>, h: Graph, h': Graph)
    requires |lists| == |batch| && AllBelow(batch, |g|) && Installed(g, batch, lists, h)
    requires Installed(g, batch, lists, h')
    ensures h == h'
  {
    forall i | 0 <= i < |g| ensures h[i] == h'[i] {
      if i in batch {
        var j :| 0 <= j < |batch| && batch[j] == i;
      }
    }
  }

  // ---------------------------------------------------------------------------------------------
  // Invariants
  // ---------------------------------------------------------------------------------------------

  lemma ListsOk(e: Env, times: real -> real, g: Graph, batch: seq<nat>, lists: seq<seq<nat>>)
    requires ValidEnv(e) && GraphOk(e.n, g, e.C) && AllBelow(batch, e.n) && NewLists(e, times, g, batch, lists)
    ensures forall j :: 0 <= j < |batch| ==> RowOk(e.n, batch[j], lists[j], e.R)
  {
    hide Pruned;
    forall j | 0 <= j < |batch| ensures RowOk(e.n, batch[j], lists[j], e.R) {
      assert ListIs(e, times, g, batch[j], lists[j]);
      assert RowOk(e.n, batch[j], g[batch[j]], e.C);
      assert AllBelow(e.search(g, batch[j]) + g[batch[j]], e.n);
      PrunedRowOk(e, times, batch[j], e.search(g, batch[j]) + g[batch[j]], lists[j]);
    }
  }

  lemma {:induction false} SourcesBelow(batch: seq<nat>, lists: seq<seq<nat>>, dst: nat, n: nat)
    requires |lists| == |batch| && AllBelow(batch, n)
    ensures AllBelow(Sources(batch, lists, dst), n)
    ensures forall x :: x in Sources(batch, lists, dst) <==>
              exists j :: 0 <= j < |batch| && batch[j] == x && dst in lists[j]
  {
    if batch != [] {
      var m := |batch| - 1;
      SourcesBelow(batch[..m], lists[..m], dst, n);
      var s := Sources(batch[..m], lists[..m], dst);
      forall x
        ensures x in Sources(batch, lists, dst) <==> exists j :: 0 <= j < |batch| && batch[j] == x && dst in lists[j] {
        if j :| 0 <= j < |batch| && batch[j] == x && dst in lists[j] {
          if j < m {
            assert batch[..m][j] == x && dst in lists[..m][j];
          }
        }
        if x in s {
          var j :| 0 <= j < m && batch[..m][j] == x && dst in lists[..m][j];
          assert batch[j] == x && dst in lists[j];
        }
        if dst in lists[m] && x == batch[m] {
          assert batch[m] == x && dst in lists[m];
        }
      }
    }
  }

  lemma {:induction false} ExtraOk(n: nat, dst: nat, row: seq<nat>, srcs: seq<nat>, most: nat)
    requires RowOk(n, dst, row, most) && AllBelow(srcs, n)
    ensures RowOk(n, dst, row + Extra(dst, row, srcs), |row| + |Extra(dst, row, srcs)|)
    ensures forall x :: x in srcs && x != dst ==> x in row + Extra(dst, row, srcs)
    decreases |srcs|
  {
    hide RowOk;
    SameRow(n, dst, row, most);
    if srcs == [] {
      assert row + [] == row;
    } else {
      var m := |srcs| - 1;
      var before := Extra(dst, row, srcs[..m]);
      ExtraOk(n, dst, row, srcs[..m], most);
      assert srcs == srcs[..m] + [srcs[m]];
      if srcs[m] != dst && srcs[m] !in row && srcs[m] !in before {
        RowAdd(n, dst, row + before, srcs[m]);
        assert row + (before + [srcs[m]]) == row + before + [srcs[m]];
      }
    }
  }

  lemma SameRow(n: nat, dst: nat, row: seq<nat>, most: nat)
    requires RowOk(n, dst, row, most)
    ensures RowOk(n, dst, row, |row|)
  {
  }

  /** Every phase leaves lists of other points, each once, within the capacity. */
  lemma BatchKeeps(e: Env, times: real -> real, g: Graph, batch: seq<nat>, h: Graph)
    requires ValidEnv(e) && GraphOk(e.n, g, e.C) && AllBelow(batch, e.n) && BatchStep(e, times, g, batch, h)
    ensures GraphOk(e.n, h, e.C)
  {
    hide Pruned, ValidEnv, Sources, Extra, RowOk;
    var lists, mid: Graph :| NewLists(e, times, g, batch, lists) && Installed(g, batch, lists, mid) && |mid| == e.n
                             && BackEdges(e, times, mid, batch, lists, h);
    InstalledOk(e, times, g, batch, lists, mid);
    Bounds(e);
    forall i | 0 <= i < e.n ensures RowOk(e.n, i, h[i], e.C) {
      BackRowOk(e, times, mid, batch, lists, i, h[i]);
    }
  }

  lemma Bounds(e: Env)
    requires ValidEnv(e)
    ensures 0 < e.n < EMPTY_SLOT && 0 < e.R <= e.C
  {
  }

  lemma RowOkMore(n: nat, i: nat, row: seq<nat>, most: nat, more: nat)
    requires RowOk(n, i, row, most) && most <= more
    ensures RowOk(n, i, row, more)
  {
  }

  lemma BackRowOk(e: Env, times: real -> real, mid: Graph, batch: seq<nat>, lists: seq<seq<nat>>, i: nat, row: seq<nat>)
    requires e.R <= e.C && i < e.n == |mid| && |lists| == |batch| && AllBelow(batch, e.n)
    requires RowOk(e.n, i, mid[i], e.C) && BackRow(e, times, i, mid[i], Sources(batch, lists, i), row)
    ensures RowOk(e.n, i, row, e.C)
  {
    hide Pruned, Sources, Extra;
    var srcs := Sources(batch, lists, i);
    SourcesBelow(batch, lists, i, e.n);
    ExtraOk(e.n, i, mid[i], srcs, e.C);
    var all := mid[i] + Extra(i, mid[i], srcs);
    if |all| > e.C {
      assert AllBelow(all, e.n);
      PrunedRowOk(e, times, i, all, row);
    }
  }

  /** The points of a list, and those of a batch whose new lists have an edge to its point. */
  ghost function Answering(dst: nat, row: seq<nat>, batch: seq<nat>, lists: seq<seq<nat>>): (s: set<nat>)
    requires |lists| == |batch|
    ensures forall x: nat :: x in s <==>
              x in row || (x != dst && exists j :: 0 <= j < |batch| && batch[j] == x && dst in lists[j])
  {
    Members(row) + set j | 0 <= j < |batch| && dst in lists[j] && batch[j] != dst :: batch[j]
  }

  /** What phase 3 does to a list: it keeps what it has and appends the points that the batch's new lists call for, each
      once; only if that is more than the capacity, it is pruned from exactly those points. */
  lemma BackEdgesMeaning(e: Env, times: real -> real, mid: Graph, batch: seq<nat>, lists: seq<seq<nat>>, h: Graph,
                         dst: nat)
    requires ValidEnv(e) && GraphOk(e.n, mid, e.C) && |lists| == |batch| && AllBelow(batch, e.n)
    requires BackEdges(e, times, mid, batch, lists, h) && dst < e.n
    ensures var all := Answering(dst, mid[dst], batch, lists);
            if |all| <= e.C then
              mid[dst] <= h[dst] && Members(h[dst]) == all && |h[dst]| == |all|
            else exists cands: seq<nat> :: Members(cands) == all && Pruned(e, times, dst, cands, h[dst])
  {
    hide Pruned, Sources, Extra, RowOk, ValidEnv, Members, Answering;
    assert RowOk(e.n, dst, mid[dst], e.C);
    CandidatesAre(e, mid[dst], batch, lists, dst);
    assert BackRow(e, times, dst, mid[dst], Sources(batch, lists, dst), h[dst]);
  }

  lemma CandidatesAre(e: Env, row: seq<nat>, batch: seq<nat>, lists: seq<seq<nat>>, dst: nat)
    requires |lists| == |batch| && AllBelow(batch, e.n) && RowOk(e.n, dst, row, e.C)
    ensures var all := row + Extra(dst, row, Sources(batch, lists, dst));
            Members(all) == Answering(dst, row, batch, lists) && |Members(all)| == |all|
  {
    hide Sources, Extra, RowOk, Members, Answering;
    var srcs := Sources(batch, lists, dst);
    SourcesBelow(batch, lists, dst, e.n);
    ExtraOk(e.n, dst, row, srcs, e.C);
    ExtraMeaning(dst, row, srcs);
    var all := row + Extra(dst, row, srcs);
    assert Members(all) == Answering(dst, row, batch, lists);
    RowDistinct(e.n, dst, all, |all|);
    MembersSize(all);
  }

  lemma RowDistinct(n: nat, i: nat, row: seq<nat>, most: nat)
    requires RowOk(n, i, row, most)
    ensures forall j, k :: 0 <= j < k < |row| ==> row[j] != row[k]
  {
  }

  lemma {:induction false} ExtraMeaning(dst: nat, row: seq<nat>, srcs: seq<nat>)
    ensures forall x :: x in Extra(dst, row, srcs) <==> x in srcs && x != dst && x !in row
    decreases |srcs|
  {
    if srcs != [] {
      var n := |srcs| - 1;
      ExtraMeaning(dst, row, srcs[..n]);
      assert srcs == srcs[..n] + [srcs[n]];
    }
  }

  /** Every new edge is answered: its reverse is in the graph, unless the list it belongs in was pruned, with
      it among the candidates. */
  lemma EdgesAnswered(e: Env, times: real -> real, mid: Graph, batch: seq<nat>, lists: seq<seq<nat>>, h: Graph, j: nat,
                      dst: nat)
    requires ValidEnv(e) && GraphOk(e.n, mid, e.C) && |lists| == |batch| && AllBelow(batch, e.n)
    requires BackEdges(e, times, mid, batch, lists, h) && j < |batch| && dst in lists[j] && dst < e.n && dst != batch[j]
    ensures var all := mid[dst] + Extra(dst, mid[dst], Sources(batch, lists, dst));
            batch[j] in all && (batch[j] in h[dst] || (|all| > e.C && Pruned(e, times, dst, all, h[dst])))
  {
    hide Pruned, Sources, Extra, RowOk, ValidEnv;
    SourcesBelow(batch, lists, dst, e.n);
    assert RowOk(e.n, dst, mid[dst], e.C);
    ExtraOk(e.n, dst, mid[dst], Sources(batch, lists, dst), e.C);
    assert BackRow(e, times, dst, mid[dst], Sources(batch, lists, dst), h[dst]);
  }

  // ---------------------------------------------------------------------------------------------
  // A pass, the clean-up and the build, as relations
  // ---------------------------------------------------------------------------------------------

  function BatchAt(order: seq<nat>, pos: nat, b: nat): seq<nat>
    requires pos <= |order|
  {
    order[pos..pos + Min(b, |order| - pos)]
  }

  lemma BatchAtOk(order: seq<nat>, pos: nat, b: nat, n: nat)
    requires pos <= |order| && AllBelow(order, n) && Distinct(order)
    ensures AllBelow(BatchAt(order, pos, b), n) && Distinct(BatchAt(order, pos, b))
  {
    var s := BatchAt(order, pos, b);
    assert forall i :: 0 <= i < |s| ==> s[i] == order[pos + i];
  }

  /** The rest of a pass, from position `pos` with batches that double from `b`. */
  ghost predicate PassFrom(e: Env, times: real -> real, order: seq<nat>, most: nat, pos: nat, b: nat, g: Graph,
                           h: Graph)
    requires pos <= |order| && b > 0 && most > 0 && AllBelow(order, e.n) && Distinct(order) && |g| == e.n
    decreases |order| - pos
  {
    BatchAtOk(order, pos, b, e.n);
    if pos == |order| then h == g
    else exists mid: Graph :: |mid| == e.n && BatchStep(e, times, g, BatchAt(order, pos, b), mid)
                              && PassFrom(e, times, order, most, pos + Min(b, |order| - pos), Min(most, 2 * b), mid, h)
  }

  lemma {:induction false} PassDetermined(e: Env, times: real -> real, order: seq<nat>, most: nat, pos: nat, b: nat,
                                          g: Graph, h: Graph, h': Graph)
    requires pos <= |order| && b > 0 && most > 0 && AllBelow(order, e.n) && Distinct(order) && |g| == e.n
    requires PassFrom(e, times, order, most, pos, b, g, h) && PassFrom(e, times, order, most, pos, b, g, h')
    ensures h == h'
    decreases |order| - pos
  {
    hide BatchStep, AllBelow, Distinct;
    BatchAtOk(order, pos, b, e.n);
    if pos < |order| {
      var next, b' := pos + Min(b, |order| - pos), Min(most, 2 * b);
      var mid: Graph :| |mid| == e.n && BatchStep(e, times, g, BatchAt(order, pos, b), mid)
                        && PassFrom(e, times, order, most, next, b', mid, h);
      var mid': Graph :| |mid'| == e.n && BatchStep(e, times, g, BatchAt(order, pos, b), mid')
                         && PassFrom(e, times, order, most, next, b', mid', h');
      BatchDetermined(e, times, g, BatchAt(order, pos, b), mid, mid');
      PassDetermined(e, times, order, most, next, b', mid, h, h');
    }
  }

  /** One batch after another. */
  ghost predicate Chain(e: Env, times: real -> real, gs: seq<Graph>, bs: seq<seq<nat>>)
    ensures Chain(e, times, gs, bs) ==> |gs| == |bs| + 1
  {
    && |gs| == |bs| + 1 && (forall i :: 0 <= i < |gs| ==> |gs[i]| == e.n)
    && (forall i :: 0 <= i < |bs| ==> AllBelow(bs[i], e.n) && BatchStep(e, times, gs[i], bs[i], gs[i + 1]))
  }

  function Flat(bs: seq<seq<nat>>): seq<nat> {
    if bs == [] then [] else bs[0] + Flat(bs[1..])
  }

  /** Batch `k` has 2^k points, or `most` if that is fewer. */
  function Full(k: nat, most: nat): nat {
    Min(Bits.Pow2(k), most)
  }

  /** The sizes of batches from the `k`-th on: full, but for the last, which takes the rest. */
  ghost predicate Sized(bs: seq<seq<nat>>, most: nat, k: nat) {
    forall i :: 0 <= i < |bs| ==>
      0 < |bs[i]| <= Full(k + i, most) && (i < |bs| - 1 ==> |bs[i]| == Full(k + i, most))
  }

  lemma ChainNext(e: Env, times: real -> real, g: Graph, batch: seq<nat>, gs: seq<Graph>, bs: seq<seq<nat>>)
    requires Chain(e, times, gs, bs) && |g| == e.n && AllBelow(batch, e.n) && BatchStep(e, times, g, batch, gs[0])
    ensures Chain(e, times, [g] + gs, [batch] + bs)
  {
    hide BatchStep, AllBelow;
    var hs, cs := [g] + gs, [batch] + bs;
    forall i | 0 <= i < |cs| ensures AllBelow(cs[i], e.n) && BatchStep(e, times, hs[i], cs[i], hs[i + 1]) {
      assert i > 0 ==> cs[i] == bs[i - 1] && hs[i] == gs[i - 1] && hs[i + 1] == gs[i];
    }
  }

  lemma FullNext(k: nat, most: nat)
    ensures Min(most, 2 * Full(k, most)) == Full(k + 1, most) && (most > 0 ==> Full(k, most) > 0)
  {
  }

  lemma SizedNext(batch: seq<nat>, bs: seq<seq<nat>>, most: nat, k: nat)
    requires Sized(bs, most, k + 1) && 0 < |batch| <= Full(k, most) && (bs != [] ==> |batch| == Full(k, most))
    ensures Sized([batch] + bs, most, k)
  {
    hide Full;
    var cs := [batch] + bs;
    forall i | 0 <= i < |cs|
      ensures 0 < |cs[i]| <= Full(k + i, most) && (i < |cs| - 1 ==> |cs[i]| == Full(k + i, most))
    {
      assert i > 0 ==> cs[i] == bs[i - 1] && k + i == k + 1 + (i - 1);
    }
  }

  /** A pass cuts the order into batches whose sizes double up to `most`, and every point is in one. */
  lemma {:induction false} PassIsBatches(e: Env, times: real -> real, order: seq<nat>, most: nat, pos: nat, k: nat,
                                         g: Graph, h: Graph)
    returns (gs: seq<Graph>, bs: seq<seq<nat>>)
    requires pos <= |order| && most > 0 && AllBelow(order, e.n) && Distinct(order) && |g| == e.n && Full(k, most) > 0
    requires PassFrom(e, times, order, most, pos, Full(k, most), g, h)
    ensures Chain(e, times, gs, bs) && gs[0] == g && gs[|gs| - 1] == h
    ensures Flat(bs) == order[pos..] && Sized(bs, most, k)
    decreases |order| - pos
  {
    hide BatchStep, AllBelow, Distinct, Full, Chain, Sized;
    var b := Full(k, most);
    BatchAtOk(order, pos, b, e.n);
    if pos == |order| {
      gs, bs := [g], [];
      NoBatches(e, times, g, most, k);
    } else {
      var next, batch := pos + Min(b, |order| - pos), BatchAt(order, pos, b);
      var mid: Graph :| |mid| == e.n && BatchStep(e, times, g, batch, mid)
                        && PassFrom(e, times, order, most, next, Min(most, 2 * b), mid, h);
      FullNext(k, most);
      gs, bs := PassIsBatches(e, times, order, most, next, k + 1, mid, h);
      ChainNext(e, times, g, batch, gs, bs);
      assert |batch| == Min(b, |order| - pos);
      assert next == |order| ==> bs == [] by {
        if next == |order| && bs != [] {
          FirstBatch(bs, most, k + 1);
        }
      }
      SizedNext(batch, bs, most, k);
      assert order[pos..] == batch + order[next..];
      assert ([batch] + bs)[1..] == bs;
      gs, bs := [g] + gs, [batch] + bs;
    }
  }

  lemma FirstBatch(bs: seq<seq<nat>>, most: nat, k: nat)
    requires Sized(bs, most, k) && bs != []
    ensures |Flat(bs)| > 0
  {
  }

  lemma NoBatches(e: Env, times: real -> real, g: Graph, most: nat, k: nat)
    requires |g| == e.n
    ensures Chain(e, times, [g], []) && Sized([], most, k) && Flat([]) == []
  {
  }

  /** A pass, from its first batch of one point. */
  lemma PassMeaning(e: Env, times: real -> real, order: seq<nat>, most: nat, g: Graph, h: Graph)
    returns (gs: seq<Graph>, bs: seq<seq<nat>>)
    requires most > 0 && AllBelow(order, e.n) && Distinct(order) && |g| == e.n
    requires PassFrom(e, times, order, most, 0, 1, g, h)
    ensures Chain(e, times, gs, bs) && gs[0] == g && gs[|gs| - 1] == h
    ensures Flat(bs) == order && Sized(bs, most, 0)
  {
    hide PassFrom, Chain, Sized;
    assert Full(0, most) == 1;
    gs, bs := PassIsBatches(e, times, order, most, 0, 0, g, h);
    assert order[0..] == order;
  }

  /** The clean-up: lists longer than `R` are pruned. */
  ghost predicate Cleaned(e: Env, times: real -> real, g: Graph, h: Graph) {
    |g| == |h| == e.n && forall i :: 0 <= i < e.n ==> CleanRow(e, times, i, g[i], h[i])
  }

  ghost predicate CleanRow(e: Env, times: real -> real, i: nat, row: seq<nat>, row': seq<nat>) {
    if |row| <= e.R then row' == row else Pruned(e, times, i, row, row')
  }

  lemma CleanDetermined(e: Env, times: real -> real, g: Graph, h: Graph, h': Graph)
    requires Cleaned(e, times, g, h) && Cleaned(e, times, g, h')
    ensures h == h'
  {
    hide Pruned;
    forall i | 0 <= i < e.n ensures h[i] == h'[i] {
      assert CleanRow(e, times, i, g[i], h[i]) && CleanRow(e, times, i, g[i], h'[i]);
      if |g[i]| > e.R {
        PrunedSame(e, times, i, g[i], h[i], h'[i]);
      }
    }
  }

  lemma CleanKeeps(e: Env, times: real -> real, g: Graph, h: Graph)
    requires GraphOk(e.n, g, e.C) && Cleaned(e, times, g, h)
    ensures GraphOk(e.n, h, e.R)
    ensures forall i: nat :: i < e.n && |g[i]| <= e.R ==> h[i] == g[i]
  {
    hide Pruned;
    forall i: nat | i < e.n ensures RowOk(e.n, i, h[i], e.R) && (|g[i]| <= e.R ==> h[i] == g[i]) {
      assert RowOk(e.n, i, g[i], e.C) && CleanRow(e, times, i, g[i], h[i]);
      if |g[i]| > e.R {
        assert AllBelow(g[i], e.n);
        PrunedRowOk(e, times, i, g[i], h[i]);
      }
    }
  }

  // ---------------------------------------------------------------------------------------------
  // The phases, in place and in any order
  // ---------------------------------------------------------------------------------------------

  method ExtraSources(dst: nat, row: seq<nat>, srcs: seq<nat>) returns (extra: seq<nat>)
    ensures extra == Extra(dst, row, srcs)
  {
    extra := [];
    for i := 0 to |srcs|
      invariant extra == Extra(dst, row, srcs[..i])
    {
      assert srcs[..i + 1][..i] == srcs[..i];
      if srcs[i] != dst && srcs[i] !in row && srcs[i] !in extra {
        extra := extra + [srcs[i]];
      }
    }
    assert srcs[..|srcs|] == srcs;
  }

  class VamanaIndex {
    const e: Env
    var rows: Graph

    constructor (e: Env)
      ensures this.e == e && |rows| == e.n
    {
      this.e, rows := e, seq(e.n, _ => []);
    }

    /** The random graph: every point draws from its own generator. */
    method Init(sched: seq<nat>)
      requires ValidEnv(e) && |rows| == e.n && IsSchedule(sched, e.n)
      modifies this
      ensures InitIs(e, rows) && GraphOk(e.n, rows, e.C)
    {
      hide InitRowIs, ValidEnv, Distinct;
      for k := 0 to |sched|
        invariant |rows| == e.n
        invariant forall h :: 0 <= h < k ==> InitRowIs(e.n, e.R, sched[h], e.draw(sched[h]), rows[sched[h]])
      {
        var i := sched[k];
        EnoughDraws(e, i);
        var row := InitRow(e.n, e.R, i, e.draw(i));
        rows := rows[i := row];
      }
      forall i | 0 <= i < e.n ensures InitRowIs(e.n, e.R, i, e.draw(i), rows[i]) {
        assert i in sched;
        var k :| 0 <= k < |sched| && sched[k] == i;
      }
      InitOk(e, rows);
    }

    /** Phase 1 only reads the graph. */
    method SearchAndPrune(times: real -> real, batch: seq<nat>, sched: seq<nat>) returns (lists: seq<seq<nat>>)
      requires |rows| == e.n && AllBelow(batch, e.n) && IsSchedule(sched, |batch|)
      ensures NewLists(e, times, rows, batch, lists)
    {
      hide IsPruned, Distinct;
      lists := seq(|batch|, _ => []);
      for k := 0 to |sched|
        invariant |lists| == |batch|
        invariant forall i :: 0 <= i < k ==> ListIs(e, times, rows, batch[sched[i]], lists[sched[i]])
      {
        var j := sched[k];
        var out := RobustPrune(MetricOf(e, times), batch[j], e.search(rows, batch[j]) + rows[batch[j]], e.R, e.cap);
        lists := lists[j := out];
      }
      forall j | 0 <= j < |batch| ensures ListIs(e, times, rows, batch[j], lists[j]) {
        assert j in sched;
        var i :| 0 <= i < |sched| && sched[i] == j;
      }
    }

    /** Phase 2: every job writes its own row. */
    method Install(batch: seq<nat>, lists: seq<seq<nat>>, sched: seq<nat>)
      requires |rows| == e.n && AllBelow(batch, e.n) && Distinct(batch) && |lists| == |batch|
      requires IsSchedule(sched, |batch|)
      modifies this
      ensures Installed(old(rows), batch, lists, rows)
    {
      for k := 0 to |sched|
        invariant |rows| == e.n
        invariant forall i :: 0 <= i < k ==> rows[batch[sched[i]]] == lists[sched[i]]
        invariant forall i :: 0 <= i < e.n && i !in batch ==> rows[i] == old(rows)[i]
      {
        var j := sched[k];
        rows := rows[batch[j] := lists[j]];
      }
      forall j | 0 <= j < |batch| ensures rows[batch[j]] == lists[j] {
        assert j in sched;
        var i :| 0 <= i < |sched| && sched[i] == j;
      }
    }

    /** The job of one group: the sources that the row lacks are added, or it is pruned. */
    method AddGroup(times: real -> real, dst: nat, srcs: seq<nat>)
      requires |rows| == e.n && dst < e.n && RowOk(e.n, dst, rows[dst], e.C)
      modifies this
      ensures |rows| == e.n && BackRow(e, times, dst, old(rows)[dst], srcs, rows[dst])
      ensures forall i :: 0 <= i < e.n && i != dst ==> rows[i] == old(rows)[i]
    {
      hide IsPruned, Extra, RowOk;
      var row := rows[dst];
      var extra := ExtraSources(dst, row, srcs);
      Fits(e.n, dst, row, e.C);
      if extra == [] {
        assert row + [] == row;
      } else if |row| + |extra| <= e.C {
        rows := rows[dst := row + extra];
      } else {
        var out := RobustPrune(MetricOf(e, times), dst, row + extra, e.R, e.cap);
        rows := rows[dst := out];
      }
    }

    /** Phase 3: every group's job reads and writes its own destination's row. */
    method AddBackEdges(times: real -> real, batch: seq<nat>, lists: seq<seq<nat>>, groups: seq<Group>, sched: seq<nat>)
      requires GraphOk(e.n, rows, e.C) && |lists| == |batch| && GroupsOf(groups, batch, lists)
      requires (forall g :: 0 <= g < |groups| ==> groups[g].dst < e.n) && IsSchedule(sched, |groups|)
      modifies this
      ensures BackEdges(e, times, old(rows), batch, lists, rows)
    {
      hide IsPruned, Sources, Extra, RowOk, BackRow;
      ghost var before := rows;
      for k := 0 to |sched|
        invariant |rows| == e.n
        invariant forall i :: 0 <= i < k ==>
                    BackRow(e, times, groups[sched[i]].dst, before[groups[sched[i]].dst], groups[sched[i]].srcs,
                            rows[groups[sched[i]].dst])
        invariant forall i :: 0 <= i < e.n && (forall h :: 0 <= h < k ==> groups[sched[h]].dst != i) ==>
                  rows[i] == before[i]
      {
        var dst, srcs := groups[sched[k]].dst, groups[sched[k]].srcs;
        assert forall h :: 0 <= h < k ==> groups[sched[h]].dst != dst by {
          assert forall h :: 0 <= h < k ==> sched[h] != sched[k];
        }
        assert RowOk(e.n, dst, before[dst], e.C);
        AddGroup(times, dst, srcs);
      }
      forall i | 0 <= i < e.n ensures BackRow(e, times, i, before[i], Sources(batch, lists, i), rows[i]) {
        if InGroup(groups, i) {
          var g :| 0 <= g < |groups| && groups[g].dst == i;
          assert g in sched;
          var k :| 0 <= k < |sched| && sched[k] == g;
        } else {
          assert Sources(batch, lists, i) == [];
          assert RowOk(e.n, i, before[i], e.C);
          Untouched(e, times, i, before[i]);
          assert forall g :: 0 <= g < |groups| ==> groups[g].dst != i;
        }
      }
    }

    /** One batch, whatever the order of the jobs in its phases. */
    method Batch(times: real -> real, batch: seq<nat>, sched: (nat, nat) -> seq<nat>, step: nat)
      requires ValidEnv(e) && GraphOk(e.n, rows, e.C) && AllBelow(batch, e.n) && Distinct(batch) && Schedules(sched)
      modifies this
      ensures GraphOk(e.n, rows, e.C) && BatchStep(e, times, old(rows), batch, rows)
    {
      hide *;
      ghost var g := rows;
      Scheduled(sched, step, |batch|);
      Scheduled(sched, step + 1, |batch|);
      var lists := SearchAndPrune(times, batch, sched(step, |batch|));
      NewListsSize(e, times, g, batch, lists);
      Install(batch, lists, sched(step + 1, |batch|));
      ghost var mid := rows;
      InstalledOk(e, times, g, batch, lists, mid);
      NewListsDistinct(e, times, g, batch, lists);
      var groups := GroupEdges(batch, lists);
      GroupsBelow(e, times, g, batch, lists, groups);
      Scheduled(sched, step + 2, |groups|);
      AddBackEdges(times, batch, lists, groups, sched(step + 2, |groups|));
      StepIs(e, times, g, batch, lists, mid, rows);
      BatchKeeps(e, times, g, batch, rows);
    }

    /** A pass over the points, in batches that double. */
    method Pass(times: real -> real, order: seq<nat>, most: nat, sched: (nat, nat) -> seq<nat>,
                step0: nat) returns (step: nat)
      requires ValidEnv(e) && GraphOk(e.n, rows, e.C) && AllBelow(order, e.n) && Distinct(order) && most > 0
      requires Schedules(sched)
      modifies this
      ensures GraphOk(e.n, rows, e.C) && PassFrom(e, times, order, most, 0, 1, old(rows), rows)
    {
      hide *;
      var pos, b := 0, 1;
      step := step0;
      ghost var g := rows;
      while pos < |order|
        invariant pos <= |order| && b > 0 && GraphOk(e.n, rows, e.C)
        invariant forall h :: PassFrom(e, times, order, most, pos, b, rows, h) ==>
                  PassFrom(e, times, order, most, 0, 1, g, h)
      {
        ghost var before := rows;
        BatchAtOk(order, pos, b, e.n);
        var batch := BatchAt(order, pos, b);
        MinIs(b, |order| - pos);
        MinIs(most, 2 * b);
        Batch(times, batch, sched, step);
        forall h | PassFrom(e, times, order, most, pos + Min(b, |order| - pos), Min(most, 2 * b), rows, h)
          ensures PassFrom(e, times, order, most, pos, b, before, h)
        {
          PassNext(e, times, order, most, pos, b, before, rows, h);
        }
        pos, b, step := pos + Min(b, |order| - pos), Min(most, 2 * b), step + 3;
      }
      PassEnds(e, times, order, most, pos, b, rows);
    }

    /** Prune the lists that used the slack. */
    method CleanUp(times: real -> real, sched: seq<nat>)
      requires GraphOk(e.n, rows, e.C) && IsSchedule(sched, e.n)
      modifies this
      ensures Cleaned(e, times, old(rows), rows) && GraphOk(e.n, rows, e.R)
    {
      hide IsPruned, RowOk;
      ghost var before := rows;
      for k := 0 to |sched|
        invariant |rows| == e.n
        invariant forall i :: 0 <= i < k ==> CleanRow(e, times, sched[i], before[sched[i]], rows[sched[i]])
        invariant forall i :: 0 <= i < e.n && (forall h :: 0 <= h < k ==> sched[h] != i) ==> rows[i] == before[i]
      {
        var i := sched[k];
        if |rows[i]| > e.R {
          var out := RobustPrune(MetricOf(e, times), i, rows[i], e.R, e.cap);
          rows := rows[i := out];
        }
      }
      forall i | 0 <= i < e.n ensures CleanRow(e, times, i, before[i], rows[i]) {
        assert i in sched;
        var k :| 0 <= k < |sched| && sched[k] == i;
      }
      CleanKeeps(e, times, before, rows);
    }

    /** The build: the random graph, one pass or two, and the clean-up. */
    method Build(first: real -> real, last: real -> real, twoPass: bool, order: seq<nat>, most: nat,
                 sched: (nat, nat) -> seq<nat>)
      requires ValidEnv(e) && |rows| == e.n && IsSchedule(order, e.n) && most > 0 && Schedules(sched)
      modifies this
      ensures GraphOk(e.n, rows, e.R)
      ensures IsBuilt(e, first, last, twoPass, order, most, rows)
    {
      hide *;
      OrderOk(order, e.n);
      Scheduled(sched, 0, e.n);
      Init(sched(0, e.n));
      ghost var g := rows;
      var step := 1;
      if twoPass {
        step := Pass(first, order, most, sched, 1);
      }
      ghost var mid := rows;
      step := Pass(last, order, most, sched, step);
      ghost var end := rows;
      Scheduled(sched, step, e.n);
      CleanUp(last, sched(step, e.n));
      BuildIs(e, first, last, twoPass, order, most, g, mid, end, rows);
    }
  }

  /** The random graph that the generators give. */
  ghost predicate InitIs(e: Env, g: Graph)
    requires e.n > 0
    ensures InitIs(e, g) ==> |g| == e.n
  {
    |g| == e.n && forall i :: 0 <= i < e.n ==> InitRowIs(e.n, e.R, i, e.draw(i), g[i])
  }

  lemma EnoughDraws(e: Env, i: nat)
    requires ValidEnv(e) && i < e.n
    ensures e.n - 1 > e.R ==> Enough(e.n, i, e.draw(i), e.R)
  {
  }

  lemma InitOk(e: Env, g: Graph)
    requires ValidEnv(e) && InitIs(e, g)
    ensures GraphOk(e.n, g, e.R) && GraphOk(e.n, g, e.C)
  {
    hide InitRowIs, RowOk, ValidEnv;
    Bounds(e);
    forall i | 0 <= i < e.n ensures RowOk(e.n, i, g[i], e.R) && RowOk(e.n, i, g[i], e.C) {
      InitRowOk(e.n, e.R, i, e.draw(i), g[i]);
      RowOkMore(e.n, i, g[i], e.R, e.C);
    }
  }

  lemma InitDetermined(e: Env, g: Graph, h: Graph)
    requires e.n > 0 && InitIs(e, g) && InitIs(e, h)
    ensures g == h
  {
    hide InitRowIs;
    forall i | 0 <= i < e.n ensures g[i] == h[i] {
      InitRowUnique(e.n, e.R, i, e.draw(i), g[i], h[i]);
    }
  }

  /** An order for the jobs of every phase. */
  ghost predicate Schedules(sched: (nat, nat) -> seq<nat>) {
    forall step: nat, jobs: nat :: IsSchedule(sched(step, jobs), jobs)
  }

  lemma Scheduled(sched: (nat, nat) -> seq<nat>, step: nat, jobs: nat)
    requires Schedules(sched)
    ensures IsSchedule(sched(step, jobs), jobs)
  {
  }

  lemma NewListsSize(e: Env, times: real -> real, g: Graph, batch: seq<nat>, lists: seq<seq<nat>>)
    requires |g| == e.n && AllBelow(batch, e.n) && NewLists(e, times, g, batch, lists)
    ensures |lists| == |batch|
  {
  }

  lemma NewListsDistinct(e: Env, times: real -> real, g: Graph, batch: seq<nat>, lists: seq<seq<nat>>)
    requires ValidEnv(e) && GraphOk(e.n, g, e.C) && AllBelow(batch, e.n) && NewLists(e, times, g, batch, lists)
    ensures AllDistinct(lists)
  {
    hide ListIs, ValidEnv;
    ListsOk(e, times, g, batch, lists);
  }

  lemma GroupsBelow(e: Env, times: real -> real, g: Graph, batch: seq<nat>, lists: seq<seq<nat>>, groups: seq<Group>)
    requires ValidEnv(e) && GraphOk(e.n, g, e.C) && AllBelow(batch, e.n) && NewLists(e, times, g, batch, lists)
    requires GroupsOf(groups, batch, lists)
    ensures forall k :: 0 <= k < |groups| ==> groups[k].dst < e.n
  {
    hide ListIs, ValidEnv, Sources;
    ListsOk(e, times, g, batch, lists);
    forall k | 0 <= k < |groups| ensures groups[k].dst < e.n {
      var d := groups[k].dst;
      SourcesBelow(batch, lists, d, e.n);
      var x := Sources(batch, lists, d)[0];
      assert x in Sources(batch, lists, d);
      var j :| 0 <= j < |batch| && batch[j] == x && d in lists[j];
      assert RowOk(e.n, batch[j], lists[j], e.R);
    }
  }

  lemma InstalledOk(e: Env, times: real -> real, g: Graph, batch: seq<nat>, lists: seq<seq<nat>>, mid: Graph)
    requires ValidEnv(e) && GraphOk(e.n, g, e.C) && AllBelow(batch, e.n) && NewLists(e, times, g, batch, lists)
    requires Installed(g, batch, lists, mid)
    ensures GraphOk(e.n, mid, e.C)
  {
    hide ListIs, ValidEnv, RowOk;
    ListsOk(e, times, g, batch, lists);
    Bounds(e);
    forall i | 0 <= i < e.n ensures RowOk(e.n, i, mid[i], e.C) {
      if i in batch {
        var j :| 0 <= j < |batch| && batch[j] == i;
        RowOkMore(e.n, i, lists[j], e.R, e.C);
      }
    }
  }

  lemma StepIs(e: Env, times: real -> real, g: Graph, batch: seq<nat>, lists: seq<seq<nat>>, mid: Graph, h: Graph)
    requires |g| == e.n && AllBelow(batch, e.n) && NewLists(e, times, g, batch, lists)
    requires Installed(g, batch, lists, mid) && |mid| == e.n && BackEdges(e, times, mid, batch, lists, h)
    ensures BatchStep(e, times, g, batch, h)
  {
    hide ListIs, BackRow;
  }

  lemma MinIs(a: nat, b: nat)
    ensures Min(a, b) <= a && Min(a, b) <= b && (a > 0 && b > 0 ==> Min(a, b) > 0)
  {
  }

  lemma PassNext(e: Env, times: real -> real, order: seq<nat>, most: nat, pos: nat, b: nat, g: Graph, mid: Graph,
                 h: Graph)
    requires pos < |order| && b > 0 && most > 0 && AllBelow(order, e.n) && Distinct(order) && |g| == |mid| == e.n
    requires AllBelow(BatchAt(order, pos, b), e.n) && BatchStep(e, times, g, BatchAt(order, pos, b), mid)
    requires Min(b, |order| - pos) <= |order| - pos && Min(most, 2 * b) > 0
    requires PassFrom(e, times, order, most, pos + Min(b, |order| - pos), Min(most, 2 * b), mid, h)
    ensures PassFrom(e, times, order, most, pos, b, g, h)
  {
    hide BatchStep, AllBelow, Distinct, BatchAt;
  }

  lemma PassEnds(e: Env, times: real -> real, order: seq<nat>, most: nat, pos: nat, b: nat, g: Graph)
    requires pos == |order| && b > 0 && most > 0 && AllBelow(order, e.n) && Distinct(order) && |g| == e.n
    ensures PassFrom(e, times, order, most, pos, b, g, g)
  {
  }

  lemma OrderOk(order: seq<nat>, n: nat)
    requires IsSchedule(order, n)
    ensures AllBelow(order, n) && Distinct(order)
  {
  }

  /** What a build makes; no schedule is mentioned. */
  ghost predicate IsBuilt(e: Env, first: real -> real, last: real -> real, twoPass: bool, order: seq<nat>, most: nat,
                          h: Graph)
    requires AllBelow(order, e.n) && Distinct(order) && most > 0 && e.n > 0
  {
    exists g: Graph, mid: Graph, end: Graph :: BuiltBy(e, first, last, twoPass, order, most, g, mid, end, h)
  }

  /** The random graph, the graphs after the passes, and the graph after the clean-up. */
  ghost predicate BuiltBy(e: Env, first: real -> real, last: real -> real, twoPass: bool, order: seq<nat>, most: nat,
                          g: Graph, mid: Graph, end: Graph, h: Graph)
    requires AllBelow(order, e.n) && Distinct(order) && most > 0 && e.n > 0
  {
    && InitIs(e, g)
    && |mid| == e.n && (if twoPass then PassFrom(e, first, order, most, 0, 1, g, mid) else mid == g)
    && PassFrom(e, last, order, most, 0, 1, mid, end)
    && Cleaned(e, last, end, h)
  }

  lemma BuildIs(e: Env, first: real -> real, last: real -> real, twoPass: bool, order: seq<nat>, most: nat,
                g: Graph, mid: Graph, end: Graph, h: Graph)
    requires AllBelow(order, e.n) && Distinct(order) && most > 0 && e.n > 0 && InitIs(e, g) && |mid| == e.n
    requires if twoPass then PassFrom(e, first, order, most, 0, 1, g, mid) else mid == g
    requires PassFrom(e, last, order, most, 0, 1, mid, end) && Cleaned(e, last, end, h)
    ensures IsBuilt(e, first, last, twoPass, order, most, h)
  {
    hide PassFrom, Cleaned, InitIs;
    assert BuiltBy(e, first, last, twoPass, order, most, g, mid, end, h);
  }

  /** The data, the draws and the order determine the graph. */
  lemma BuildDetermined(e: Env, first: real -> real, last: real -> real, twoPass: bool, order: seq<nat>, most: nat,
                        h: Graph, h': Graph)
    requires AllBelow(order, e.n) && Distinct(order) && most > 0 && e.n > 0
    requires IsBuilt(e, first, last, twoPass, order, most, h) && IsBuilt(e, first, last, twoPass, order, most, h')
    ensures h == h'
  {
    hide PassFrom, Cleaned, AllBelow, Distinct;
    var g: Graph, mid: Graph, end: Graph :| BuiltBy(e, first, last, twoPass, order, most, g, mid, end, h);
    var g': Graph, mid': Graph, end': Graph :| BuiltBy(e, first, last, twoPass, order, most, g', mid', end', h');
    InitDetermined(e, g, g');
    if twoPass {
      PassDetermined(e, first, order, most, 0, 1, g, mid, mid');
    }
    PassDetermined(e, last, order, most, 0, 1, mid, end, end');
    CleanDetermined(e, last, end, h, h');
  }

  /** Two builds of the same data give the same graph, however their jobs were scheduled. */
  method BuildTwice(e: Env, first: real -> real, last: real -> real, twoPass: bool, order: seq<nat>, most: nat,
                    sched1: (nat, nat) -> seq<nat>, sched2: (nat, nat) -> seq<nat>)
    returns (g: Graph, h: Graph)
    requires ValidEnv(e) && IsSchedule(order, e.n) && most > 0 && Schedules(sched1) && Schedules(sched2)
    ensures g == h && GraphOk(e.n, g, e.R)
  {
    hide *;
    OrderOk(order, e.n);
    var ix1 := new VamanaIndex(e);
    ix1.Build(first, last, twoPass, order, most, sched1);
    var ix2 := new VamanaIndex(e);
    ix2.Build(first, last, twoPass, order, most, sched2);
    g, h := ix1.rows, ix2.rows;
    BuildDetermined(e, first, last, twoPass, order, most, g, h);
  }

  lemma Fits(n: nat, i: nat, row: seq<nat>, most: nat)
    requires RowOk(n, i, row, most)
    ensures |row| <= most
  {
  }

  lemma Untouched(e: Env, times: real -> real, i: nat, row: seq<nat>)
    requires RowOk(e.n, i, row, e.C)
    ensures BackRow(e, times, i, row, [], row)
  {
    assert row + [] == row;
  }
}
