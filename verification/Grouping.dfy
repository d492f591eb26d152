/** How VamanaIndex::build (engine/src/vector/vamana.cc) collects the back-edges of a batch: pairs of destination
    and source, sorted stably by destination and cut into groups. */
module Grouping {
  import opened Sequences

  datatype Pair = Pair(dst: nat, src: nat)

  /** The points of the batch whose new lists hold `dst`, in the order of the batch. */
  function Sources(batch: seq<nat>, lists: seq<seq<nat>>, dst: nat): seq<nat>
    requires |lists| == |batch|
  {
    if batch == [] then []
    else
      var n := |batch| - 1;
      Sources(batch[..n], lists[..n], dst) + if dst in lists[n] then [batch[n]] else []
  }

  /** The sources that some pairs have for one destination, in their order. */
  ghost function Sel(pairs: seq<Pair>, d: nat): seq<nat> {
    if pairs == [] then []
    else
      var n := |pairs| - 1;
      Sel(pairs[..n], d) + if pairs[n].dst == d then [pairs[n].src] else []
  }

  lemma SelNext(pairs: seq<Pair>, x: Pair, d: nat)
    ensures Sel(pairs + [x], d) == Sel(pairs, d) + if x.dst == d then [x.src] else []
  {
    assert (pairs + [x])[..|pairs|] == pairs;
  }

  lemma {:induction false} SelConcat(a: seq<Pair>, b: seq<Pair>, d: nat)
    ensures Sel(a + b, d) == Sel(a, d) + Sel(b, d)
    decreases |b|
  {
    if b == [] {
      assert a + b == a;
    } else {
      var n := |b| - 1;
      SelConcat(a, b[..n], d);
      assert a + b == (a + b[..n]) + [b[n]];
      SelNext(a + b[..n], b[n], d);
    }
  }

  lemma {:induction false} SelNone(pairs: seq<Pair>, d: nat)
    requires forall i :: 0 <= i < |pairs| ==> pairs[i].dst != d
    ensures Sel(pairs, d) == []
  {
    if pairs != [] {
      SelNone(pairs[..|pairs| - 1], d);
    }
  }

  ghost predicate AllDistinct(lists: seq<seq<nat>>) {
    forall j :: 0 <= j < |lists| ==> Distinct(lists[j])
  }

  /** One pair for each edge from a point of the batch. */
  method PairUp(batch: seq<nat>, lists: seq<seq<nat>>) returns (pairs: seq<Pair>)
    requires |lists| == |batch| && AllDistinct(lists)
    ensures forall d :: Sel(pairs, d) == Sources(batch, lists, d)
  {
    hide Sel, Sources, Distinct;
    pairs := [];
    NoPairs();
    for j := 0 to |batch|
      invariant forall d :: Sel(pairs, d) == Sources(batch[..j], lists[..j], d)
    {
      assert Distinct(lists[j]);
      ghost var before := pairs;
      for e := 0 to |lists[j]|
        invariant forall d :: Sel(pairs, d) == Sel(before, d) + if d in lists[j][..e] then [batch[j]] else []
      {
        EdgeNext(before, pairs, batch[j], lists[j], e);
        pairs := pairs + [Pair(lists[j][e], batch[j])];
      }
      assert lists[j][..|lists[j]|] == lists[j];
      forall d ensures Sources(batch[..j + 1], lists[..j + 1], d)
                    == Sources(batch[..j], lists[..j], d) + if d in lists[j] then [batch[j]] else []
      {
        SourcesNext(batch, lists, j, d);
      }
    }
    assert batch[..|batch|] == batch && lists[..|lists|] == lists;
  }

  lemma NoPairs()
    ensures (forall d :: Sel([], d) == []) && forall d :: Sources([], [], d) == []
  {
  }

  lemma EdgeNext(before: seq<Pair>, pairs: seq<Pair>, src: nat, list: seq<nat>, e: nat)
    requires e < |list| && Distinct(list)
    requires forall d :: Sel(pairs, d) == Sel(before, d) + if d in list[..e] then [src] else []
    ensures forall d ::
              Sel(pairs + [Pair(list[e], src)], d) == Sel(before, d) + if d in list[..e + 1] then [src] else []
  {
    assert list[..e + 1] == list[..e] + [list[e]];
    forall d ensures Sel(pairs + [Pair(list[e], src)], d) == Sel(before, d) + if d in list[..e + 1] then [src] else [] {
      SelNext(pairs, Pair(list[e], src), d);
    }
  }

  lemma SourcesNext(batch: seq<nat>, lists: seq<seq<nat>>, j: nat, d: nat)
    requires j < |batch| == |lists|
    ensures Sources(batch[..j + 1], lists[..j + 1], d)
         == Sources(batch[..j], lists[..j], d) + if d in lists[j] then [batch[j]] else []
  {
    assert batch[..j + 1][..j] == batch[..j] && lists[..j + 1][..j] == lists[..j];
  }

  ghost predicate ByDst(pairs: seq<Pair>) {
    forall i, j :: 0 <= i < j < |pairs| ==> pairs[i].dst <= pairs[j].dst
  }

  /** Put `x` after everything that may stand before it. */
  method Insert(s: seq<Pair>, x: Pair) returns (r: seq<Pair>)
    requires ByDst(s)
    ensures ByDst(r) && forall d :: Sel(r, d) == Sel(s, d) + if x.dst == d then [x.src] else []
  {
    hide Sel, ByDst;
    var p: nat := |s|;
    while p > 0 && s[p - 1].dst > x.dst
      invariant p <= |s| && forall k :: p <= k < |s| ==> s[k].dst > x.dst
    {
      p := p - 1;
    }
    var a, b := s[..p], s[p..];
    assert a + b == s;
    Inserted(a, x, b);
    r := a + [x] + b;
  }

  /** std::stable_sort by destination: pairs of one destination keep their order. */
  method StableSort(pairs: seq<Pair>) returns (s: seq<Pair>)
    ensures ByDst(s) && forall d :: Sel(s, d) == Sel(pairs, d)
  {
    hide Sel;
    s := [];
    for i := 0 to |pairs|
      invariant ByDst(s) && forall d :: Sel(s, d) == Sel(pairs[..i], d)
    {
      var x := pairs[i];
      assert pairs[..i + 1] == pairs[..i] + [x];
      forall d ensures Sel(pairs[..i + 1], d) == Sel(pairs[..i], d) + if x.dst == d then [x.src] else [] {
        SelNext(pairs[..i], x, d);
      }
      s := Insert(s, x);
    }
    assert pairs[..|pairs|] == pairs;
  }

  /** Adding `x` between what may stand before it and what must stand after it. */
  lemma Inserted(a: seq<Pair>, x: Pair, b: seq<Pair>)
    requires ByDst(a + b) && (forall k :: 0 <= k < |b| ==> b[k].dst > x.dst) && (a != [] ==> a[|a| - 1].dst <= x.dst)
    ensures ByDst(a + [x] + b)
    ensures forall d :: Sel(a + [x] + b, d) == Sel(a + b, d) + if x.dst == d then [x.src] else []
  {
    hide Sel, ByDst;
    SortedBetween(a, x, b);
    forall d ensures Sel(a + [x] + b, d) == Sel(a + b, d) + if x.dst == d then [x.src] else [] {
      InsertedSel(a, x, b, d);
    }
  }

  lemma InsertedSel(a: seq<Pair>, x: Pair, b: seq<Pair>, d: nat)
    requires forall k :: 0 <= k < |b| ==> b[k].dst > x.dst
    ensures Sel(a + [x] + b, d) == Sel(a + b, d) + if x.dst == d then [x.src] else []
  {
    hide Sel;
    SelConcat(a + [x], b, d);
    SelNext(a, x, d);
    SelConcat(a, b, d);
    if x.dst == d {
      SelNone(b, d);
    }
  }

  lemma SortedBetween(a: seq<Pair>, x: Pair, b: seq<Pair>)
    requires ByDst(a + b) && (forall k :: 0 <= k < |b| ==> b[k].dst > x.dst) && (a != [] ==> a[|a| - 1].dst <= x.dst)
    ensures ByDst(a + [x] + b)
  {
    var s, r := a + b, a + [x] + b;
    assert forall i :: 0 <= i < |a| ==> r[i] == s[i];
    assert forall i :: |a| < i < |r| ==> r[i] == s[i - 1];
    assert forall i :: 0 <= i < |a| ==> s[i].dst <= s[|a| - 1].dst;
  }

  datatype Group = Group(dst: nat, srcs: seq<nat>)

  /** Groups of pairs: each destination once, in ascending order, with all its sources. */
  ghost predicate Grouped(groups: seq<Group>, pairs: seq<Pair>) {
    && (forall g, h :: 0 <= g < h < |groups| ==> groups[g].dst < groups[h].dst)
    && (forall g :: 0 <= g < |groups| ==> groups[g].srcs == Sel(pairs, groups[g].dst) && groups[g].srcs != [])
    && (forall i :: 0 <= i < |pairs| ==> InGroup(groups, pairs[i].dst))
  }

  ghost predicate InGroup(groups: seq<Group>, d: nat) {
    exists g :: 0 <= g < |groups| && groups[g].dst == d
  }

  /** Cut sorted pairs where the destination changes. */
  method Cut(pairs: seq<Pair>) returns (groups: seq<Group>)
    requires ByDst(pairs)
    ensures Grouped(groups, pairs)
  {
    hide Sel;
    groups := [];
    for i := 0 to |pairs|
      invariant Grouped(groups, pairs[..i]) && (i == 0 <==> groups == [])
      invariant i > 0 ==> groups[|groups| - 1].dst == pairs[i - 1].dst
    {
      CutNext(groups, pairs, i);
      if i == 0 || pairs[i].dst != pairs[i - 1].dst {
        groups := groups + [Group(pairs[i].dst, [pairs[i].src])];
      } else {
        var last := groups[|groups| - 1];
        groups := groups[..|groups| - 1] + [Group(last.dst, last.srcs + [pairs[i].src])];
      }
    }
    assert pairs[..|pairs|] == pairs;
  }

  lemma CutNext(groups: seq<Group>, pairs: seq<Pair>, i: nat)
    requires ByDst(pairs) && i < |pairs| && Grouped(groups, pairs[..i]) && (i == 0 <==> groups == [])
    requires i > 0 ==> groups[|groups| - 1].dst == pairs[i - 1].dst
    ensures i == 0 || pairs[i].dst != pairs[i - 1].dst ==>
              Grouped(groups + [Group(pairs[i].dst, [pairs[i].src])], pairs[..i + 1])
    ensures i > 0 && pairs[i].dst == pairs[i - 1].dst ==>
              var last := groups[|groups| - 1];
              Grouped(groups[..|groups| - 1] + [Group(last.dst, last.srcs + [pairs[i].src])], pairs[..i + 1])
  {
    hide Sel;
    var x, n := pairs[i], |groups|;
    assert pairs[..i + 1] == pairs[..i] + [x];
    forall d ensures Sel(pairs[..i + 1], d) == Sel(pairs[..i], d) + if x.dst == d then [x.src] else [] {
      SelNext(pairs[..i], x, d);
    }
    if i == 0 || x.dst != pairs[i - 1].dst {
      var more := groups + [Group(x.dst, [x.src])];
      SelNone(pairs[..i], x.dst);
      assert more[n].dst == x.dst;
      StillInGroups(groups, more, pairs, i);
    } else {
      var last := groups[n - 1];
      var more := groups[..n - 1] + [Group(last.dst, last.srcs + [x.src])];
      assert more[n - 1].dst == x.dst;
      StillInGroups(groups, more, pairs, i);
    }
  }

  lemma StillInGroups(groups: seq<Group>, more: seq<Group>, pairs: seq<Pair>, i: nat)
    requires i < |pairs| && Grouped(groups, pairs[..i]) && |groups| <= |more| && InGroup(more, pairs[i].dst)
    requires forall g :: 0 <= g < |groups| ==> more[g].dst == groups[g].dst
    ensures forall k :: 0 <= k < i + 1 ==> InGroup(more, pairs[k].dst)
  {
    forall k | 0 <= k < i ensures InGroup(more, pairs[k].dst) {
      assert pairs[..i][k] == pairs[k];
      var g :| 0 <= g < |groups| && groups[g].dst == pairs[k].dst;
      assert more[g].dst == pairs[k].dst;
    }
  }

  /** The destinations of a batch's edges, each once, with the batch's points that have an edge to it. */
  ghost predicate GroupsOf(groups: seq<Group>, batch: seq<nat>, lists: seq<seq<nat>>)
    requires |lists| == |batch|
  {
    && (forall g, h :: 0 <= g < h < |groups| ==> groups[g].dst < groups[h].dst)
    && (forall g :: 0 <= g < |groups| ==> groups[g].srcs == Sources(batch, lists, groups[g].dst))
    && (forall d :: Sources(batch, lists, d) != [] ==> InGroup(groups, d))
    && (forall g :: 0 <= g < |groups| ==> Sources(batch, lists, groups[g].dst) != [])
  }

  method GroupEdges(batch: seq<nat>, lists: seq<seq<nat>>) returns (groups: seq<Group>)
    requires |lists| == |batch| && AllDistinct(lists)
    ensures GroupsOf(groups, batch, lists)
  {
    hide Sel, Sources, AllDistinct;
    var pairs := PairUp(batch, lists);
    var sorted := StableSort(pairs);
    groups := Cut(sorted);
    forall d | Sources(batch, lists, d) != [] ensures InGroup(groups, d) {
      if forall i :: 0 <= i < |sorted| ==> sorted[i].dst != d {
        SelNone(sorted, d);
      }
      var i :| 0 <= i < |sorted| && sorted[i].dst == d;
    }
  }
}
