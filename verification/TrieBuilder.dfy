/** CompletionTrie.Builder of broker/HybridSearch.Broker/Autocomplete/CompletionTrie.cs. */
module TrieBuilder {
  import opened Bits
  import opened ByteStrings
  import opened Ranking
  import opened TrieLayout
  import opened TrieTops

  /** A node appended, with its label. */
  function Appended(a: Nodes, labelStart: nat, labelLen: nat): Nodes {
    Nodes(a.labelStart + [labelStart], a.labelLen + [labelLen], a.firstChild + [0], a.childCount + [0],
          a.topStart + [0], a.topCount + [0], a.top)
  }

  /** `b` is `a` with nodes and completions added, and entries of `node` other than its label changed. */
  ghost predicate Grown(a: Nodes, b: Nodes, node: nat)
    requires Shape(a) && Shape(b)
  {
    && |a.labelStart| <= |b.labelStart| && a.top <= b.top
    && (forall i :: 0 <= i < |a.labelStart| && i != node ==> Agree(a, b, i))
    && (node < |a.labelStart| ==> a.labelStart[node] == b.labelStart[node] && a.labelLen[node] == b.labelLen[node])
  }

  /** Every new node carries its group's label. */
  ghost predicate Labelled(a: Nodes, t: Table, first: nat, gs: seq<Group>, n: nat, depth: nat)
    requires Shape(a)
  {
    forall g :: 0 <= g < n && g < |gs| ==> LabelOk(a, t, first + g, gs[g], depth)
  }

  /** The first `n` children are roots of finished tries, below which no node comes before `start`. */
  ghost predicate Finished(a: Nodes, t: Table, strs: seq<Bytes>, k: nat, first: nat, gs: seq<Group>, n: nat, depth: nat,
                           start: nat)
    requires Shape(a) && Holds(t, strs)
  {
    && (forall g :: 0 <= g < |gs| ==> GroupOk(strs, gs[g], depth))
    && (forall g :: 0 <= g < n && g < |gs| ==> ChildOf(a, t, strs, k, first + g, gs[g], start))
  }

  class Builder {
    const t: Table
    const maxK: nat
    var labelStart: seq<nat>
    var labelLen: seq<nat>
    var firstChild: seq<nat>
    var childCount: seq<nat>
    var topStart: seq<nat>
    var topCount: seq<nat>
    var top: seq<nat>

    function View(): (a: Nodes)
      reads this
      ensures a.labelStart == labelStart && a.firstChild == firstChild && a.childCount == childCount
      ensures a.topStart == topStart && a.topCount == topCount && a.top == top
    {
      Nodes(labelStart, labelLen, firstChild, childCount, topStart, topCount, top)
    }

    ghost predicate Valid(strs: seq<Bytes>)
      reads this
      ensures Valid(strs) ==> Holds(t, strs) && Shape(View())
    {
      Holds(t, strs) && Shape(View()) && maxK > 0
    }

    constructor (t: Table, maxK: nat, ghost strs: seq<Bytes>)
      requires Holds(t, strs) && maxK > 0
      ensures Valid(strs) && labelStart == [] && this.t == t && this.maxK == maxK
    {
      this.t, this.maxK := t, maxK;
      labelStart, labelLen, firstChild, childCount, topStart, topCount, top := [], [], [], [], [], [], [];
    }

    method NewNode(start: nat, len: nat) returns (id: nat)
      modifies this
      ensures id == |old(labelStart)| && View() == Appended(old(View()), start, len)
    {
      labelStart, labelLen := labelStart + [start], labelLen + [len];
      firstChild, childCount, topStart, topCount := firstChild + [0], childCount + [0], topStart + [0], topCount + [0];
      id := |labelStart| - 1;
    }

    function At(s: nat, i: nat, ghost strs: seq<Bytes>): (b: byte)
      requires Holds(t, strs) && s < |strs| && i < |strs[s]|
      ensures b == strs[s][i]
    {
      ByteAt(t, strs, s, i);
      t.blob[t.strOffset[s] + i]
    }

    method LcpOf(a: nat, b: nat, from: nat, ghost strs: seq<Bytes>) returns (i: nat)
      requires Holds(t, strs) && a < |strs| && b < |strs| && from <= |strs[a]| && from <= |strs[b]|
      ensures i == Lcp(strs[a], strs[b], from)
    {
      assert StringAt(t, a, strs[a]) && StringAt(t, b, strs[b]);
      var max := if t.strLen[a] < t.strLen[b] then t.strLen[a] else t.strLen[b];
      i := from;
      while i < max && At(a, i, strs) == At(b, i, strs)
        invariant from <= i <= max && Lcp(strs[a], strs[b], from) == Lcp(strs[a], strs[b], i)
      {
        i := i + 1;
      }
    }

    /** The end of the run of strings with the byte of string `i`. */
    method FindRun(i: nat, hi: nat, depth: nat, ghost strs: seq<Bytes>) returns (j: nat)
      requires Holds(t, strs) && i < hi <= |strs| && forall s :: i <= s < hi ==> |strs[s]| > depth
      ensures j == RunEnd(strs, i, i + 1, hi, depth)
    {
      hide Holds;
      var b := At(i, depth, strs);
      j := i + 1;
      while j < hi && At(j, depth, strs) == b
        invariant i < j <= hi && RunEnd(strs, i, i + 1, hi, depth) == RunEnd(strs, i, j, hi, depth)
      {
        j := j + 1;
      }
    }

    /** The string that ends at a node, or -1, and the node's groups. */
    method FindGroups(lo: nat, hi: nat, depth: nat, ghost strs: seq<Bytes>) returns (terminal: int, groups: seq<Group>)
      requires Holds(t, strs) && Share(strs, lo, hi, depth)
      ensures terminal == if Rest(strs, lo, hi, depth) == lo then -1 else lo
      ensures groups == Children(strs, lo, hi, depth)
    {
      hide *;
      StartGroups(t, strs, lo, hi, depth);
      terminal := -1;
      var i := lo;
      if t.strLen[lo] == depth {
        terminal := lo;
        i := lo + 1;
      }
      groups := [];
      ghost var rest := i;
      while i < hi
        invariant rest <= i <= hi && groups + Groups(strs, i, hi, depth) == Groups(strs, rest, hi, depth)
      {
        var j := FindRun(i, hi, depth, strs);
        GroupsStep(strs, i, hi, depth, groups);
        var lcp := LcpOf(i, j - 1, depth + 1, strs);
        groups := groups + [Group(i, j, lcp)];
        i := j;
      }
      GroupsEnd(strs, hi, depth, groups);
    }

    /** Allocate a node's children next to each other. */
    method AddChildren(groups: seq<Group>, depth: nat, ghost strs: seq<Bytes>)
      requires Valid(strs) && forall g :: 0 <= g < |groups| ==> GroupOk(strs, groups[g], depth)
      modifies this
      ensures Valid(strs) && |labelStart| == |old(labelStart)| + |groups| && top == old(top)
      ensures forall i :: 0 <= i < |old(labelStart)| ==> Agree(old(View()), View(), i)
      ensures Labelled(View(), t, |old(labelStart)|, groups, |groups|, depth)
    {
      hide Holds;
      ghost var before := View();
      for g := 0 to |groups|
        invariant Valid(strs) && |labelStart| == |before.labelStart| + g && top == before.top
        invariant forall i :: 0 <= i < |before.labelStart| ==> Agree(before, View(), i)
        invariant Labelled(View(), t, |before.labelStart|, groups, g, depth)
      {
        assert GroupOk(strs, groups[g], depth);
        ghost var a := View();
        var _ := NewNode(t.strOffset[groups[g].lo] + depth, groups[g].lcp - depth);
        LabelsStay(a, View(), t, |before.labelStart|, groups, g, depth);
        AppendKeeps(before, a, View());
      }
    }

    /** Build the tries below a node's children, one after another. */
    method BuildChildren(first: nat, groups: seq<Group>, depth: nat, ghost strs: seq<Bytes>, ghost longest: nat)
      requires Valid(strs) && first + |groups| == |labelStart| && Labelled(View(), t, first, groups, |groups|, depth)
      requires forall g :: 0 <= g < |groups| ==> GroupOk(strs, groups[g], depth)
      requires (forall s :: 0 <= s < |strs| ==> |strs[s]| <= longest) && depth <= longest
      modifies this
      ensures Valid(strs) && first + |groups| <= |labelStart| && old(top) <= top
      ensures forall i :: 0 <= i < first ==> Agree(old(View()), View(), i)
      ensures Labelled(View(), t, first, groups, |groups|, depth)
      ensures Finished(View(), t, strs, maxK, first, groups, |groups|, depth, first)
      ensures |labelStart| <= first + 2 * TotalSize(groups) - |groups|
      decreases longest - depth, 1
    {
      hide *;
      ghost var before := View();
      NoneFinished(before, t, strs, maxK, first, groups, depth);
      for g := 0 to |groups|
        invariant Valid(strs) && first + |groups| <= |labelStart| && Spread(before, View(), first)
        invariant Labelled(View(), t, first, groups, |groups|, depth)
        invariant Finished(View(), t, strs, maxK, first, groups, g, depth, first + |groups|)
        invariant |labelStart| <= first + |groups| + 2 * TotalSize(groups[..g]) - 2 * g
      {
        TotalSizeTo(groups, g);
        BuildChild(first, groups, g, depth, strs, longest, before);
      }
      assert groups[..|groups|] == groups;
      SpreadParts(before, View(), first);
      FinishedWeakens(View(), t, strs, maxK, first, groups, depth, first + |groups|, first);
    }

    method BuildChild(first: nat, groups: seq<Group>, g: nat, depth: nat, ghost strs: seq<Bytes>, ghost longest: nat,
                      ghost before: Nodes)
      requires Valid(strs) && g < |groups| && first + |groups| <= |labelStart|
      requires Shape(before) && Spread(before, View(), first)
      requires Labelled(View(), t, first, groups, |groups|, depth)
      requires Finished(View(), t, strs, maxK, first, groups, g, depth, first + |groups|)
      requires (forall s :: 0 <= s < |strs| ==> |strs[s]| <= longest) && depth <= longest
      modifies this
      ensures Valid(strs) && first + |groups| <= |labelStart| && Spread(before, View(), first)
      ensures Labelled(View(), t, first, groups, |groups|, depth)
      ensures Finished(View(), t, strs, maxK, first, groups, g + 1, depth, first + |groups|)
      ensures |labelStart| <= |old(labelStart)| + 2 * (groups[g].hi - groups[g].lo) - 2
      decreases longest - depth, 0
    {
      hide *;
      ghost var a := View();
      FinishedGroup(a, t, strs, maxK, first, groups, g, depth, first + |groups|);
      GroupShares(strs, groups[g], depth);
      Build(first + g, groups[g].lo, groups[g].hi, groups[g].lcp, strs, longest);
      SpreadOn(before, a, View(), first, first + g);
      LabelsGrow(a, View(), t, first, groups, first + g, depth);
      FinishedNext(a, View(), t, strs, maxK, first, groups, g, depth);
    }

    /** The best of the string that ends at a node and the children's best. */
    method MergeTops(terminal: int, first: nat, groups: seq<Group>, ghost strs: seq<Bytes>, ghost lo: nat,
                     ghost hi: nat, ghost depth: nat) returns (best: seq<nat>)
      requires Valid(strs) && Share(strs, lo, hi, depth) && groups == Children(strs, lo, hi, depth)
      requires terminal == if Rest(strs, lo, hi, depth) == lo then -1 else lo
      requires Finished(View(), t, strs, maxK, first, groups, |groups|, depth, first)
      ensures hi <= |t.count| && BestOf(t.count, best, lo, hi, maxK)
    {
      hide *;
      ChildrenOk(strs, lo, hi, depth);
      var scratch: seq<nat> := if terminal >= 0 then [terminal] else [];
      StartMerge(t, strs, lo, hi, depth, groups, scratch, maxK);
      for g := 0 to |groups|
        invariant Merged(t.count, groups, g, lo, hi, Rest(strs, lo, hi, depth), scratch, maxK)
      {
        ChildTop(View(), t, strs, maxK, first, groups, g, depth, first);
        var s := topStart[first + g];
        var list := top[s..s + topCount[first + g]];
        MergeOne(t, strs, groups, g, lo, hi, depth, scratch, list, maxK);
        scratch := scratch + list;
      }
      var sorted := SortByCount(t.count, scratch);
      var take := if maxK <= |sorted| then maxK else |sorted|;
      best := sorted[..take];
      BestOfMerged(t, strs, groups, lo, hi, depth, scratch, best, maxK);
    }

    /** Build the trie below node `node`, which covers the sorted strings `lo` to `hi`. */
    method Build(node: nat, lo: nat, hi: nat, depth: nat, ghost strs: seq<Bytes>, ghost longest: nat)
      requires Valid(strs) && Share(strs, lo, hi, depth) && node < |labelStart|
      requires (forall s :: 0 <= s < |strs| ==> |strs[s]| <= longest) && depth <= longest
      modifies this
      ensures Valid(strs) && Grown(old(View()), View(), node)
      ensures Covers(View(), t, strs, maxK, node, lo, hi, depth, |old(labelStart)|)
      ensures |labelStart| <= |old(labelStart)| + 2 * (hi - lo) - if Branching(strs, lo, hi, depth) then 2 else 1
      decreases longest - depth, 2
    {
      hide *;
      ghost var a := View();
      var terminal, groups := FindGroups(lo, hi, depth, strs);
      ChildrenOk(strs, lo, hi, depth);
      PartitionGroups(strs, groups, Rest(strs, lo, hi, depth), hi, depth);
      ChildrenSize(strs, lo, hi, depth);
      var first := |labelStart|;
      SetChildren(node, first, |groups|, strs);
      ghost var b := View();
      AddChildren(groups, depth, strs);
      ghost var b' := View();
      BuildChildren(first, groups, depth, strs, longest);
      AgreeThrough(b, b', View(), first);
      var best := MergeTops(terminal, first, groups, strs, lo, hi, depth);
      ghost var c := View();
      SetTop(node, best, strs);
      BuildDone(a, b, c, View(), t, strs, maxK, node, lo, hi, depth, first, groups, best);
    }

    method SetChildren(node: nat, first: nat, n: nat, ghost strs: seq<Bytes>)
      requires Valid(strs) && node < |labelStart|
      modifies this
      ensures Valid(strs) && View() == old(View()).(firstChild := old(firstChild)[node := first],
                                                     childCount := old(childCount)[node := n])
    {
      firstChild, childCount := firstChild[node := first], childCount[node := n];
    }

    method SetTop(node: nat, best: seq<nat>, ghost strs: seq<Bytes>)
      requires Valid(strs) && node < |labelStart|
      modifies this
      ensures Valid(strs) && View() == old(View()).(topStart := old(topStart)[node := |old(top)|],
                                                     topCount := old(topCount)[node := |best|], top := old(top) + best)
    {
      topStart, topCount, top := topStart[node := |top|], topCount[node := |best|], top + best;
    }
  }

  // ---------------------------------------------------------------------------------------------
  // What growing keeps
  // ---------------------------------------------------------------------------------------------

  lemma LabelsStay(a: Nodes, b: Nodes, t: Table, first: nat, gs: seq<Group>, g: nat, depth: nat)
    requires Shape(a) && Shape(b) && g < |gs| && |a.labelStart| == first + g && gs[g].lo < |t.strOffset|
    requires depth <= gs[g].lcp
    requires b == Appended(a, t.strOffset[gs[g].lo] + depth, gs[g].lcp - depth) && Labelled(a, t, first, gs, g, depth)
    ensures Labelled(b, t, first, gs, g + 1, depth)
  {
    forall h | 0 <= h < g + 1 ensures LabelOk(b, t, first + h, gs[h], depth) {
      if h < g {
        assert LabelOk(a, t, first + h, gs[h], depth);
      }
    }
  }

  lemma AppendKeeps(a: Nodes, b: Nodes, c: Nodes)
    requires Shape(a) && Shape(b) && |a.labelStart| <= |b.labelStart|
    requires (exists x: nat, y: nat :: c == Appended(b, x, y)) && forall i :: 0 <= i < |a.labelStart| ==> Agree(a, b, i)
    ensures Shape(c) && forall i :: 0 <= i < |a.labelStart| ==> Agree(a, c, i)
  {
    forall i | 0 <= i < |a.labelStart| ensures |c.labelStart| > |b.labelStart| && Agree(a, c, i) {
      assert Agree(a, b, i);
    }
  }

  lemma StartGroups(t: Table, strs: seq<Bytes>, lo: nat, hi: nat, depth: nat)
    requires Holds(t, strs) && Share(strs, lo, hi, depth)
    ensures lo < hi <= |strs| && lo < |t.strLen|
    ensures Rest(strs, lo, hi, depth) == if t.strLen[lo] == depth then lo + 1 else lo
    ensures forall s :: Rest(strs, lo, hi, depth) <= s < hi ==> |strs[s]| > depth
    ensures Children(strs, lo, hi, depth) == Groups(strs, Rest(strs, lo, hi, depth), hi, depth)
  {
    RestLonger(strs, lo, hi, depth);
    assert StringAt(t, lo, strs[lo]);
  }

  lemma GroupsStep(strs: seq<Bytes>, i: nat, hi: nat, depth: nat, done: seq<Group>)
    requires i < hi <= |strs| && forall s :: i <= s < hi ==> |strs[s]| > depth
    ensures var j := RunEnd(strs, i, i + 1, hi, depth);
            i < j <= hi
            && done + Groups(strs, i, hi, depth)
               == (done + [Group(i, j, Lcp(strs[i], strs[j - 1], depth + 1))]) + Groups(strs, j, hi, depth)
  {
    hide *;
    GroupsUnfold(strs, i, hi, depth);
    var j := RunEnd(strs, i, i + 1, hi, depth);
    Rejoin(done, Group(i, j, Lcp(strs[i], strs[j - 1], depth + 1)), Groups(strs, j, hi, depth));
  }

  lemma GroupsUnfold(strs: seq<Bytes>, i: nat, hi: nat, depth: nat)
    requires i < hi <= |strs| && forall s :: i <= s < hi ==> |strs[s]| > depth
    ensures var j := RunEnd(strs, i, i + 1, hi, depth);
            Groups(strs, i, hi, depth)
            == [Group(i, j, Lcp(strs[i], strs[j - 1], depth + 1))] + Groups(strs, j, hi, depth)
  {
    hide RunEnd, Lcp;
  }

  lemma Rejoin(done: seq<Group>, g: Group, rest: seq<Group>)
    ensures done + ([g] + rest) == (done + [g]) + rest
  {
  }

  lemma GroupsEnd(strs: seq<Bytes>, hi: nat, depth: nat, done: seq<Group>)
    requires hi <= |strs|
    ensures done + Groups(strs, hi, hi, depth) == done
  {
  }

  lemma AgreeThrough(a: Nodes, b: Nodes, c: Nodes, n: nat)
    requires Shape(a) && Shape(b) && Shape(c) && n <= |a.labelStart| && n <= |b.labelStart| && n <= |c.labelStart|
    requires forall i :: 0 <= i < n ==> Agree(a, b, i) && Agree(b, c, i)
    ensures forall i :: 0 <= i < n ==> Agree(a, c, i)
  {
    forall i | 0 <= i < n ensures Agree(a, c, i) {
      assert Agree(a, b, i) && Agree(b, c, i);
    }
  }

  /** Nodes before `first` are as they were. */
  ghost predicate Spread(a: Nodes, b: Nodes, first: nat)
    requires Shape(a) && Shape(b)
  {
    first <= |a.labelStart| <= |b.labelStart| && a.top <= b.top && forall i :: 0 <= i < first ==> Agree(a, b, i)
  }

  lemma SpreadOn(a: Nodes, b: Nodes, c: Nodes, first: nat, node: nat)
    requires Shape(a) && Shape(b) && Shape(c) && Spread(a, b, first) && Grown(b, c, node) && first <= node
    ensures Spread(a, c, first) && |b.labelStart| <= |c.labelStart|
  {
    forall i | 0 <= i < first ensures Agree(a, c, i) {
      assert Agree(a, b, i) && Agree(b, c, i);
    }
  }

  lemma SpreadParts(a: Nodes, b: Nodes, first: nat)
    requires Shape(a) && Shape(b) && Spread(a, b, first)
    ensures a.top <= b.top && forall i :: 0 <= i < first ==> Agree(a, b, i)
  {
  }

  lemma LabelsGrow(a: Nodes, b: Nodes, t: Table, first: nat, gs: seq<Group>, node: nat, depth: nat)
    requires Shape(a) && Shape(b) && Grown(a, b, node) && Labelled(a, t, first, gs, |gs|, depth)
    requires first + |gs| <= |a.labelStart|
    ensures Labelled(b, t, first, gs, |gs|, depth)
  {
    forall h | 0 <= h < |gs| ensures LabelOk(b, t, first + h, gs[h], depth) {
      assert LabelOk(a, t, first + h, gs[h], depth);
      assert first + h == node || Agree(a, b, first + h);
    }
  }

  lemma NoneFinished(a: Nodes, t: Table, strs: seq<Bytes>, k: nat, first: nat, gs: seq<Group>, depth: nat)
    requires Shape(a) && Holds(t, strs) && first + |gs| == |a.labelStart|
    requires forall g :: 0 <= g < |gs| ==> GroupOk(strs, gs[g], depth)
    ensures Finished(a, t, strs, k, first, gs, 0, depth, first + |gs|) && Spread(a, a, first)
    ensures TotalSize(gs[..0]) == 0
  {
  }

  lemma TotalSizeTo(gs: seq<Group>, g: nat)
    requires g < |gs|
    ensures TotalSize(gs[..g + 1]) == TotalSize(gs[..g]) + gs[g].hi - gs[g].lo
  {
    assert gs[..g + 1][..g] == gs[..g];
  }

  lemma FinishedGroup(a: Nodes, t: Table, strs: seq<Bytes>, k: nat, first: nat, gs: seq<Group>, g: nat, depth: nat,
                      start: nat)
    requires Shape(a) && Holds(t, strs) && g < |gs| && Finished(a, t, strs, k, first, gs, g, depth, start)
    ensures GroupOk(strs, gs[g], depth)
  {
  }

  lemma FinishedWeakens(a: Nodes, t: Table, strs: seq<Bytes>, k: nat, first: nat, gs: seq<Group>, depth: nat,
                        start: nat, start': nat)
    requires Shape(a) && Holds(t, strs) && start' <= start && Finished(a, t, strs, k, first, gs, |gs|, depth, start)
    ensures Finished(a, t, strs, k, first, gs, |gs|, depth, start')
  {
    hide Holds, GroupOk, Covers, ChildOf;
    forall g | 0 <= g < |gs| ensures GroupOk(strs, gs[g], depth) && ChildOf(a, t, strs, k, first + g, gs[g], start') {
      ChildWeakens(a, t, strs, k, first + g, gs[g], start, start');
    }
  }

  /** Building below one child leaves the finished ones alone. */
  lemma FinishedNext(a: Nodes, b: Nodes, t: Table, strs: seq<Bytes>, k: nat, first: nat, gs: seq<Group>, g: nat,
                     depth: nat)
    requires Shape(a) && Shape(b) && Holds(t, strs) && g < |gs| && first + |gs| <= |a.labelStart|
    requires Finished(a, t, strs, k, first, gs, g, depth, first + |gs|) && Grown(a, b, first + g)
    requires Share(strs, gs[g].lo, gs[g].hi, gs[g].lcp)
    requires Covers(b, t, strs, k, first + g, gs[g].lo, gs[g].hi, gs[g].lcp, |a.labelStart|)
    ensures Finished(b, t, strs, k, first, gs, g + 1, depth, first + |gs|)
  {
    hide Holds, GroupOk, Covers, Agree;
    var start := first + |gs|;
    forall h | 0 <= h < g + 1 ensures GroupOk(strs, gs[h], depth) && ChildOf(b, t, strs, k, first + h, gs[h], start) {
      if h < g {
        assert Extends(a, b, first + h, start);
        ChildStays(a, b, t, strs, k, first + h, gs[h], start);
      } else {
        NodeInRange(b, t, strs, k, first + g, gs[g].lo, gs[g].hi, gs[g].lcp, |a.labelStart|);
      }
    }
  }

  lemma NodeInRange(a: Nodes, t: Table, strs: seq<Bytes>, k: nat, node: nat, lo: nat, hi: nat, depth: nat, start: nat)
    requires Shape(a) && Holds(t, strs) && Share(strs, lo, hi, depth)
    requires Covers(a, t, strs, k, node, lo, hi, depth, start)
    ensures node < |a.labelStart|
  {
  }

  lemma ChildTop(a: Nodes, t: Table, strs: seq<Bytes>, k: nat, first: nat, gs: seq<Group>, g: nat, depth: nat,
                 start: nat)
    requires Shape(a) && Holds(t, strs) && g < |gs| && Finished(a, t, strs, k, first, gs, |gs|, depth, start)
    ensures first + g < |a.topStart| && first + g < |a.topCount|
    ensures a.topStart[first + g] + a.topCount[first + g] <= |a.top|
    ensures gs[g].hi <= |t.count|
    ensures BestOf(t.count, a.top[a.topStart[first + g]..a.topStart[first + g] + a.topCount[first + g]],
                   gs[g].lo, gs[g].hi, k)
  {
    hide Holds, BestOf, Covers;
    assert GroupOk(strs, gs[g], depth) && ChildOf(a, t, strs, k, first + g, gs[g], start);
    var from :| start <= from && Covers(a, t, strs, k, first + g, gs[g].lo, gs[g].hi, gs[g].lcp, from);
    CoversParts(a, t, strs, k, first + g, gs[g].lo, gs[g].hi, gs[g].lcp, from);
  }

  lemma PartitionGroups(strs: seq<Bytes>, gs: seq<Group>, i: nat, hi: nat, depth: nat)
    requires Partition(strs, gs, i, hi, depth)
    ensures forall g :: 0 <= g < |gs| ==> GroupOk(strs, gs[g], depth)
  {
  }

  /** A node's entries, its children's labels and tries, and its completions make a trie. */
  lemma BuildDone(a: Nodes, b: Nodes, c: Nodes, d: Nodes, t: Table, strs: seq<Bytes>, k: nat, node: nat, lo: nat,
                  hi: nat, depth: nat, first: nat, gs: seq<Group>, best: seq<nat>)
    requires Shape(a) && Shape(b) && Shape(c) && Shape(d) && Holds(t, strs) && Share(strs, lo, hi, depth)
    requires node < first == |a.labelStart| && gs == Children(strs, lo, hi, depth) && hi <= |t.count|
    requires b == a.(firstChild := a.firstChild[node := first], childCount := a.childCount[node := |gs|])
    requires first + |gs| <= |c.labelStart| && b.top <= c.top && forall i :: 0 <= i < first ==> Agree(b, c, i)
    requires Labelled(c, t, first, gs, |gs|, depth) && Finished(c, t, strs, k, first, gs, |gs|, depth, first)
    requires d == c.(topStart := c.topStart[node := |c.top|], topCount := c.topCount[node := |best|],
                     top := c.top + best)
    requires BestOf(t.count, best, lo, hi, k)
    ensures Grown(a, d, node) && Covers(d, t, strs, k, node, lo, hi, depth, first)
  {
    hide Holds, Share, Children, GroupOk, BestOf, Covers;
    assert Agree(b, c, node);
    forall i | 0 <= i < first && i != node ensures Agree(a, d, i) {
      assert Agree(b, c, i);
    }
    assert d.top[d.topStart[node]..d.topStart[node] + d.topCount[node]] == best;
    forall g | 0 <= g < |gs|
      ensures GroupOk(strs, gs[g], depth) && LabelOk(d, t, first + g, gs[g], depth)
      ensures ChildOf(d, t, strs, k, first + g, gs[g], first)
    {
      assert LabelOk(c, t, first + g, gs[g], depth) && Agree(c, d, first + g);
      LabelStays(c, d, t, first + g, gs[g], depth);
      ChildStays(c, d, t, strs, k, first + g, gs[g], first);
    }
    CoversWhole(d, t, strs, k, node, lo, hi, depth, first);
  }
}
