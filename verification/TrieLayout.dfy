/** The radix trie of broker/HybridSearch.Broker/Autocomplete/CompletionTrie.cs: its arrays, and what
    they say about the strings. */
module TrieLayout {
  import opened Bits
  import opened ByteStrings
  import opened Ranking

  /** The distinct strings in byte order, one after another in a blob, with their counts. */
  datatype Table = Table(blob: Bytes, strOffset: seq<nat>, strLen: seq<nat>, count: seq<nat>)

  /** Table `t` holds the strings `strs`. */
  ghost predicate Holds(t: Table, strs: seq<Bytes>)
    ensures Holds(t, strs) ==> Ascending(strs) && |t.strOffset| == |t.strLen| == |t.count| == |strs|
  {
    && Ascending(strs) && |t.strOffset| == |t.strLen| == |t.count| == |strs|
    && (forall s :: 0 <= s < |strs| ==> StringAt(t, s, strs[s]))
  }

  ghost predicate StringAt(t: Table, s: nat, str: Bytes)
    requires s < |t.strOffset| == |t.strLen|
  {
    t.strLen[s] == |str| && t.strOffset[s] + |str| <= |t.blob|
    && t.blob[t.strOffset[s]..t.strOffset[s] + |str|] == str
  }

  lemma ByteAt(t: Table, strs: seq<Bytes>, s: nat, i: nat)
    requires Holds(t, strs) && s < |strs| && i < |strs[s]|
    ensures t.strOffset[s] + i < |t.blob| && t.blob[t.strOffset[s] + i] == strs[s][i]
  {
    assert StringAt(t, s, strs[s]);
    assert strs[s][i] == t.blob[t.strOffset[s]..t.strOffset[s] + |strs[s]|][i];
  }

  // ---------------------------------------------------------------------------------------------
  // Groups of strings
  // ---------------------------------------------------------------------------------------------

  /** Strings `lo` to `hi` share their first `lcp` bytes. */
  datatype Group = Group(lo: nat, hi: nat, lcp: nat)

  /** How far two strings agree, from `i` on. */
  function Lcp(a: Bytes, b: Bytes, i: nat): (r: nat)
    requires i <= |a| && i <= |b|
    ensures i <= r <= |a| && r <= |b|
    ensures r < |a| && r < |b| ==> a[r] != b[r]
    ensures a[i..r] == b[i..r]
    decreases |a| - i
  {
    if i < |a| && i < |b| && a[i] == b[i] then
      var r := Lcp(a, b, i + 1);
      assert a[i..r] == [a[i]] + a[i + 1..r] && b[i..r] == [b[i]] + b[i + 1..r];
      r
    else i
  }

  /** The end of the run of strings whose byte at `depth` is that of string `i`. */
  function RunEnd(strs: seq<Bytes>, i: nat, j: nat, hi: nat, depth: nat): (r: nat)
    requires i < j <= hi <= |strs| && forall s :: i <= s < hi ==> |strs[s]| > depth
    ensures j <= r <= hi
    ensures forall s :: j <= s < r ==> strs[s][depth] == strs[i][depth]
    ensures r < hi ==> strs[r][depth] != strs[i][depth]
    decreases hi - j
  {
    if j < hi && strs[j][depth] == strs[i][depth] then RunEnd(strs, i, j + 1, hi, depth) else j
  }

  /** The runs of strings `i` to `hi` by their byte at `depth`. */
  function Groups(strs: seq<Bytes>, i: nat, hi: nat, depth: nat): (gs: seq<Group>)
    requires i <= hi <= |strs| && forall s :: i <= s < hi ==> |strs[s]| > depth
    decreases hi - i
  {
    if i == hi then [] else
      var j := RunEnd(strs, i, i + 1, hi, depth);
      [Group(i, j, Lcp(strs[i], strs[j - 1], depth + 1))] + Groups(strs, j, hi, depth)
  }

  /** A node's strings without the one that ends at it. */
  function Rest(strs: seq<Bytes>, lo: nat, hi: nat, depth: nat): (i: nat)
    requires lo <= hi <= |strs|
    ensures lo <= i <= hi
  {
    if lo < hi && |strs[lo]| == depth then lo + 1 else lo
  }

  lemma RestLonger(strs: seq<Bytes>, lo: nat, hi: nat, depth: nat)
    requires Ascending(strs) && Share(strs, lo, hi, depth)
    ensures forall s :: Rest(strs, lo, hi, depth) <= s < hi ==> |strs[s]| > depth
  {
    forall s | Rest(strs, lo, hi, depth) <= s < hi ensures |strs[s]| > depth {
      if s > lo {
        ShareOrder(strs, lo, hi, depth, lo, s);
      }
    }
  }

  /** The children of a node of strings `lo` to `hi` and depth `depth`. */
  ghost function Children(strs: seq<Bytes>, lo: nat, hi: nat, depth: nat): (gs: seq<Group>)
    requires Ascending(strs) && Share(strs, lo, hi, depth)
  {
    RestLonger(strs, lo, hi, depth);
    Groups(strs, Rest(strs, lo, hi, depth), hi, depth)
  }

  /** A child's strings share more than their parent's, and no longer prefix. */
  ghost predicate GroupOk(strs: seq<Bytes>, g: Group, depth: nat)
    ensures GroupOk(strs, g, depth) ==> Share(strs, g.lo, g.hi, g.lcp) && depth < g.lcp
  {
    && Share(strs, g.lo, g.hi, g.lcp) && depth < g.lcp && Branching(strs, g.lo, g.hi, g.lcp)
  }

  /** The shared prefix cannot be extended: one string ends there, or the first and last differ after it. */
  ghost predicate Branching(strs: seq<Bytes>, lo: nat, hi: nat, depth: nat)
    requires Share(strs, lo, hi, depth)
  {
    |strs[lo]| == depth || (|strs[hi - 1]| > depth && strs[lo][depth] != strs[hi - 1][depth])
  }

  lemma SharePrefix(strs: seq<Bytes>, lo: nat, hi: nat, depth: nat, i: nat, j: nat)
    requires Ascending(strs) && Share(strs, lo, hi, depth) && lo <= i < j <= hi
    requires |strs[i]| > depth && |strs[j - 1]| > depth && strs[i][depth] == strs[j - 1][depth]
    ensures var r := Lcp(strs[i], strs[j - 1], depth + 1); GroupOk(strs, Group(i, j, r), depth)
  {
    var a, b := strs[i], strs[j - 1];
    var r := Lcp(a, b, depth + 1);
    assert a[..depth] == strs[lo][..depth] == b[..depth];
    assert a[..r] == a[..depth] + [a[depth]] + a[depth + 1..r];
    assert b[..r] == b[..depth] + [b[depth]] + b[depth + 1..r];
    EndsShare(strs, i, j, r);
    if |a| > r && |b| <= r {
      if i < j - 1 {
        NextByteRises(a, b, a[..r]);
      }
    }
  }

  /** Runs cover the range in order, each with a byte of its own. */
  ghost predicate Partition(strs: seq<Bytes>, gs: seq<Group>, i: nat, hi: nat, depth: nat)
  {
    && (forall g :: 0 <= g < |gs| ==> GroupOk(strs, gs[g], depth) && i <= gs[g].lo && gs[g].hi <= hi)
    && (forall g, h :: 0 <= g < h < |gs| ==> gs[g].hi <= gs[h].lo && strs[gs[g].lo][depth] < strs[gs[h].lo][depth])
    && (forall s :: i <= s < hi ==> InSome(gs, s))
  }

  ghost predicate InSome(gs: seq<Group>, s: nat) {
    exists g :: 0 <= g < |gs| && gs[g].lo <= s < gs[g].hi
  }

  lemma {:induction false} GroupsPartition(strs: seq<Bytes>, lo: nat, i: nat, hi: nat, depth: nat)
    requires Ascending(strs) && Share(strs, lo, hi, depth) && lo <= i <= hi
    requires forall s :: i <= s < hi ==> |strs[s]| > depth
    ensures Partition(strs, Groups(strs, i, hi, depth), i, hi, depth)
    decreases hi - i
  {
    hide GroupOk, Share, Ascending, Partition;
    RangeOk(strs, lo, hi, depth);
    if i < hi {
      var j := RunEnd(strs, i, i + 1, hi, depth);
      SharePrefix(strs, lo, hi, depth, i, j);
      GroupsPartition(strs, lo, j, hi, depth);
      PartitionGrows(strs, lo, Group(i, j, Lcp(strs[i], strs[j - 1], depth + 1)), Groups(strs, j, hi, depth), hi,
        depth);
    } else {
      NoGroups(strs, i, depth);
    }
  }

  lemma NoGroups(strs: seq<Bytes>, i: nat, depth: nat)
    ensures Partition(strs, [], i, i, depth)
  {
  }

  lemma PartitionGrows(strs: seq<Bytes>, lo: nat, first: Group, rest: seq<Group>, hi: nat, depth: nat)
    requires Ascending(strs) && Share(strs, lo, hi, depth) && hi <= |strs| && lo <= first.lo && first.hi <= hi
    requires forall s :: first.lo <= s < hi ==> |strs[s]| > depth
    requires GroupOk(strs, first, depth) && Partition(strs, rest, first.hi, hi, depth)
    requires first.lo < first.hi && (first.hi < hi ==> strs[first.hi][depth] != strs[first.lo][depth])
    ensures Partition(strs, [first] + rest, first.lo, hi, depth)
  {
    hide GroupOk, Share, Ascending;
    var all := [first] + rest;
    forall h | 0 <= h < |rest|
      ensures rest[h].lo < hi && strs[first.lo][depth] < strs[rest[h].lo][depth] && first.hi <= rest[h].lo
    {
      GroupRange(strs, rest[h], depth);
      RunBelow(strs, lo, hi, depth, first.lo, first.hi, rest[h].lo);
    }
    forall s | first.lo <= s < hi ensures InSome(all, s) {
      if s < first.hi {
        assert all[0].lo <= s < all[0].hi;
      } else {
        assert InSome(rest, s);
        var g :| 0 <= g < |rest| && rest[g].lo <= s < rest[g].hi;
        assert all[g + 1] == rest[g];
      }
    }
  }

  lemma RunBelow(strs: seq<Bytes>, lo: nat, hi: nat, depth: nat, i: nat, j: nat, s: nat)
    requires Ascending(strs) && Share(strs, lo, hi, depth) && hi <= |strs| && lo <= i < j <= s < hi
    requires forall s :: i <= s < hi ==> |strs[s]| > depth
    requires strs[j][depth] != strs[i][depth]
    ensures strs[i][depth] < strs[s][depth]
  {
    hide Share, Ascending;
    ShareOrder(strs, lo, hi, depth, i, j);
    if j < s {
      ShareOrder(strs, lo, hi, depth, j, s);
    }
  }

  lemma RangeOk(strs: seq<Bytes>, lo: nat, hi: nat, depth: nat)
    requires Share(strs, lo, hi, depth)
    ensures hi <= |strs|
  {
  }

  lemma GroupRange(strs: seq<Bytes>, g: Group, depth: nat)
    requires GroupOk(strs, g, depth)
    ensures g.lo < g.hi <= |strs| && depth < g.lcp <= |strs[g.lo]|
  {
  }

  // ---------------------------------------------------------------------------------------------
  // Nodes
  // ---------------------------------------------------------------------------------------------

  datatype Nodes = Nodes(labelStart: seq<nat>, labelLen: seq<nat>, firstChild: seq<nat>, childCount: seq<nat>,
                         topStart: seq<nat>, topCount: seq<nat>, top: seq<nat>)

  ghost predicate Shape(a: Nodes) {
    |a.labelStart| == |a.labelLen| == |a.firstChild| == |a.childCount| == |a.topStart| == |a.topCount|
  }

  /** A string as a candidate: by count, then by place in byte order. */
  function Candidate(count: seq<nat>, s: nat): ScoredDoc
    requires s < |count|
  {
    ScoredDoc(s, count[s] as real)
  }

  function Candidates(count: seq<nat>, l: seq<nat>): (r: seq<ScoredDoc>)
    requires forall i :: 0 <= i < |l| ==> l[i] < |count|
    ensures |r| == |l| && forall i :: 0 <= i < |r| ==> r[i] == Candidate(count, l[i])
  {
    seq(|l|, i requires 0 <= i < |l| => Candidate(count, l[i]))
  }

  ghost function RangeCandidates(count: seq<nat>, lo: nat, hi: nat): (c: set<ScoredDoc>)
    requires hi <= |count|
    ensures forall x :: x in c <==> lo <= x.doc < hi && x == Candidate(count, x.doc)
  {
    set s: nat | lo <= s < hi :: Candidate(count, s)
  }

  /** The list `l` names the best `k` of strings `lo` to `hi`. */
  ghost predicate BestOf(count: seq<nat>, l: seq<nat>, lo: nat, hi: nat, k: nat)
    requires hi <= |count|
  {
    (forall i :: 0 <= i < |l| ==> l[i] < |count|) && IsTopK(Candidates(count, l), RangeCandidates(count, lo, hi), k)
  }

  ghost predicate TopOk(a: Nodes, count: seq<nat>, node: nat, lo: nat, hi: nat, k: nat)
    requires Shape(a) && node < |a.labelStart| && hi <= |count|
  {
    && a.topStart[node] + a.topCount[node] <= |a.top|
    && BestOf(count, a.top[a.topStart[node]..a.topStart[node] + a.topCount[node]], lo, hi, k)
  }

  ghost predicate LabelOk(a: Nodes, t: Table, child: nat, g: Group, depth: nat)
    requires Shape(a)
  {
    && child < |a.labelStart| && g.lo < |t.strOffset| && depth <= g.lcp
    && a.labelStart[child] == t.strOffset[g.lo] + depth && a.labelLen[child] == g.lcp - depth
  }

  /** Node `node` is the root of a trie of strings `lo` to `hi`, which share `depth` bytes; the nodes
      below it lie at or after `start`. */
  ghost predicate Covers(a: Nodes, t: Table, strs: seq<Bytes>, k: nat, node: nat, lo: nat, hi: nat, depth: nat,
                         start: nat)
    requires Shape(a) && Holds(t, strs) && Share(strs, lo, hi, depth)
    decreases |a.labelStart| - node, 0
  {
    var gs := Children(strs, lo, hi, depth);
    && node < start && node < |a.labelStart|
    && a.childCount[node] == |gs| && start <= a.firstChild[node] && a.firstChild[node] + |gs| <= |a.labelStart|
    && TopOk(a, t.count, node, lo, hi, k)
    && (forall g :: 0 <= g < |gs| ==> GroupOk(strs, gs[g], depth))
    && (forall g :: 0 <= g < |gs| ==> LabelOk(a, t, a.firstChild[node] + g, gs[g], depth))
    && (forall g :: 0 <= g < |gs| ==> ChildOf(a, t, strs, k, a.firstChild[node] + g, gs[g], start))
  }

  ghost predicate ChildOf(a: Nodes, t: Table, strs: seq<Bytes>, k: nat, child: nat, g: Group, start: nat)
    requires Shape(a) && Holds(t, strs) && Share(strs, g.lo, g.hi, g.lcp)
    decreases |a.labelStart| - child, 1
  {
    child < |a.labelStart| && exists from :: start <= from && Covers(a, t, strs, k, child, g.lo, g.hi, g.lcp, from)
  }

  // ---------------------------------------------------------------------------------------------
  // Growing arrays
  // ---------------------------------------------------------------------------------------------

  ghost predicate Agree(a: Nodes, b: Nodes, i: nat)
    requires Shape(a) && Shape(b) && i < |a.labelStart| && i < |b.labelStart|
  {
    && a.labelStart[i] == b.labelStart[i] && a.labelLen[i] == b.labelLen[i]
    && a.firstChild[i] == b.firstChild[i] && a.childCount[i] == b.childCount[i]
    && a.topStart[i] == b.topStart[i] && a.topCount[i] == b.topCount[i]
  }

  /** `b` extends `a` and leaves node `node` and the nodes from `start` on as they are. */
  ghost predicate Extends(a: Nodes, b: Nodes, node: nat, start: nat)
    requires Shape(a) && Shape(b)
  {
    && node < |a.labelStart| <= |b.labelStart| && a.top <= b.top
    && Agree(a, b, node)
    && (forall i :: start <= i < |a.labelStart| ==> Agree(a, b, i))
  }

  lemma TopStays(a: Nodes, b: Nodes, count: seq<nat>, node: nat, lo: nat, hi: nat, k: nat)
    requires Shape(a) && Shape(b) && node < |a.labelStart| <= |b.labelStart| && a.top <= b.top && Agree(a, b, node)
    requires hi <= |count| && TopOk(a, count, node, lo, hi, k)
    ensures TopOk(b, count, node, lo, hi, k)
  {
    var i, j := a.topStart[node], a.topStart[node] + a.topCount[node];
    assert a.top[i..j] == b.top[i..j];
  }

  /** A finished trie survives whatever happens outside it. */
  lemma {:induction false} CoversStays(a: Nodes, b: Nodes, t: Table, strs: seq<Bytes>, k: nat, node: nat, lo: nat,
                                       hi: nat, depth: nat, start: nat)
    requires Shape(a) && Shape(b) && Holds(t, strs) && Share(strs, lo, hi, depth)
    requires Covers(a, t, strs, k, node, lo, hi, depth, start) && Extends(a, b, node, start)
    ensures Covers(b, t, strs, k, node, lo, hi, depth, start)
    decreases |a.labelStart| - node, 0
  {
    hide Holds, Share, Children, GroupOk, BestOf, LabelOk, Agree;
    CoversParts(a, t, strs, k, node, lo, hi, depth, start);
    var gs, fc := Children(strs, lo, hi, depth), a.firstChild[node];
    AgreeParts(a, b, node);
    TopStays(a, b, t.count, node, lo, hi, k);
    forall g | 0 <= g < |gs|
      ensures GroupOk(strs, gs[g], depth) && LabelOk(b, t, fc + g, gs[g], depth)
      ensures ChildOf(b, t, strs, k, fc + g, gs[g], start)
    {
      LabelStays(a, b, t, fc + g, gs[g], depth);
      ChildStays(a, b, t, strs, k, fc + g, gs[g], start);
    }
    CoversWhole(b, t, strs, k, node, lo, hi, depth, start);
  }

  lemma {:induction false} ChildStays(a: Nodes, b: Nodes, t: Table, strs: seq<Bytes>, k: nat, child: nat, g: Group,
                                      start: nat)
    requires Shape(a) && Shape(b) && Holds(t, strs) && Share(strs, g.lo, g.hi, g.lcp)
    requires ChildOf(a, t, strs, k, child, g, start) && Extends(a, b, child, start)
    ensures ChildOf(b, t, strs, k, child, g, start)
    decreases |a.labelStart| - child, 1
  {
    hide Covers, Holds, Share, Agree;
    var from :| start <= from && Covers(a, t, strs, k, child, g.lo, g.hi, g.lcp, from);
    CoversStays(a, b, t, strs, k, child, g.lo, g.hi, g.lcp, from);
  }

  lemma GroupShares(strs: seq<Bytes>, g: Group, depth: nat)
    requires GroupOk(strs, g, depth)
    ensures Share(strs, g.lo, g.hi, g.lcp) && depth < g.lcp && Branching(strs, g.lo, g.hi, g.lcp)
    ensures g.lo < g.hi <= |strs| && g.lcp <= |strs[g.lo]|
  {
  }

  lemma AgreeParts(a: Nodes, b: Nodes, i: nat)
    requires Shape(a) && Shape(b) && i < |a.labelStart| && i < |b.labelStart| && Agree(a, b, i)
    ensures a.firstChild[i] == b.firstChild[i] && a.childCount[i] == b.childCount[i]
  {
  }

  lemma LabelStays(a: Nodes, b: Nodes, t: Table, child: nat, g: Group, depth: nat)
    requires Shape(a) && Shape(b) && child < |a.labelStart| <= |b.labelStart| && Agree(a, b, child)
    requires LabelOk(a, t, child, g, depth)
    ensures LabelOk(b, t, child, g, depth)
  {
  }

  lemma CoversParts(a: Nodes, t: Table, strs: seq<Bytes>, k: nat, node: nat, lo: nat, hi: nat, depth: nat, start: nat)
    requires Shape(a) && Holds(t, strs) && Share(strs, lo, hi, depth)
    requires Covers(a, t, strs, k, node, lo, hi, depth, start)
    ensures hi <= |strs| == |t.count|
    ensures var gs := Children(strs, lo, hi, depth);
      && node < start && node < |a.labelStart|
      && a.childCount[node] == |gs| && start <= a.firstChild[node] && a.firstChild[node] + |gs| <= |a.labelStart|
      && TopOk(a, t.count, node, lo, hi, k)
      && (forall g :: 0 <= g < |gs| ==> GroupOk(strs, gs[g], depth))
      && (forall g :: 0 <= g < |gs| ==> LabelOk(a, t, a.firstChild[node] + g, gs[g], depth))
      && (forall g :: 0 <= g < |gs| ==> ChildOf(a, t, strs, k, a.firstChild[node] + g, gs[g], start))
  {
  }

  lemma CoversWhole(a: Nodes, t: Table, strs: seq<Bytes>, k: nat, node: nat, lo: nat, hi: nat, depth: nat, start: nat)
    requires Shape(a) && Holds(t, strs) && Share(strs, lo, hi, depth) && hi <= |t.count|
    requires var gs := Children(strs, lo, hi, depth);
      && node < start && node < |a.labelStart|
      && a.childCount[node] == |gs| && start <= a.firstChild[node] && a.firstChild[node] + |gs| <= |a.labelStart|
      && TopOk(a, t.count, node, lo, hi, k)
      && (forall g :: 0 <= g < |gs| ==> GroupOk(strs, gs[g], depth))
      && (forall g :: 0 <= g < |gs| ==> LabelOk(a, t, a.firstChild[node] + g, gs[g], depth))
      && (forall g :: 0 <= g < |gs| ==> ChildOf(a, t, strs, k, a.firstChild[node] + g, gs[g], start))
    ensures Covers(a, t, strs, k, node, lo, hi, depth, start)
  {
  }

  lemma ChildWeakens(a: Nodes, t: Table, strs: seq<Bytes>, k: nat, child: nat, g: Group, start: nat, start': nat)
    requires Shape(a) && Holds(t, strs) && Share(strs, g.lo, g.hi, g.lcp) && start' <= start
    requires ChildOf(a, t, strs, k, child, g, start)
    ensures ChildOf(a, t, strs, k, child, g, start')
  {
    hide Covers, Holds, Share;
  }

  // ---------------------------------------------------------------------------------------------
  // Sizes
  // ---------------------------------------------------------------------------------------------

  function TotalSize(gs: seq<Group>): int {
    if gs == [] then 0 else TotalSize(gs[..|gs| - 1]) + gs[|gs| - 1].hi - gs[|gs| - 1].lo
  }

  lemma {:induction false} TotalSizeCons(g: Group, gs: seq<Group>)
    ensures TotalSize([g] + gs) == g.hi - g.lo + TotalSize(gs)
  {
    if gs == [] {
      assert [g] + gs == [g] && [g][..0] == [];
    } else {
      var n := |gs| - 1;
      TotalSizeCons(g, gs[..n]);
      assert ([g] + gs)[..n + 1] == [g] + gs[..n];
    }
  }

  lemma {:induction false} GroupsSize(strs: seq<Bytes>, i: nat, hi: nat, depth: nat)
    requires i <= hi <= |strs| && forall s :: i <= s < hi ==> |strs[s]| > depth
    ensures TotalSize(Groups(strs, i, hi, depth)) == hi - i
    decreases hi - i
  {
    if i < hi {
      var j := RunEnd(strs, i, i + 1, hi, depth);
      GroupsSize(strs, j, hi, depth);
      TotalSizeCons(Group(i, j, Lcp(strs[i], strs[j - 1], depth + 1)), Groups(strs, j, hi, depth));
    }
  }

  /** A node's children are as many as its strings allow: at least one if a string goes on, at least
      two if none ends and the shared prefix cannot be extended. */
  lemma ChildrenSize(strs: seq<Bytes>, lo: nat, hi: nat, depth: nat)
    requires Ascending(strs) && Share(strs, lo, hi, depth)
    ensures var gs := Children(strs, lo, hi, depth);
            TotalSize(gs) == hi - Rest(strs, lo, hi, depth)
            && (Rest(strs, lo, hi, depth) == lo ==> |gs| >= 1 && (Branching(strs, lo, hi, depth) ==> |gs| >= 2))
  {
    RestLonger(strs, lo, hi, depth);
    GroupsSize(strs, Rest(strs, lo, hi, depth), hi, depth);
    if Rest(strs, lo, hi, depth) == lo && Branching(strs, lo, hi, depth) {
      var j := RunEnd(strs, lo, lo + 1, hi, depth);
      assert j < hi;
      assert Groups(strs, j, hi, depth) != [];
    }
  }

  lemma ChildrenOk(strs: seq<Bytes>, lo: nat, hi: nat, depth: nat)
    requires Ascending(strs) && Share(strs, lo, hi, depth)
    ensures Partition(strs, Children(strs, lo, hi, depth), Rest(strs, lo, hi, depth), hi, depth)
  {
    RestLonger(strs, lo, hi, depth);
    GroupsPartition(strs, lo, Rest(strs, lo, hi, depth), hi, depth);
  }
}
