/** broker/HybridSearch.Broker/Autocomplete/CompletionTrie.cs: building the trie from counted strings, and
    looking up a prefix. */
module CompletionTrie {
  import opened Bits
  import opened ByteStrings
  import opened Ranking
  import opened TrieLayout
  import opened TrieTops
  import opened TrieBuilder

  datatype Completion = Completion(text: Bytes, count: int)

  // ---------------------------------------------------------------------------------------------
  // Counted strings
  // ---------------------------------------------------------------------------------------------

  predicate Counts(e: Completion) {
    e.text != [] && e.count > 0
  }

  /** The total count of a string; empty strings and counts that are not positive are ignored. */
  function TotalOf(entries: seq<Completion>, text: Bytes): nat {
    if entries == [] then 0
    else
      var n := |entries| - 1;
      TotalOf(entries[..n], text) + if Counts(entries[n]) && entries[n].text == text then entries[n].count else 0
  }

  function Filtered(entries: seq<Completion>): seq<Completion> {
    if entries == [] then []
    else
      var n := |entries| - 1;
      if Counts(entries[n]) then Filtered(entries[..n]) + [entries[n]] else Filtered(entries[..n])
  }

  function InsertText(l: seq<Completion>, e: Completion): (r: seq<Completion>)
    ensures |r| == |l| + 1
    ensures forall x :: x in r <==> x in l || x == e
  {
    if l == [] || !Less(e.text, l[|l| - 1].text) then l + [e] else InsertText(l[..|l| - 1], e) + [l[|l| - 1]]
  }

  /** entries.Sort: by text in byte order. */
  function SortTexts(l: seq<Completion>): (r: seq<Completion>)
    ensures |r| == |l| && forall x :: x in r <==> x in l
  {
    if l == [] then [] else InsertText(SortTexts(l[..|l| - 1]), l[|l| - 1])
  }

  ghost predicate TextsSorted(l: seq<Completion>) {
    forall i, j :: 0 <= i < j < |l| ==> l[i].text == l[j].text || Less(l[i].text, l[j].text)
  }

  lemma {:induction false} InsertsSorted(l: seq<Completion>, e: Completion)
    requires TextsSorted(l)
    ensures TextsSorted(InsertText(l, e))
  {
    if l != [] {
      var n := |l| - 1;
      LessTotal(l[n].text, e.text);
      if Less(e.text, l[n].text) {
        InsertsSorted(l[..n], e);
        var r := InsertText(l[..n], e);
        forall i | 0 <= i < |r| ensures r[i].text == l[n].text || Less(r[i].text, l[n].text) {
          assert r[i] in r;
          if r[i] != e {
            var j :| 0 <= j < n && l[j] == r[i];
          }
        }
      } else {
        forall i | 0 <= i < n ensures l[i].text == e.text || Less(l[i].text, e.text) {
          if Less(l[i].text, l[n].text) && Less(l[n].text, e.text) {
            LessTransitive(l[i].text, l[n].text, e.text);
          }
        }
      }
    }
  }

  lemma {:induction false} SortsTexts(l: seq<Completion>)
    ensures TextsSorted(SortTexts(l))
  {
    if l != [] {
      SortsTexts(l[..|l| - 1]);
      InsertsSorted(SortTexts(l[..|l| - 1]), l[|l| - 1]);
    }
  }

  lemma {:induction false} InsertTotal(l: seq<Completion>, e: Completion, text: Bytes)
    ensures TotalOf(InsertText(l, e), text) == TotalOf(l + [e], text)
  {
    assert (l + [e])[..|l|] == l;
    if l != [] {
      var n := |l| - 1;
      InsertTotal(l[..n], e, text);
      var r := InsertText(l[..n], e);
      assert (r + [l[n]])[..|r|] == r;
      assert (l[..n] + [e])[..n] == l[..n];
    }
  }

  lemma {:induction false} SortTotal(l: seq<Completion>, text: Bytes)
    ensures TotalOf(SortTexts(l), text) == TotalOf(l, text)
  {
    if l != [] {
      var n := |l| - 1;
      SortTotal(l[..n], text);
      InsertTotal(SortTexts(l[..n]), l[n], text);
      var s := SortTexts(l[..n]);
      assert (s + [l[n]])[..|s|] == s;
    }
  }

  lemma {:induction false} FilterTotal(l: seq<Completion>, text: Bytes)
    ensures TotalOf(Filtered(l), text) == TotalOf(l, text)
    ensures forall x :: x in Filtered(l) ==> Counts(x)
  {
    if l != [] {
      var n := |l| - 1;
      FilterTotal(l[..n], text);
      var f := Filtered(l[..n]);
      assert (f + [l[n]])[..|f|] == f;
    }
  }

  /** Totals are sums: of one entry, its count if it is positive and the string is not empty; of two lists, both. */
  lemma {:induction false} TotalIsSum(a: seq<Completion>, b: seq<Completion>, e: Completion, t: Bytes)
    ensures TotalOf(a + b, t) == TotalOf(a, t) + TotalOf(b, t)
    ensures TotalOf([e], t) == if e.text == t && t != [] && e.count > 0 then e.count else 0
    ensures TotalOf([], t) == 0
    decreases |b|
  {
    assert [e][..0] == [];
    if b == [] {
      assert a + b == a;
    } else {
      var n := |b| - 1;
      TotalIsSum(a, b[..n], e, t);
      assert a + b == (a + b[..n]) + [b[n]];
    }
  }

  /** `strs` and `count` are the distinct strings of `entries` in byte order with their totals. */
  ghost predicate Tallied(entries: seq<Completion>, strs: seq<Bytes>, count: seq<nat>) {
    && Ascending(strs) && |strs| == |count|
    && (forall s :: 0 <= s < |strs| ==> strs[s] != [] && count[s] == TotalOf(entries, strs[s]) && count[s] > 0)
    && (forall t :: TotalOf(entries, t) > 0 ==> t in strs)
  }

  /** Merge equal neighbours. */
  method Merge(sorted: seq<Completion>) returns (strs: seq<Bytes>, count: seq<nat>)
    requires TextsSorted(sorted) && forall x :: x in sorted ==> Counts(x)
    ensures Tallied(sorted, strs, count)
  {
    hide Less, TextsSorted, Counts;
    strs, count := [], [];
    for i := 0 to |sorted|
      invariant Tallied(sorted[..i], strs, count)
      invariant if i == 0 then strs == [] else strs != [] && strs[|strs| - 1] == sorted[i - 1].text
    {
      var e := sorted[i];
      CountsOf(e);
      assert sorted[..i + 1][..i] == sorted[..i];
      if |strs| > 0 && strs[|strs| - 1] == e.text {
        AddsToLast(sorted, i, strs, count);
        count := count[|count| - 1 := count[|count| - 1] + e.count];
      } else {
        AddsString(sorted, i, strs, count);
        strs, count := strs + [e.text], count + [e.count];
      }
    }
    assert sorted[..|sorted|] == sorted;
  }

  lemma CountsOf(e: Completion)
    ensures Counts(e) <==> e.text != [] && e.count > 0
  {
  }

  lemma TotalStep(sorted: seq<Completion>, i: nat, t: Bytes)
    requires i < |sorted| && Counts(sorted[i])
    ensures TotalOf(sorted[..i + 1], t) == TotalOf(sorted[..i], t) + if sorted[i].text == t then sorted[i].count else 0
  {
    assert sorted[..i + 1][..i] == sorted[..i];
  }

  lemma AddsToLast(sorted: seq<Completion>, i: nat, strs: seq<Bytes>, count: seq<nat>)
    requires i < |sorted| && Counts(sorted[i]) && sorted[i].count > 0 && Tallied(sorted[..i], strs, count)
    requires strs != [] && strs[|strs| - 1] == sorted[i].text
    ensures Tallied(sorted[..i + 1], strs, count[|count| - 1 := count[|count| - 1] + sorted[i].count])
  {
    hide Less, TotalOf, Counts;
    forall t ensures TotalOf(sorted[..i + 1], t) == TotalOf(sorted[..i], t)
          + if sorted[i].text == t then sorted[i].count else 0 {
      TotalStep(sorted, i, t);
    }
    forall s | 0 <= s < |strs| - 1 ensures strs[s] != strs[|strs| - 1] {
      LessTotal(strs[s], strs[s]);
    }
  }

  lemma AddsString(sorted: seq<Completion>, i: nat, strs: seq<Bytes>, count: seq<nat>)
    requires TextsSorted(sorted) && i < |sorted| && Counts(sorted[i]) && sorted[i].text != [] && sorted[i].count > 0
    requires Tallied(sorted[..i], strs, count)
    requires if i == 0 then strs == [] else strs != [] && strs[|strs| - 1] == sorted[i - 1].text
    requires strs != [] ==> strs[|strs| - 1] != sorted[i].text
    ensures Tallied(sorted[..i + 1], strs + [sorted[i].text], count + [sorted[i].count])
  {
    hide Less, TotalOf, Counts;
    var x := sorted[i].text;
    forall s | 0 <= s < |strs| ensures Less(strs[s], x) {
      if s < |strs| - 1 {
        LessTransitive(strs[s], strs[|strs| - 1], x);
      }
    }
    forall t ensures TotalOf(sorted[..i + 1], t) == TotalOf(sorted[..i], t)
          + if sorted[i].text == t then sorted[i].count else 0 {
      TotalStep(sorted, i, t);
    }
    forall s | 0 <= s < |strs| ensures strs[s] != x {
      LessTotal(x, x);
    }
    assert TotalOf(sorted[..i], x) == 0;
    var more := strs + [x];
    forall t | TotalOf(sorted[..i + 1], t) > 0 ensures t in more {
      if t == x {
        assert more[|strs|] == x;
      } else {
        assert t in strs;
      }
    }
  }

  /** The blob and the offsets into it. */
  method Layout(strs: seq<Bytes>, count: seq<nat>) returns (t: Table)
    requires Ascending(strs) && |strs| == |count|
    ensures Holds(t, strs) && t.count == count
  {
    hide Less;
    var blob: Bytes, off: seq<nat>, len: seq<nat> := [], [], [];
    for s := 0 to |strs|
      invariant |off| == |len| == s
      invariant forall i :: 0 <= i < s ==> StringAt(Table(blob, off, len, count), i, strs[i])
    {
      ghost var before := Table(blob, off, len, count);
      off, len := off + [|blob|], len + [|strs[s]|];
      blob := blob + strs[s];
      forall i | 0 <= i < s + 1 ensures StringAt(Table(blob, off, len, count), i, strs[i]) {
        if i < s {
          assert StringAt(before, i, strs[i]);
          assert blob[off[i]..off[i] + |strs[i]|] == before.blob[off[i]..off[i] + |strs[i]|];
        }
      }
    }
    t := Table(blob, off, len, count);
  }

  // ---------------------------------------------------------------------------------------------
  // The trie
  // ---------------------------------------------------------------------------------------------

  datatype Trie = Trie(t: Table, nodes: Nodes, maxK: nat)

  ghost predicate Valid(trie: Trie, strs: seq<Bytes>) {
    && Holds(trie.t, strs) && Shape(trie.nodes)
    && (strs != [] ==> Share(strs, 0, |strs|, 0)
                       && exists start :: Covers(trie.nodes, trie.t, strs, trie.maxK, 0, 0, |strs|, 0, start))
  }

  /** Build: any counted strings give a valid trie of their totals with at most two nodes a string. */
  method Build(entries: seq<Completion>, maxK: nat) returns (trie: Trie, ghost strs: seq<Bytes>)
    requires maxK > 0
    ensures trie.maxK == maxK && Valid(trie, strs) && Tallied(entries, strs, trie.t.count)
    ensures strs != [] ==> |trie.nodes.labelStart| <= 2 * |strs|
  {
    hide *;
    var sorted := SortTexts(Filtered(entries));
    SortedEntries(entries);
    var ss, count := Merge(sorted);
    TalliedSame(entries, sorted, ss, count);
    var t := Layout(ss, count);
    strs := ss;
    var b := new Builder(t, maxK, strs);
    var root := b.NewNode(0, 0);
    RootShape(b, strs);
    if |t.strLen| > 0 {
      RootShares(t, strs);
      ghost var longest := Longest(strs);
      LongestIs(strs);
      b.Build(root, 0, |t.strLen|, 0, strs, longest);
      RootCovers(b.View(), t, strs, maxK, |t.strLen|);
    }
    trie := Trie(t, b.View(), maxK);
    TrieValid(trie, strs);
  }

  lemma SortedEntries(entries: seq<Completion>)
    ensures var sorted := SortTexts(Filtered(entries));
            TextsSorted(sorted) && (forall x :: x in sorted ==> Counts(x))
            && forall t :: TotalOf(sorted, t) == TotalOf(entries, t)
  {
    hide Less, Counts;
    SortsTexts(Filtered(entries));
    FilterTotal(entries, []);
    forall t ensures TotalOf(SortTexts(Filtered(entries)), t) == TotalOf(entries, t) {
      SortTotal(Filtered(entries), t);
      FilterTotal(entries, t);
    }
  }

  lemma TalliedSame(entries: seq<Completion>, sorted: seq<Completion>, strs: seq<Bytes>, count: seq<nat>)
    requires Tallied(sorted, strs, count) && forall t :: TotalOf(sorted, t) == TotalOf(entries, t)
    ensures Tallied(entries, strs, count) && |strs| == |count| && Ascending(strs)
  {
  }

  lemma RootShape(b: Builder, strs: seq<Bytes>)
    requires Holds(b.t, strs) && b.maxK > 0
    requires exists a: Nodes :: Shape(a) && a.labelStart == [] && b.View() == Appended(a, 0, 0)
    ensures b.Valid(strs) && |b.labelStart| == 1
  {
  }

  lemma RootShares(t: Table, strs: seq<Bytes>)
    requires Holds(t, strs) && |t.strLen| > 0
    ensures |t.strLen| == |strs| && Share(strs, 0, |strs|, 0)
  {
  }

  ghost function Longest(strs: seq<Bytes>): (n: nat) {
    if strs == [] then 0
    else
      var m, l := Longest(strs[..|strs| - 1]), |strs[|strs| - 1]|;
      if l > m then l else m
  }

  lemma {:induction false} LongestIs(strs: seq<Bytes>)
    ensures forall s :: 0 <= s < |strs| ==> |strs[s]| <= Longest(strs)
  {
    if strs != [] {
      LongestIs(strs[..|strs| - 1]);
    }
  }

  lemma RootCovers(a: Nodes, t: Table, strs: seq<Bytes>, k: nat, n: nat)
    requires Shape(a) && Holds(t, strs) && n == |strs| && Share(strs, 0, n, 0) && Covers(a, t, strs, k, 0, 0, n, 0, 1)
    ensures exists start :: Covers(a, t, strs, k, 0, 0, |strs|, 0, start)
  {
  }

  lemma TrieValid(trie: Trie, strs: seq<Bytes>)
    requires Holds(trie.t, strs) && Shape(trie.nodes)
    requires |trie.t.strLen| > 0 ==> Share(strs, 0, |strs|, 0)
    requires |trie.t.strLen| > 0 ==>
               exists start :: Covers(trie.nodes, trie.t, strs, trie.maxK, 0, 0, |strs|, 0, start)
    ensures Valid(trie, strs)
  {
  }

  // ---------------------------------------------------------------------------------------------
  // Lookup
  // ---------------------------------------------------------------------------------------------

  /** A node whose strings all begin with the first `pos` bytes of `prefix`, and which has every string
      that begins with the whole prefix. */
  ghost predicate Reached(trie: Trie, strs: seq<Bytes>, prefix: Bytes, node: nat, lo: nat, hi: nat, depth: nat,
                          start: nat, pos: nat)
  {
    && Holds(trie.t, strs) && Shape(trie.nodes) && Share(strs, lo, hi, depth)
    && Covers(trie.nodes, trie.t, strs, trie.maxK, node, lo, hi, depth, start)
    && pos <= |prefix| && pos <= depth && (pos < |prefix| ==> pos == depth)
    && (forall s :: lo <= s < hi ==> Starts(strs[s], prefix[..pos]))
    && (forall s :: 0 <= s < |strs| && Starts(strs[s], prefix) ==> lo <= s < hi)
  }

  /** The first byte of a child's label. */
  function ChildByte(trie: Trie, child: nat): (b: byte)
    requires child < |trie.nodes.labelStart| && trie.nodes.labelStart[child] < |trie.t.blob|
  {
    trie.t.blob[trie.nodes.labelStart[child]]
  }

  /** A child's label begins with byte `depth` of string `s`. */
  ghost predicate BeginsWith(trie: Trie, child: nat, strs: seq<Bytes>, s: nat, depth: nat)
    ensures BeginsWith(trie, child, strs, s, depth) ==> child < |trie.nodes.labelStart|
    ensures BeginsWith(trie, child, strs, s, depth) ==> trie.nodes.labelStart[child] < |trie.t.blob|
    ensures BeginsWith(trie, child, strs, s, depth) ==>
              s < |strs| && depth < |strs[s]| && ChildByte(trie, child) == strs[s][depth]
  {
    && child < |trie.nodes.labelStart| && trie.nodes.labelStart[child] < |trie.t.blob|
    && s < |strs| && depth < |strs[s]| && ChildByte(trie, child) == strs[s][depth]
  }

  lemma ChildByteIs(trie: Trie, strs: seq<Bytes>, node: nat, lo: nat, hi: nat, depth: nat, start: nat, g: nat)
    requires Holds(trie.t, strs) && Shape(trie.nodes) && Share(strs, lo, hi, depth)
    requires Covers(trie.nodes, trie.t, strs, trie.maxK, node, lo, hi, depth, start)
    requires node < |trie.nodes.firstChild| && g < |Children(strs, lo, hi, depth)|
    ensures BeginsWith(trie, trie.nodes.firstChild[node] + g, strs, Children(strs, lo, hi, depth)[g].lo, depth)
  {
    hide Holds, Share, Children, Covers;
    CoversParts(trie.nodes, trie.t, strs, trie.maxK, node, lo, hi, depth, start);
    var gs, child := Children(strs, lo, hi, depth), trie.nodes.firstChild[node] + g;
    assert GroupOk(strs, gs[g], depth) && LabelOk(trie.nodes, trie.t, child, gs[g], depth);
    GroupShares(strs, gs[g], depth);
    ByteAt(trie.t, strs, gs[g].lo, depth);
  }

  /** The child whose label begins with `first`, or -1. */
  method FindChild(trie: Trie, node: nat, first: byte, ghost strs: seq<Bytes>, ghost lo: nat, ghost hi: nat,
                   ghost depth: nat, ghost start: nat) returns (child: int, ghost g: int)
    requires Holds(trie.t, strs) && Shape(trie.nodes) && Share(strs, lo, hi, depth)
    requires Covers(trie.nodes, trie.t, strs, trie.maxK, node, lo, hi, depth, start)
    ensures var gs := Children(strs, lo, hi, depth);
            && -1 <= g < |gs|
            && (forall h :: 0 <= h < |gs| ==> gs[h].lo < |strs| && depth < |strs[gs[h].lo]|)
            && (g < 0 ==> child == -1)
            && (g >= 0 ==> child == trie.nodes.firstChild[node] + g && strs[gs[g].lo][depth] == first)
            && (g < 0 ==> forall h :: 0 <= h < |gs| ==> strs[gs[h].lo][depth] != first)
  {
    hide Holds, Share, Children, Covers, GroupOk, LabelOk, TopOk, ChildOf, ChildByte;
    CoversParts(trie.nodes, trie.t, strs, trie.maxK, node, lo, hi, depth, start);
    ChildrenOk(strs, lo, hi, depth);
    ghost var gs := Children(strs, lo, hi, depth);
    forall h | 0 <= h < |gs| ensures gs[h].lo < |strs| && depth < |strs[gs[h].lo]| {
      ChildByteIs(trie, strs, node, lo, hi, depth, start, h);
    }
    var fc := trie.nodes.firstChild[node];
    var low, high := fc, fc + trie.nodes.childCount[node] - 1;
    while low <= high
      invariant fc <= low <= high + 1 <= fc + |gs|
      invariant forall h :: 0 <= h < low - fc ==> strs[gs[h].lo][depth] < first
      invariant forall h :: high + 1 - fc <= h < |gs| ==> strs[gs[h].lo][depth] > first
      decreases high - low
    {
      var mid := (low + high) / 2;
      ChildByteIs(trie, strs, node, lo, hi, depth, start, mid - fc);
      var b := ChildByte(trie, mid);
      if b == first {
        return mid, mid - fc;
      }
      if b < first {
        low := mid + 1;
      } else {
        high := mid - 1;
      }
    }
    return -1, -1;
  }

  /** A string that begins with the prefix belongs to the child with the prefix's next byte. */
  lemma InChild(trie: Trie, strs: seq<Bytes>, prefix: Bytes, lo: nat, hi: nat, depth: nat, s: nat) returns (g: nat)
    requires Ascending(strs) && Share(strs, lo, hi, depth) && depth < |prefix|
    requires lo <= s < hi && Starts(strs[s], prefix)
    ensures var gs := Children(strs, lo, hi, depth);
            && g < |gs| && gs[g].lo <= s < gs[g].hi <= |strs| && depth < |strs[gs[g].lo]|
            && strs[gs[g].lo][depth] == prefix[depth]
  {
    hide Ascending, Share, Less;
    ChildrenOk(strs, lo, hi, depth);
    var gs := Children(strs, lo, hi, depth);
    RestLonger(strs, lo, hi, depth);
    NotOwn(strs, prefix, lo, hi, depth, s);
    assert InSome(gs, s);
    g :| 0 <= g < |gs| && gs[g].lo <= s < gs[g].hi;
    assert GroupOk(strs, gs[g], depth);
    GroupShares(strs, gs[g], depth);
    SameByte(strs, gs[g], depth, s);
    assert strs[s][depth] == strs[s][..|prefix|][depth] == prefix[depth];
  }

  lemma NotOwn(strs: seq<Bytes>, prefix: Bytes, lo: nat, hi: nat, depth: nat, s: nat)
    requires Share(strs, lo, hi, depth) && depth < |prefix| && lo <= s < hi && Starts(strs[s], prefix)
    ensures s >= Rest(strs, lo, hi, depth)
  {
  }

  lemma SameByte(strs: seq<Bytes>, g: Group, i: nat, s: nat)
    requires Share(strs, g.lo, g.hi, g.lcp) && i < g.lcp && g.lo <= s < g.hi
    ensures |strs[s]| > i && strs[s][i] == strs[g.lo][i] && strs[s][..g.lcp] == strs[g.lo][..g.lcp]
    ensures |strs[s]| >= g.lcp
  {
    assert strs[s][..g.lcp] == strs[g.lo][..g.lcp];
    assert strs[s][i] == strs[s][..g.lcp][i] && strs[g.lo][i] == strs[g.lo][..g.lcp][i];
  }

  /** The label bytes compared on the way down. */
  lemma LabelBytes(trie: Trie, strs: seq<Bytes>, child: nat, g: Group, depth: nat, m: nat)
    requires Holds(trie.t, strs) && Shape(trie.nodes) && GroupOk(strs, g, depth) && m <= g.lcp - depth
    requires LabelOk(trie.nodes, trie.t, child, g, depth)
    ensures child < |trie.nodes.labelStart| && trie.nodes.labelLen[child] == g.lcp - depth
    ensures g.lo < |strs| && depth + m <= g.lcp <= |strs[g.lo]|
    ensures trie.nodes.labelStart[child] + m <= |trie.t.blob|
    ensures trie.t.blob[trie.nodes.labelStart[child]..trie.nodes.labelStart[child] + m] == strs[g.lo][depth..depth + m]
  {
    var str, off := strs[g.lo], trie.t.strOffset[g.lo];
    assert StringAt(trie.t, g.lo, str);
    PartOfPart(trie.t.blob, off, off + |str|, depth, depth + m);
  }

  lemma PartOfPart(s: Bytes, lo: nat, hi: nat, from: nat, to: nat)
    requires lo <= hi <= |s| && from <= to <= hi - lo
    ensures s[lo..hi][from..to] == s[lo + from..lo + to]
  {
    var t := s[lo..hi];
    forall i | 0 <= i < to - from ensures t[from..to][i] == s[lo + from..lo + to][i] {
      assert t[from..to][i] == t[from + i];
    }
  }

  /** Going down to a child whose label matches. */
  lemma GoDown(trie: Trie, strs: seq<Bytes>, prefix: Bytes, node: nat, lo: nat, hi: nat, depth: nat, start: nat, g: nat,
               m: nat)
    returns (start': nat)
    requires Reached(trie, strs, prefix, node, lo, hi, depth, start, depth) && depth < |prefix|
    requires var gs := Children(strs, lo, hi, depth);
             && g < |gs| && GroupOk(strs, gs[g], depth) && strs[gs[g].lo][depth] == prefix[depth]
             && m == (if gs[g].lcp - depth <= |prefix| - depth then gs[g].lcp - depth else |prefix| - depth)
             && depth + m <= |strs[gs[g].lo]| && strs[gs[g].lo][depth..depth + m] == prefix[depth..depth + m]
    ensures var gs := Children(strs, lo, hi, depth);
            Reached(trie, strs, prefix, trie.nodes.firstChild[node] + g, gs[g].lo, gs[g].hi,
                    gs[g].lcp, start', depth + m)
  {
    hide Holds, Children, Covers, LabelOk, TopOk, Less;
    var gs := Children(strs, lo, hi, depth);
    CoversParts(trie.nodes, trie.t, strs, trie.maxK, node, lo, hi, depth, start);
    assert ChildOf(trie.nodes, trie.t, strs, trie.maxK, trie.nodes.firstChild[node] + g, gs[g], start);
    start' :| start <= start' && Covers(trie.nodes, trie.t, strs, trie.maxK, trie.nodes.firstChild[node] + g,
                                        gs[g].lo, gs[g].hi, gs[g].lcp, start');
    GroupShares(strs, gs[g], depth);
    ChildInside(strs, lo, hi, depth, g);
    var str := strs[gs[g].lo];
    assert str[..depth + m] == str[..depth] + str[depth..depth + m];
    assert prefix[..depth + m] == prefix[..depth] + prefix[depth..depth + m];
    assert str[..depth] == prefix[..depth] by { assert Starts(str, prefix[..depth]); }
    forall s | gs[g].lo <= s < gs[g].hi ensures Starts(strs[s], prefix[..depth + m]) {
      SameByte(strs, gs[g], depth, s);
      assert strs[s][..depth + m] == strs[s][..gs[g].lcp][..depth + m] == str[..gs[g].lcp][..depth + m]
             == str[..depth + m];
    }
    forall s | 0 <= s < |strs| && Starts(strs[s], prefix) ensures gs[g].lo <= s < gs[g].hi {
      var h := InChild(trie, strs, prefix, lo, hi, depth, s);
      SameGroup(strs, lo, hi, depth, g, h);
    }
  }

  lemma ChildInside(strs: seq<Bytes>, lo: nat, hi: nat, depth: nat, g: nat)
    requires Ascending(strs) && Share(strs, lo, hi, depth) && g < |Children(strs, lo, hi, depth)|
    ensures lo <= Children(strs, lo, hi, depth)[g].lo && Children(strs, lo, hi, depth)[g].hi <= hi
  {
    ChildrenOk(strs, lo, hi, depth);
  }

  lemma SameGroup(strs: seq<Bytes>, lo: nat, hi: nat, depth: nat, g: nat, h: nat)
    requires Ascending(strs) && Share(strs, lo, hi, depth)
    requires var gs := Children(strs, lo, hi, depth);
             && g < |gs| && h < |gs| && gs[g].lo < |strs| && gs[h].lo < |strs|
             && depth < |strs[gs[g].lo]| && depth < |strs[gs[h].lo]|
             && strs[gs[g].lo][depth] == strs[gs[h].lo][depth]
    ensures g == h
  {
    hide Ascending, Share, Less, GroupOk, Children;
    ChildrenOk(strs, lo, hi, depth);
  }

  lemma SameSlice(s: Bytes, t: Bytes, prefix: Bytes, n: nat, depth: nat, m: nat)
    requires Starts(s, prefix) && n <= |s| && n <= |t| && s[..n] == t[..n]
    requires depth + m <= n && depth + m <= |prefix|
    ensures prefix[depth..depth + m] == t[depth..depth + m]
  {
    assert s[..|prefix|][depth..depth + m] == s[depth..depth + m] == s[..n][depth..depth + m];
    assert t[..n][depth..depth + m] == t[depth..depth + m];
  }

  /** No string begins with a prefix that a label contradicts. */
  lemma LabelDiffers(trie: Trie, strs: seq<Bytes>, prefix: Bytes, node: nat, lo: nat, hi: nat, depth: nat, start: nat,
                     g: nat, m: nat)
    requires Reached(trie, strs, prefix, node, lo, hi, depth, start, depth) && depth < |prefix|
    requires var gs := Children(strs, lo, hi, depth);
             && g < |gs| && GroupOk(strs, gs[g], depth) && strs[gs[g].lo][depth] == prefix[depth]
             && m <= gs[g].lcp - depth && m <= |prefix| - depth && depth + m <= |strs[gs[g].lo]|
             && strs[gs[g].lo][depth..depth + m] != prefix[depth..depth + m]
    ensures forall s :: 0 <= s < |strs| ==> !Starts(strs[s], prefix)
  {
    hide Holds, Children, Covers, Less;
    var gs := Children(strs, lo, hi, depth);
    forall s | 0 <= s < |strs| ensures !Starts(strs[s], prefix) {
      if Starts(strs[s], prefix) {
        var h := InChild(trie, strs, prefix, lo, hi, depth, s);
        SameGroup(strs, lo, hi, depth, g, h);
        SameByte(strs, gs[g], depth, s);
        SameSlice(strs[s], strs[gs[g].lo], prefix, gs[g].lcp, depth, m);
      }
    }
  }

  /** FindNode: the node with exactly the strings that begin with the prefix, or -1 if there are none. */
  method FindNode(trie: Trie, prefix: Bytes, ghost strs: seq<Bytes>) returns (r: int, ghost lo: nat, ghost hi: nat)
    requires Valid(trie, strs) && strs != []
    ensures r < 0 ==> forall s :: 0 <= s < |strs| ==> !Starts(strs[s], prefix)
    ensures r >= 0 ==> r < |trie.nodes.topStart| && r < |trie.nodes.topCount| && Shape(trie.nodes)
    ensures r >= 0 ==> lo < hi <= |strs| == |trie.t.count| && TopOk(trie.nodes, trie.t.count, r, lo, hi, trie.maxK)
                       && forall s :: 0 <= s < |strs| ==> (Starts(strs[s], prefix) <==> lo <= s < hi)
  {
    hide *;
    var node, pos := 0, 0;
    ghost var depth: nat, start: nat;
    start := StartAtRoot(trie, prefix, strs);
    lo, hi, depth := 0, |strs|, 0;
    while pos < |prefix|
      invariant 0 <= node && 0 <= pos <= |prefix| && Reached(trie, strs, prefix, node, lo, hi, depth, start, pos)
      decreases |prefix| - pos
    {
      ReachedParts(trie, strs, prefix, node, lo, hi, depth, start, pos);
      var child;
      ghost var g;
      child, g := FindChild(trie, node, prefix[pos], strs, lo, hi, depth, start);
      if child < 0 {
        NoChild(trie, strs, prefix, node, lo, hi, depth, start);
        return -1, lo, hi;
      }
      ChildLabel(trie, strs, node, lo, hi, depth, start, g);
      var labelLen := trie.nodes.labelLen[child];
      var m := if labelLen < |prefix| - pos then labelLen else |prefix| - pos;
      var from := trie.nodes.labelStart[child];
      LabelBytes(trie, strs, child, Children(strs, lo, hi, depth)[g], depth, m);
      if trie.t.blob[from..from + m] != prefix[pos..pos + m] {
        LabelDiffers(trie, strs, prefix, node, lo, hi, depth, start, g, m);
        return -1, lo, hi;
      }
      start := GoDown(trie, strs, prefix, node, lo, hi, depth, start, g, m);
      ghost var group := Children(strs, lo, hi, depth)[g];
      lo, hi, depth := group.lo, group.hi, group.lcp;
      pos := pos + m;
      node := child;
    }
    Arrived(trie, strs, prefix, node, lo, hi, depth, start, pos);
    r := node;
  }

  lemma StartAtRoot(trie: Trie, prefix: Bytes, strs: seq<Bytes>) returns (start: nat)
    requires Valid(trie, strs) && strs != []
    ensures Reached(trie, strs, prefix, 0, 0, |strs|, 0, start, 0)
  {
    hide Covers, Holds;
    start :| Covers(trie.nodes, trie.t, strs, trie.maxK, 0, 0, |strs|, 0, start);
  }

  lemma ReachedParts(trie: Trie, strs: seq<Bytes>, prefix: Bytes, node: nat, lo: nat, hi: nat, depth: nat, start: nat,
                     pos: nat)
    requires Reached(trie, strs, prefix, node, lo, hi, depth, start, pos) && pos < |prefix|
    ensures pos == depth && Holds(trie.t, strs) && Shape(trie.nodes) && Share(strs, lo, hi, depth)
    ensures Covers(trie.nodes, trie.t, strs, trie.maxK, node, lo, hi, depth, start)
  {
  }

  lemma NoChild(trie: Trie, strs: seq<Bytes>, prefix: Bytes, node: nat, lo: nat, hi: nat, depth: nat, start: nat)
    requires Reached(trie, strs, prefix, node, lo, hi, depth, start, depth) && depth < |prefix|
    requires var gs := Children(strs, lo, hi, depth);
             && (forall h :: 0 <= h < |gs| ==> gs[h].lo < |strs| && depth < |strs[gs[h].lo]|)
             && (forall h :: 0 <= h < |gs| ==> strs[gs[h].lo][depth] != prefix[depth])
    ensures forall s :: 0 <= s < |strs| ==> !Starts(strs[s], prefix)
  {
    hide Holds, Children, Covers, Less;
    forall s | 0 <= s < |strs| ensures !Starts(strs[s], prefix) {
      if Starts(strs[s], prefix) {
        var h := InChild(trie, strs, prefix, lo, hi, depth, s);
      }
    }
  }

  lemma ChildLabel(trie: Trie, strs: seq<Bytes>, node: nat, lo: nat, hi: nat, depth: nat, start: nat, g: nat)
    requires Holds(trie.t, strs) && Shape(trie.nodes) && Share(strs, lo, hi, depth)
    requires Covers(trie.nodes, trie.t, strs, trie.maxK, node, lo, hi, depth, start)
    requires g < |Children(strs, lo, hi, depth)|
    ensures var gs, child := Children(strs, lo, hi, depth), trie.nodes.firstChild[node] + g;
            && GroupOk(strs, gs[g], depth) && LabelOk(trie.nodes, trie.t, child, gs[g], depth)
            && child < |trie.nodes.labelLen| && child < |trie.nodes.labelStart|
            && trie.nodes.labelLen[child] == gs[g].lcp - depth && trie.nodes.labelLen[child] > 0
  {
    hide Holds, Share, Children, Covers;
    CoversParts(trie.nodes, trie.t, strs, trie.maxK, node, lo, hi, depth, start);
    var gs, child := Children(strs, lo, hi, depth), trie.nodes.firstChild[node] + g;
    assert GroupOk(strs, gs[g], depth) && LabelOk(trie.nodes, trie.t, child, gs[g], depth);
  }

  lemma Arrived(trie: Trie, strs: seq<Bytes>, prefix: Bytes, node: nat, lo: nat, hi: nat, depth: nat, start: nat,
                pos: nat)
    requires Reached(trie, strs, prefix, node, lo, hi, depth, start, pos) && pos == |prefix|
    ensures Shape(trie.nodes) && node < |trie.nodes.topStart| && node < |trie.nodes.topCount|
    ensures lo < hi <= |strs| == |trie.t.count| && TopOk(trie.nodes, trie.t.count, node, lo, hi, trie.maxK)
    ensures forall s :: 0 <= s < |strs| ==> (Starts(strs[s], prefix) <==> lo <= s < hi)
  {
    hide Holds, Covers;
    CoversParts(trie.nodes, trie.t, strs, trie.maxK, node, lo, hi, depth, start);
    assert prefix[..pos] == prefix;
  }

  // ---------------------------------------------------------------------------------------------
  // Completions
  // ---------------------------------------------------------------------------------------------

  /** Completion order: by falling count, then by text. */
  predicate Precedes(a: Completion, b: Completion) {
    a.count > b.count || (a.count == b.count && Less(a.text, b.text))
  }

  /** A string of `entries` with its total, that begins with `prefix`. */
  ghost predicate Completes(entries: seq<Completion>, prefix: Bytes, x: Completion) {
    x.count > 0 && x.count == TotalOf(entries, x.text) && Starts(x.text, prefix)
  }

  /** `r` lists the first `k` completions of `prefix`, or all of them if there are fewer. */
  ghost predicate FirstCompletions(entries: seq<Completion>, prefix: Bytes, k: nat, r: seq<Completion>) {
    && |r| <= k
    && (forall i, j :: 0 <= i < j < |r| ==> Precedes(r[i], r[j]))
    && (forall i :: 0 <= i < |r| ==> Completes(entries, prefix, r[i]))
    && (forall x :: Completes(entries, prefix, x) && x !in r ==>
          |r| == k && forall i :: 0 <= i < |r| ==> Precedes(r[i], x))
  }

  function Listed(strs: seq<Bytes>, count: seq<nat>, l: seq<nat>): (r: seq<Completion>)
    requires |strs| == |count| && InTable(count, l)
    ensures |r| == |l| && forall i :: 0 <= i < |r| ==> r[i] == Completion(strs[l[i]], count[l[i]])
  {
    seq(|l|, i requires 0 <= i < |l| => Completion(strs[l[i]], count[l[i]]))
  }

  lemma RankedPrecedes(strs: seq<Bytes>, count: seq<nat>, s: nat, x: nat)
    requires Ascending(strs) && |strs| == |count| && s < |strs| && x < |strs|
    ensures RanksBefore(Candidate(count, s), Candidate(count, x))
         ==> Precedes(Completion(strs[s], count[s]), Completion(strs[x], count[x]))
  {
  }

  lemma ListedHas(strs: seq<Bytes>, count: seq<nat>, l: seq<nat>, s: nat)
    requires |strs| == |count| && InTable(count, l) && s < |strs|
    ensures s in l ==> Completion(strs[s], count[s]) in Listed(strs, count, l)
  {
    if s in l {
      var i :| 0 <= i < |l| && l[i] == s;
      assert Listed(strs, count, l)[i] == Completion(strs[s], count[s]);
    }
  }

  /** A top-k list of places is the first k completions. */
  lemma ListIsCompletions(entries: seq<Completion>, strs: seq<Bytes>, count: seq<nat>, prefix: Bytes, lo: nat, hi: nat,
                          k: nat, l: seq<nat>)
    requires Tallied(entries, strs, count) && lo <= hi <= |strs| && InTable(count, l)
    requires IsTopK(Candidates(count, l), RangeCandidates(count, lo, hi), k)
    requires forall s :: 0 <= s < |strs| ==> (Starts(strs[s], prefix) <==> lo <= s < hi)
    ensures FirstCompletions(entries, prefix, k, Listed(strs, count, l))
  {
    hide TotalOf, Less, RanksBefore, Starts;
    var c, r := Candidates(count, l), Listed(strs, count, l);
    forall i, j | 0 <= i < j < |r| ensures Precedes(r[i], r[j]) {
      assert RanksBefore(c[i], c[j]);
      RankedPrecedes(strs, count, l[i], l[j]);
    }
    forall i | 0 <= i < |r| ensures Completes(entries, prefix, r[i]) {
      assert c[i] in RangeCandidates(count, lo, hi);
    }
    forall x | Completes(entries, prefix, x) && x !in r
      ensures |r| == k && forall i :: 0 <= i < |r| ==> Precedes(r[i], x)
    {
      assert x.text in strs;
      var s :| 0 <= s < |strs| && strs[s] == x.text;
      InList(count, l, s);
      ListedHas(strs, count, l, s);
      assert Candidate(count, s) in RangeCandidates(count, lo, hi);
      forall i | 0 <= i < |r| ensures Precedes(r[i], x) {
        assert RanksBefore(c[i], Candidate(count, s));
        RankedPrecedes(strs, count, l[i], s);
      }
    }
  }

  /** `x` is listed before `y`: it counts more, or as much and comes first where the two strings differ. */
  ghost predicate ListedBefore(x: Completion, y: Completion) {
    x.count > y.count || (x.count == y.count && exists i :: FirstDiffer(x.text, y.text, i))
  }

  /** What the first completions are, in full: strings that begin with the prefix, with their totals, in order; and
      every other such string comes after `k` of them. */
  lemma CompletionsMeaning(entries: seq<Completion>, prefix: Bytes, k: nat, r: seq<Completion>)
    requires FirstCompletions(entries, prefix, k, r)
    ensures |r| <= k && forall i, j :: 0 <= i < j < |r| ==> ListedBefore(r[i], r[j])
    ensures forall i :: 0 <= i < |r| ==>
              r[i].count == TotalOf(entries, r[i].text) > 0
              && |prefix| <= |r[i].text| && r[i].text[..|prefix|] == prefix
    ensures forall t: Bytes :: TotalOf(entries, t) > 0 && |prefix| <= |t| && t[..|prefix|] == prefix ==>
              Completion(t, TotalOf(entries, t)) in r
              || (|r| == k && forall i :: 0 <= i < |r| ==> ListedBefore(r[i], Completion(t, TotalOf(entries, t))))
  {
    hide TotalOf, FirstDiffer;
    forall x: Completion, y: Completion ensures Precedes(x, y) <==> ListedBefore(x, y) {
      LessMeaning(x.text, y.text);
    }
    forall i | 0 <= i < |r|
      ensures r[i].count == TotalOf(entries, r[i].text) > 0
              && |prefix| <= |r[i].text| && r[i].text[..|prefix|] == prefix
    {
      assert Completes(entries, prefix, r[i]);
    }
    forall t: Bytes | TotalOf(entries, t) > 0 && |prefix| <= |t| && t[..|prefix|] == prefix
      ensures Completion(t, TotalOf(entries, t)) in r
              || (|r| == k && forall i :: 0 <= i < |r| ==> ListedBefore(r[i], Completion(t, TotalOf(entries, t))))
    {
      assert Completes(entries, prefix, Completion(t, TotalOf(entries, t)));
    }
  }

  /** Lookup: the first min(k, maxK) completions of any prefix, even one that ends inside an edge. */
  method Lookup(trie: Trie, prefix: Bytes, k: int, ghost entries: seq<Completion>, ghost strs: seq<Bytes>)
    returns (r: seq<Completion>)
    requires Valid(trie, strs) && Tallied(entries, strs, trie.t.count)
    ensures FirstCompletions(entries, prefix, if k <= 0 then 0 else if k <= trie.maxK then k else trie.maxK, r)
  {
    hide *;
    ValidCounts(trie, strs);
    if k <= 0 || |trie.t.strLen| == 0 {
      NoCompletions(entries, strs, trie.t.count, prefix, if k <= 0 then 0 else if k <= trie.maxK then k else trie.maxK);
      return [];
    }
    var node;
    ghost var lo, hi;
    node, lo, hi := FindNode(trie, prefix, strs);
    if node < 0 {
      NothingStarts(entries, strs, trie.t.count, prefix, if k <= trie.maxK then k else trie.maxK);
      return [];
    }
    TopParts(trie, strs, node, lo, hi);
    var s, n := trie.nodes.topStart[node], trie.nodes.topCount[node];
    var take := if k <= n then k else n;
    ghost var l := trie.nodes.top[s..s + take];
    TakeTop(trie, strs, node, lo, hi, k, take, l);
    r := [];
    for i := 0 to take
      invariant |r| == i
      invariant forall j :: 0 <= j < i ==> r[j] == Completion(strs[l[j]], trie.t.count[l[j]])
    {
      var x := trie.nodes.top[s + i];
      assert x == l[i];
      StringOf(trie, strs, x);
      var off := trie.t.strOffset[x];
      r := r + [Completion(trie.t.blob[off..off + trie.t.strLen[x]], trie.t.count[x])];
    }
    ListIsCompletions(entries, strs, trie.t.count, prefix, lo, hi, if k <= trie.maxK then k else trie.maxK, l);
    assert r == Listed(strs, trie.t.count, l);
  }

  lemma ValidCounts(trie: Trie, strs: seq<Bytes>)
    requires Valid(trie, strs)
    ensures |trie.t.strLen| == |trie.t.strOffset| == |trie.t.count| == |strs|
  {
  }

  lemma NoCompletions(entries: seq<Completion>, strs: seq<Bytes>, count: seq<nat>, prefix: Bytes, k: nat)
    requires Tallied(entries, strs, count) && (k == 0 || strs == [])
    ensures FirstCompletions(entries, prefix, k, [])
  {
  }

  lemma NothingStarts(entries: seq<Completion>, strs: seq<Bytes>, count: seq<nat>, prefix: Bytes, k: nat)
    requires Tallied(entries, strs, count) && forall s :: 0 <= s < |strs| ==> !Starts(strs[s], prefix)
    ensures FirstCompletions(entries, prefix, k, [])
  {
    hide TotalOf, Less, Starts;
    forall x ensures !Completes(entries, prefix, x) {
      if TotalOf(entries, x.text) > 0 {
        assert x.text in strs;
      }
    }
  }

  lemma TopParts(trie: Trie, strs: seq<Bytes>, node: nat, lo: nat, hi: nat)
    requires Shape(trie.nodes) && node < |trie.nodes.topStart| && hi <= |trie.t.count|
    requires TopOk(trie.nodes, trie.t.count, node, lo, hi, trie.maxK)
    ensures trie.nodes.topStart[node] + trie.nodes.topCount[node] <= |trie.nodes.top|
    ensures trie.nodes.topCount[node] <= trie.maxK
  {
  }

  lemma TakeTop(trie: Trie, strs: seq<Bytes>, node: nat, lo: nat, hi: nat, k: nat, take: nat, l: seq<nat>)
    requires Shape(trie.nodes) && node < |trie.nodes.topStart| && hi <= |trie.t.count| == |strs| && k > 0
    requires TopOk(trie.nodes, trie.t.count, node, lo, hi, trie.maxK)
    requires take == if k <= trie.nodes.topCount[node] then k else trie.nodes.topCount[node]
    requires trie.nodes.topStart[node] + trie.nodes.topCount[node] <= |trie.nodes.top|
    requires l == trie.nodes.top[trie.nodes.topStart[node]..trie.nodes.topStart[node] + take]
    ensures InTable(trie.t.count, l) && forall i :: 0 <= i < |l| ==> l[i] < |strs|
    ensures IsTopK(Candidates(trie.t.count, l), RangeCandidates(trie.t.count, lo, hi),
                   if k <= trie.maxK then k else trie.maxK)
  {
    hide IsTopK, RanksBefore;
    var s, n := trie.nodes.topStart[node], trie.nodes.topCount[node];
    var all := trie.nodes.top[s..s + n];
    assert InTable(trie.t.count, all);
    var j := if k <= trie.maxK then k else trie.maxK;
    FrontOfTopK(Candidates(trie.t.count, all), RangeCandidates(trie.t.count, lo, hi), trie.maxK, j);
    TopParts(trie, strs, node, lo, hi);
    FrontCandidates(trie.t.count, all, take);
    assert all[..take] == l;
  }

  lemma StringOf(trie: Trie, strs: seq<Bytes>, s: nat)
    requires Valid(trie, strs) && s < |strs|
    ensures s < |trie.t.strOffset| && s < |trie.t.strLen| && trie.t.strOffset[s] + trie.t.strLen[s] <= |trie.t.blob|
    ensures trie.t.blob[trie.t.strOffset[s]..trie.t.strOffset[s] + trie.t.strLen[s]] == strs[s]
  {
    hide Covers;
    assert StringAt(trie.t, s, strs[s]);
  }

  /** CountOf: the total of an exact string, zero if it is absent. */
  method CountOf(trie: Trie, text: Bytes, ghost entries: seq<Completion>, ghost strs: seq<Bytes>) returns (n: nat)
    requires Valid(trie, strs) && Tallied(entries, strs, trie.t.count)
    ensures n == TotalOf(entries, text)
  {
    hide TotalOf, Less, Covers, Shape, Share;
    ValidCounts(trie, strs);
    var lo, hi := 0, |trie.t.strLen| - 1;
    while lo <= hi
      invariant 0 <= lo <= hi + 1 <= |strs|
      invariant forall s :: 0 <= s < lo ==> Less(strs[s], text)
      invariant forall s :: hi < s < |strs| ==> Less(text, strs[s])
      decreases hi - lo
    {
      var mid := (lo + hi) / 2;
      StringOf(trie, strs, mid);
      var str := trie.t.blob[trie.t.strOffset[mid]..trie.t.strOffset[mid] + trie.t.strLen[mid]];
      LessTotal(str, text);
      if str == text {
        return trie.t.count[mid];
      }
      if Less(str, text) {
        BelowAll(strs, mid, text);
        lo := mid + 1;
      } else {
        AboveAll(strs, mid, text);
        hi := mid - 1;
      }
    }
    LessTotal(text, text);
    assert text !in strs;
    return 0;
  }

  lemma BelowAll(strs: seq<Bytes>, mid: nat, text: Bytes)
    requires Ascending(strs) && mid < |strs| && Less(strs[mid], text)
    ensures forall s :: 0 <= s <= mid ==> Less(strs[s], text)
  {
    hide Less;
    forall s | 0 <= s <= mid ensures Less(strs[s], text) {
      if s < mid {
        LessTransitive(strs[s], strs[mid], text);
      }
    }
  }

  lemma AboveAll(strs: seq<Bytes>, mid: nat, text: Bytes)
    requires Ascending(strs) && mid < |strs| && Less(text, strs[mid])
    ensures forall s :: mid <= s < |strs| ==> Less(text, strs[s])
  {
    hide Less;
    forall s | mid <= s < |strs| ensures Less(text, strs[s]) {
      if mid < s {
        LessTransitive(text, strs[mid], strs[s]);
      }
    }
  }
}
