/** The completions stored at a node of the trie: the best of its own string and its children's lists. */
module TrieTops {
  import opened Bits
  import opened ByteStrings
  import opened Ranking
  import opened Sequences
  import opened TrieLayout

  function Docs(l: seq<ScoredDoc>): (r: seq<nat>)
    ensures |r| == |l|
  {
    seq(|l|, i requires 0 <= i < |l| => l[i].doc)
  }

  ghost predicate InTable(count: seq<nat>, l: seq<nat>) {
    forall i :: 0 <= i < |l| ==> l[i] < |count|
  }

  /** _scratch.Sort: by falling count, then by rising place. */
  function SortByCount(count: seq<nat>, l: seq<nat>): (r: seq<nat>)
    requires InTable(count, l)
    ensures |r| == |l|
  {
    Docs(SortRanked(Candidates(count, l)))
  }

  lemma SortedCandidates(count: seq<nat>, l: seq<nat>)
    requires InTable(count, l)
    ensures InTable(count, SortByCount(count, l))
    ensures Candidates(count, SortByCount(count, l)) == SortRanked(Candidates(count, l))
  {
    var c := Candidates(count, l);
    var r := SortRanked(c);
    forall i | 0 <= i < |r| ensures r[i].doc < |count| && r[i] == Candidate(count, r[i].doc) {
      assert r[i] in c;
    }
  }

  /** String `s` is the node's own, or lies in one of the first `g` groups. */
  ghost predicate Seen(gs: seq<Group>, g: nat, lo: nat, rest: nat, s: nat) {
    lo <= s < rest || exists h :: 0 <= h < g && h < |gs| && gs[h].lo <= s < gs[h].hi
  }

  /** `scratch` lists strings of the first `g` groups, each once; any it leaves out are beaten. */
  ghost predicate Merged(count: seq<nat>, gs: seq<Group>, g: nat, lo: nat, hi: nat, rest: nat, scratch: seq<nat>,
                         k: nat)
    ensures Merged(count, gs, g, lo, hi, rest, scratch, k) ==> InTable(count, scratch)
  {
    && hi <= |count|
    && InTable(count, scratch)
    && (forall i :: 0 <= i < |scratch| ==> lo <= scratch[i] < hi && Seen(gs, g, lo, rest, scratch[i]))
    && (forall i, j :: 0 <= i < j < |scratch| ==> scratch[i] != scratch[j])
    && (forall s :: lo <= s < hi && Seen(gs, g, lo, rest, s) ==> s in scratch || LeftOut(count, scratch, s, k))
  }

  ghost predicate LeftOut(count: seq<nat>, scratch: seq<nat>, s: nat, k: nat)
    requires InTable(count, scratch) && s < |count|
  {
    Beaten(Candidate(count, s), Members(Candidates(count, scratch)), k)
  }

  lemma StartMerge(t: Table, strs: seq<Bytes>, lo: nat, hi: nat, depth: nat, gs: seq<Group>, scratch: seq<nat>, k: nat)
    requires Holds(t, strs) && Share(strs, lo, hi, depth)
    requires scratch == if Rest(strs, lo, hi, depth) == lo then [] else [lo]
    ensures Merged(t.count, gs, 0, lo, hi, Rest(strs, lo, hi, depth), scratch, k)
  {
  }

  lemma BeatenMore(x: ScoredDoc, c: set<ScoredDoc>, c': set<ScoredDoc>, k: nat)
    requires Beaten(x, c, k) && c <= c'
    ensures Beaten(x, c', k)
  {
    var l :| Ranked(l) && BeatenBy(x, c, k, l);
    assert BeatenBy(x, c', k, l);
  }

  /** A child's list is of strings of its group, each once. */
  lemma ListInGroup(count: seq<nat>, list: seq<nat>, lo: nat, hi: nat, k: nat)
    requires hi <= |count| && BestOf(count, list, lo, hi, k)
    ensures InTable(count, list) && forall i :: 0 <= i < |list| ==> lo <= list[i] < hi
    ensures forall i, j :: 0 <= i < j < |list| ==> list[i] != list[j]
  {
    var c := Candidates(count, list);
    forall i | 0 <= i < |list| ensures lo <= list[i] < hi {
      assert c[i] in RangeCandidates(count, lo, hi);
    }
    forall i, j | 0 <= i < j < |list| ensures list[i] != list[j] {
      assert RanksBefore(c[i], c[j]);
    }
  }

  lemma InList(count: seq<nat>, list: seq<nat>, s: nat)
    requires InTable(count, list) && s < |count|
    ensures Candidate(count, s) in Candidates(count, list) <==> s in list
  {
    var c := Candidates(count, list);
    if s in list {
      var i :| 0 <= i < |list| && list[i] == s;
      assert c[i] == Candidate(count, s);
    }
    if Candidate(count, s) in c {
      var i :| 0 <= i < |c| && c[i] == Candidate(count, s);
      assert list[i] == s;
    }
  }

  /** Add a child's list. */
  lemma MergeOne(t: Table, strs: seq<Bytes>, gs: seq<Group>, g: nat, lo: nat, hi: nat, depth: nat, scratch: seq<nat>,
                 list: seq<nat>, k: nat)
    requires Holds(t, strs) && Share(strs, lo, hi, depth) && g < |gs|
    requires Partition(strs, gs, Rest(strs, lo, hi, depth), hi, depth)
    requires Merged(t.count, gs, g, lo, hi, Rest(strs, lo, hi, depth), scratch, k)
    requires gs[g].hi <= |t.count| && BestOf(t.count, list, gs[g].lo, gs[g].hi, k)
    ensures Merged(t.count, gs, g + 1, lo, hi, Rest(strs, lo, hi, depth), scratch + list, k)
  {
    hide Holds, Share, BestOf, GroupOk, LeftOut, Rest, Candidates;
    var rest := Rest(strs, lo, hi, depth);
    ListInGroup(t.count, list, gs[g].lo, gs[g].hi, k);
    var more := scratch + list;
    assert forall i :: 0 <= i < |more| ==> more[i] == if i < |scratch| then scratch[i] else list[i - |scratch|];
    forall i | 0 <= i < |scratch| ensures scratch[i] < gs[g].lo {
      SeenBefore(strs, gs, g, lo, rest, hi, depth, scratch[i]);
    }
    forall i | 0 <= i < |more| ensures lo <= more[i] < hi && Seen(gs, g + 1, lo, rest, more[i]) {
      SeenLater(gs, g, lo, rest, more[i]);
      assert Seen(gs, g, lo, rest, more[i]) || gs[g].lo <= more[i] < gs[g].hi;
    }
    forall s | lo <= s < hi && Seen(gs, g + 1, lo, rest, s) ensures s in more || LeftOut(t.count, more, s, k) {
      if Seen(gs, g, lo, rest, s) {
        if s in scratch {
        } else {
          LeftOutMore(t.count, scratch, more, s, k);
        }
      } else if s !in list {
        NotListed(t.count, list, gs[g].lo, gs[g].hi, s, more, k);
      }
    }
  }

  lemma SeenLater(gs: seq<Group>, g: nat, lo: nat, rest: nat, s: nat)
    requires g < |gs|
    ensures Seen(gs, g + 1, lo, rest, s) <==> Seen(gs, g, lo, rest, s) || gs[g].lo <= s < gs[g].hi
  {
  }

  /** Strings seen before group `g` come before it. */
  lemma SeenBefore(strs: seq<Bytes>, gs: seq<Group>, g: nat, lo: nat, rest: nat, hi: nat, depth: nat, s: nat)
    requires Partition(strs, gs, rest, hi, depth) && g < |gs| && Seen(gs, g, lo, rest, s)
    ensures s < gs[g].lo
  {
    hide GroupOk;
    if !(lo <= s < rest) {
      var h :| 0 <= h < g && h < |gs| && gs[h].lo <= s < gs[h].hi;
    }
  }

  lemma LeftOutMore(count: seq<nat>, scratch: seq<nat>, more: seq<nat>, s: nat, k: nat)
    requires InTable(count, scratch) && InTable(count, more) && s < |count| && scratch <= more
    requires LeftOut(count, scratch, s, k)
    ensures LeftOut(count, more, s, k)
  {
    var c, d := Candidates(count, scratch), Candidates(count, more);
    forall x | x in c ensures x in d {
      var i :| 0 <= i < |c| && c[i] == x;
      assert d[i] == x;
    }
    BeatenMore(Candidate(count, s), Members(c), Members(d), k);
  }

  lemma NotListed(count: seq<nat>, list: seq<nat>, lo: nat, hi: nat, s: nat, more: seq<nat>, k: nat)
    requires hi <= |count| && BestOf(count, list, lo, hi, k) && lo <= s < hi && s !in list
    requires InTable(count, more) && forall x :: x in list ==> x in more
    ensures LeftOut(count, more, s, k)
  {
    var c, d := Candidates(count, list), Candidates(count, more);
    forall x | x in c ensures x in Members(d) {
      InList(count, list, x.doc);
      InList(count, more, x.doc);
    }
    InList(count, list, s);
    LeftOutBeaten(c, RangeCandidates(count, lo, hi), k, Members(d), Candidate(count, s));
  }

  /** Once every group is merged, `scratch` holds the best of the whole range. */
  lemma BestOfMerged(t: Table, strs: seq<Bytes>, gs: seq<Group>, lo: nat, hi: nat, depth: nat, scratch: seq<nat>,
                     best: seq<nat>, k: nat)
    requires Holds(t, strs) && Share(strs, lo, hi, depth)
    requires Partition(strs, gs, Rest(strs, lo, hi, depth), hi, depth)
    requires Merged(t.count, gs, |gs|, lo, hi, Rest(strs, lo, hi, depth), scratch, k)
    requires var sorted := SortByCount(t.count, scratch); best == sorted[..if k <= |sorted| then k else |sorted|]
    ensures hi <= |t.count| && BestOf(t.count, best, lo, hi, k)
  {
    hide Holds, Share, GroupOk, LeftOut, Rest, Candidates, SortByCount, SortRanked, Ranked;
    var c := Candidates(t.count, scratch);
    var all := RangeCandidates(t.count, lo, hi);
    forall x | x in all && x !in c ensures Beaten(x, Members(c), k) {
      InList(t.count, scratch, x.doc);
      AllSeen(strs, gs, lo, hi, Rest(strs, lo, hi, depth), depth, x.doc);
      LeftOutIs(t.count, scratch, x.doc, k);
    }
    forall x | x in Members(c) ensures x in all {
      InList(t.count, scratch, x.doc);
    }
    forall i, j | 0 <= i < j < |c| ensures c[i] != c[j] {
      assert c[i].doc == scratch[i] && c[j].doc == scratch[j];
    }
    SortsRanked(c);
    SortedCandidates(t.count, scratch);
    FrontIsTopK(SortRanked(c), Members(c), k);
    TopKOfCandidates(SortRanked(c)[..|best|], Members(c), all, k);
    FrontCandidates(t.count, SortByCount(t.count, scratch), |best|);
  }

  lemma LeftOutIs(count: seq<nat>, scratch: seq<nat>, s: nat, k: nat)
    requires InTable(count, scratch) && s < |count| && LeftOut(count, scratch, s, k)
    ensures Beaten(Candidate(count, s), Members(Candidates(count, scratch)), k)
  {
  }

  lemma FrontCandidates(count: seq<nat>, l: seq<nat>, n: nat)
    requires InTable(count, l) && n <= |l|
    ensures InTable(count, l[..n]) && Candidates(count, l[..n]) == Candidates(count, l)[..n]
  {
  }

  lemma AllSeen(strs: seq<Bytes>, gs: seq<Group>, lo: nat, hi: nat, rest: nat, depth: nat, s: nat)
    requires Partition(strs, gs, rest, hi, depth) && lo <= s < hi
    ensures Seen(gs, |gs|, lo, rest, s)
  {
    hide GroupOk;
    if s >= rest {
      assert InSome(gs, s);
    }
  }
}
