/** MergeTopK of broker/HybridSearch.Broker/Search/Fusion.cs: the lists of the slices become one list. */
module Fusion {
  import opened Ranking
  import opened Sequences

  /** Everything that some list holds. */
  ghost function Entries(lists: seq<seq<ScoredDoc>>): (e: set<ScoredDoc>)
    ensures forall x :: x in e <==> exists i :: 0 <= i < |lists| && x in lists[i]
  {
    if lists == [] then {}
    else
      var n := |lists| - 1;
      assert lists == lists[..n] + [lists[n]];
      Entries(lists[..n]) + Members(lists[n])
  }

  /** Each document of `e` with the best score it has there. */
  ghost function BestOf(e: set<ScoredDoc>): set<ScoredDoc> {
    set x | x in e && IsBest(e, x)
  }

  ghost predicate IsBest(e: set<ScoredDoc>, x: ScoredDoc) {
    forall y :: y in e && y.doc == x.doc ==> y.score <= x.score
  }

  /** The dictionary of best scores, whose keys are enumerated in the order of their insertion. */
  datatype Best = Best(ids: seq<nat>, scores: map<nat, real>)

  /** `b` holds the best score of every document of `e`. */
  ghost predicate Holds(b: Best, e: set<ScoredDoc>) {
    && (forall i :: 0 <= i < |b.ids| ==> b.ids[i] in b.scores)
    && (forall i, j :: 0 <= i < j < |b.ids| ==> b.ids[i] != b.ids[j])
    && (forall d :: d in b.scores ==> d in b.ids && ScoredDoc(d, b.scores[d]) in e)
    && (forall x :: x in e ==> x.doc in b.scores && x.score <= b.scores[x.doc])
  }

  method Update(b: Best, x: ScoredDoc, ghost e: set<ScoredDoc>) returns (b': Best)
    requires Holds(b, e)
    ensures Holds(b', e + {x})
  {
    if x.doc !in b.scores {
      b' := Best(b.ids + [x.doc], b.scores[x.doc := x.score]);
      assert x.doc !in b.ids;
      assert b'.ids[|b.ids|] == x.doc;
      assert forall d :: d in b.ids ==> d in b'.ids;
    } else if x.score > b.scores[x.doc] {
      b' := Best(b.ids, b.scores[x.doc := x.score]);
    } else {
      b' := b;
    }
  }

  method AddList(b: Best, list: seq<ScoredDoc>, ghost e: set<ScoredDoc>) returns (b': Best)
    requires Holds(b, e)
    ensures Holds(b', e + Members(list))
  {
    hide Holds;
    b' := b;
    assert e + Members(list[..0]) == e;
    for j := 0 to |list|
      invariant Holds(b', e + Members(list[..j]))
    {
      b' := Update(b', list[j], e + Members(list[..j]));
      assert list[..j + 1] == list[..j] + [list[j]];
      assert e + Members(list[..j]) + {list[j]} == e + Members(list[..j + 1]);
    }
    assert list[..|list|] == list;
  }

  /** MergeTopK: the `k` best documents by their best scores. */
  method MergeTopK(lists: seq<seq<ScoredDoc>>, k: nat) returns (all: seq<ScoredDoc>)
    ensures IsTopK(all, BestOf(Entries(lists)), k)
    ensures forall i, j :: 0 <= i < j < |all| ==> all[i].doc != all[j].doc
  {
    hide Holds, BestOf;
    var best := Best([], map[]);
    NothingHeld();
    for i := 0 to |lists|
      invariant Holds(best, Entries(lists[..i]))
    {
      best := AddList(best, lists[i], Entries(lists[..i]));
      assert lists[..i + 1][..i] == lists[..i];
    }
    assert lists[..|lists|] == lists;
    all := Pairs(best, Entries(lists));
    SortsRanked(all);
    all := SortRanked(all);
    FrontIsTopK(all, BestOf(Entries(lists)), k);
    if |all| > k {
      all := all[..k];
    } else {
      assert all[..|all|] == all;
    }
    EachOnce(all, Entries(lists), k);
  }

  /** No document appears twice. */
  lemma EachOnce(r: seq<ScoredDoc>, e: set<ScoredDoc>, k: nat)
    requires IsTopK(r, BestOf(e), k)
    ensures forall i, j :: 0 <= i < j < |r| ==> r[i].doc != r[j].doc
  {
    forall i, j | 0 <= i < j < |r| ensures r[i].doc != r[j].doc {
      assert r[i] in BestOf(e) && r[j] in BestOf(e) && RanksBefore(r[i], r[j]);
    }
  }

  lemma NothingHeld()
    ensures Holds(Best([], map[]), {})
  {
  }

  method Pairs(b: Best, ghost e: set<ScoredDoc>) returns (all: seq<ScoredDoc>)
    requires Holds(b, e)
    ensures forall i, j :: 0 <= i < j < |all| ==> all[i] != all[j]
    ensures forall x :: x in BestOf(e) <==> x in all
  {
    all := [];
    for i := 0 to |b.ids|
      invariant |all| == i && forall j :: 0 <= j < i ==> all[j] == ScoredDoc(b.ids[j], b.scores[b.ids[j]])
    {
      all := all + [ScoredDoc(b.ids[i], b.scores[b.ids[i]])];
    }
    PairsAreBest(b, e, all);
  }

  lemma PairsAreBest(b: Best, e: set<ScoredDoc>, all: seq<ScoredDoc>)
    requires Holds(b, e)
    requires |all| == |b.ids| && forall j :: 0 <= j < |all| ==> all[j] == ScoredDoc(b.ids[j], b.scores[b.ids[j]])
    ensures forall x :: x in BestOf(e) <==> x in all
  {
    forall x ensures x in BestOf(e) <==> x in all {
      if x in BestOf(e) {
        assert ScoredDoc(x.doc, b.scores[x.doc]) in e;
        var j :| 0 <= j < |b.ids| && b.ids[j] == x.doc;
        assert all[j] == x;
      }
      if x in all {
        var j :| 0 <= j < |all| && all[j] == x;
        assert x in e;
      }
    }
  }

  /** Only what the lists hold matters: neither their order nor their number. */
  method MergeInAnyOrder(a: seq<seq<ScoredDoc>>, b: seq<seq<ScoredDoc>>, k: nat)
    returns (r: seq<ScoredDoc>, s: seq<ScoredDoc>)
    requires Entries(a) == Entries(b)
    ensures r == s
  {
    r := MergeTopK(a, k);
    s := MergeTopK(b, k);
    TopKUnique(r, s, BestOf(Entries(a)), k);
  }

  /** Distributed top-k: if every list is the top-k of its slice, the top-k of the lists is the top-k of all
      slices together, which may overlap but score a document alike. */
  lemma MergedIsTopK(lists: seq<seq<ScoredDoc>>, parts: seq<set<ScoredDoc>>, whole: set<ScoredDoc>, k: nat,
                     r: seq<ScoredDoc>)
    requires |lists| == |parts| && forall i :: 0 <= i < |parts| ==> IsTopK(lists[i], parts[i], k) && parts[i] <= whole
    requires forall x :: x in whole ==> exists i :: 0 <= i < |parts| && x in parts[i]
    requires forall x, y :: x in whole && y in whole && x.doc == y.doc ==> x == y
    requires IsTopK(r, BestOf(Entries(lists)), k)
    ensures IsTopK(r, whole, k)
  {
    hide IsTopK, RanksBefore;
    var c := Entries(lists);
    forall x | x in c ensures x in whole {
      var i :| 0 <= i < |lists| && x in lists[i];
      MemberOfTopK(lists[i], parts[i], k, x);
    }
    assert BestOf(c) == c;
    forall x | x in whole && x !in c ensures Beaten(x, c, k) {
      var i :| 0 <= i < |parts| && x in parts[i];
      LeftOutBeaten(lists[i], parts[i], k, c, x);
    }
    TopKOfCandidates(r, c, whole, k);
  }

  lemma MemberOfTopK(r: seq<ScoredDoc>, s: set<ScoredDoc>, k: nat, x: ScoredDoc)
    requires IsTopK(r, s, k) && x in r
    ensures x in s
  {
  }

  /** A list of ordinals becomes a list of identifiers that ascend with them. */
  function Renamed(r: seq<ScoredDoc>, ids: seq<nat>): (t: seq<ScoredDoc>)
    requires forall x :: x in r ==> x.doc < |ids|
    ensures |t| == |r| && forall i :: 0 <= i < |r| ==> r[i] in r && t[i] == ScoredDoc(ids[r[i].doc], r[i].score)
  {
    seq(|r|, i requires 0 <= i < |r| => assert r[i] in r; ScoredDoc(ids[r[i].doc], r[i].score))
  }

  ghost function RenamedSet(s: set<ScoredDoc>, ids: seq<nat>): set<ScoredDoc>
    requires forall x :: x in s ==> x.doc < |ids|
  {
    set x | x in s :: ScoredDoc(ids[x.doc], x.score)
  }

  /** Renaming keeps the ranking, ties included. */
  lemma RenamedTopK(r: seq<ScoredDoc>, s: set<ScoredDoc>, ids: seq<nat>, k: nat)
    requires IsTopK(r, s, k) && forall x :: x in s ==> x.doc < |ids|
    requires forall i, j :: 0 <= i < j < |ids| ==> ids[i] < ids[j]
    ensures (forall x :: x in r ==> x.doc < |ids|) && IsTopK(Renamed(r, ids), RenamedSet(s, ids), k)
  {
    assert forall x :: x in r ==> x in s;
    var t, u := Renamed(r, ids), RenamedSet(s, ids);
    forall i | 0 <= i < |t| ensures t[i] in u {
      assert r[i] in s;
    }
    forall i, j | 0 <= i < j < |t| ensures RanksBefore(t[i], t[j]) {
      RenamedBefore(r[i], r[j], ids);
    }
    forall y | y in u && y !in t ensures |t| == k && forall i :: 0 <= i < |t| ==> RanksBefore(t[i], y) {
      var x :| x in s && y == ScoredDoc(ids[x.doc], x.score);
      forall i | 0 <= i < |r| ensures r[i] != x {
        assert t[i] in t;
      }
      forall i | 0 <= i < |t| ensures RanksBefore(t[i], y) {
        assert r[i] in s && RanksBefore(r[i], x);
        RenamedBefore(r[i], x, ids);
      }
    }
  }

  lemma RenamedBefore(a: ScoredDoc, b: ScoredDoc, ids: seq<nat>)
    requires a.doc < |ids| && b.doc < |ids| && RanksBefore(a, b)
    requires forall i, j :: 0 <= i < j < |ids| ==> ids[i] < ids[j]
    ensures RanksBefore(ScoredDoc(ids[a.doc], a.score), ScoredDoc(ids[b.doc], b.score))
  {
  }
}
