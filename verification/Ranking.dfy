/** The ranking order of engine/include/hs/common/topk.hpp, and lists of the k best. */
module Ranking {
  import opened Sequences

  datatype ScoredDoc = ScoredDoc(doc: nat, score: real)

  /** True if `a` ranks strictly before `b`. */
  predicate RanksBefore(a: ScoredDoc, b: ScoredDoc) {
    if a.score != b.score then a.score > b.score else a.doc < b.doc
  }

  predicate Ranked(r: seq<ScoredDoc>) {
    forall i, j :: 0 <= i < j < |r| ==> RanksBefore(r[i], r[j])
  }

  /** `r` lists, best first, the `k` best members of `s` (all of them if there are fewer). */
  ghost predicate IsTopK(r: seq<ScoredDoc>, s: set<ScoredDoc>, k: nat) {
    && Ranked(r)
    && |r| <= k
    && (forall i :: 0 <= i < |r| ==> r[i] in s)
    && (forall x :: x in s && x !in r ==> |r| == k && forall i :: 0 <= i < |r| ==> RanksBefore(r[i], x))
  }

  /** A set has one top-k list, so two algorithms that both compute it agree on documents, scores
      and tie order. */
  lemma {:induction false} TopKUnique(r1: seq<ScoredDoc>, r2: seq<ScoredDoc>, s: set<ScoredDoc>, k: nat)
    requires IsTopK(r1, s, k) && IsTopK(r2, s, k)
    ensures r1 == r2
    decreases k
  {
    TopKSize(r1, s, k);
    TopKSize(r2, s, k);
    if r1 != [] {
      TopKHead(r1, s, k);
      TopKHead(r2, s, k);
      assert r1[0] in s && r2[0] in s;
      assert r1[0] == r2[0];
      TopKTail(r1, s, k);
      TopKTail(r2, s, k);
      TopKUnique(r1[1..], r2[1..], s - {r1[0]}, k - 1);
      assert r1 == [r1[0]] + r1[1..] && r2 == [r2[0]] + r2[1..];
    }
  }

  lemma TopKHead(r: seq<ScoredDoc>, s: set<ScoredDoc>, k: nat)
    requires IsTopK(r, s, k) && r != []
    ensures forall x :: x in s && x != r[0] ==> RanksBefore(r[0], x)
  {
  }

  lemma TopKTail(r: seq<ScoredDoc>, s: set<ScoredDoc>, k: nat)
    requires IsTopK(r, s, k) && r != []
    ensures IsTopK(r[1..], s - {r[0]}, k - 1)
  {
    var t := r[1..];
    forall x | x in s - {r[0]} && x !in t
      ensures |t| == k - 1 && forall i :: 0 <= i < |t| ==> RanksBefore(t[i], x)
    {
      assert r == [r[0]] + t;
      assert x !in r;
      forall i | 0 <= i < |t| ensures RanksBefore(t[i], x) {
        assert t[i] == r[i + 1];
      }
    }
  }

  lemma TopKSize(r: seq<ScoredDoc>, s: set<ScoredDoc>, k: nat)
    requires IsTopK(r, s, k)
    ensures |r| == if k <= |s| then k else |s|
    decreases k
  {
    if r == [] {
      if s != {} {
        var x :| x in s;
        assert x !in r;
      }
    } else {
      TopKTail(r, s, k);
      TopKSize(r[1..], s - {r[0]}, k - 1);
    }
  }

  /** Where a new entry goes in a ranked list: before the first entry that does not rank before it. */
  function Place(r: seq<ScoredDoc>, c: ScoredDoc): (i: nat)
    ensures i <= |r|
    ensures forall j :: 0 <= j < i ==> RanksBefore(r[j], c)
    ensures i < |r| ==> !RanksBefore(r[i], c)
  {
    if r == [] || !RanksBefore(r[0], c) then 0 else 1 + Place(r[1..], c)
  }

  function Insert(r: seq<ScoredDoc>, c: ScoredDoc): (r': seq<ScoredDoc>)
    ensures |r'| == |r| + 1
    ensures forall x :: x in r' <==> x in r || x == c
  {
    var i := Place(r, c);
    assert r == r[..i] + r[i..];
    r[..i] + [c] + r[i..]
  }

  /** The list after offering `c`: added while there is room, turned away if it does not beat the
      worst entry, and otherwise put in its place with the worst entry dropped. */
  function Offer(r: seq<ScoredDoc>, k: nat, c: ScoredDoc): seq<ScoredDoc>
    requires 0 < k && |r| <= k
  {
    if |r| < k then Insert(r, c)
    else if !RanksBefore(c, r[k - 1]) then r
    else Insert(r[..k - 1], c)
  }

  lemma InsertRanked(r: seq<ScoredDoc>, c: ScoredDoc)
    requires Ranked(r) && c !in r
    ensures Ranked(Insert(r, c))
  {
    var i := Place(r, c);
    forall j | i <= j < |r| ensures RanksBefore(c, r[j]) {
      assert j == i || RanksBefore(r[i], r[j]);
      assert r[i] != c;
    }
  }

  /** Offering a new candidate keeps the list the top-k of everything offered. */
  lemma OfferAdds(r: seq<ScoredDoc>, s: set<ScoredDoc>, k: nat, c: ScoredDoc)
    requires IsTopK(r, s, k) && c !in s && k > 0
    ensures IsTopK(Offer(r, k, c), s + {c}, k)
  {
    assert forall i :: 0 <= i < |r| ==> r[i] in s;
    if |r| < k {
      InsertRanked(r, c);
    } else if !RanksBefore(c, r[k - 1]) {
      assert r[k - 1] != c;
      forall i | 0 <= i < k ensures RanksBefore(r[i], c) {
        assert i == k - 1 || RanksBefore(r[i], r[k - 1]);
      }
    } else {
      OfferReplaces(r, s, k, c);
    }
  }

  lemma OfferReplaces(r: seq<ScoredDoc>, s: set<ScoredDoc>, k: nat, c: ScoredDoc)
    requires IsTopK(r, s, k) && c !in s && |r| == k > 0 && RanksBefore(c, r[k - 1])
    ensures IsTopK(Insert(r[..k - 1], c), s + {c}, k)
  {
    var kept, worst := r[..k - 1], r[k - 1];
    assert r == kept + [worst];
    InsertRanked(kept, c);
    var t := Insert(kept, c);
    forall x, i | x in s + {c} && x !in t && 0 <= i < k
      ensures RanksBefore(t[i], x)
    {
      assert t[i] in t && (t[i] == c || t[i] in kept);
      if x == worst {
        assert t[i] == c || exists j :: 0 <= j < k - 1 && t[i] == r[j];
      } else {
        assert x in s && x !in r;
        assert RanksBefore(worst, x);
        assert t[i] == c || t[i] in r;
      }
    }
    assert forall i :: 0 <= i < k ==> t[i] in t;
  }

  /** An entry that does not beat a full list's last score and has a later document is turned away. */
  lemma OfferRejects(r: seq<ScoredDoc>, k: nat, c: ScoredDoc)
    requires Ranked(r) && |r| == k > 0
    requires c.score <= r[k - 1].score
    requires forall i :: 0 <= i < k ==> r[i].doc < c.doc
    ensures Offer(r, k, c) == r
    ensures forall i :: 0 <= i < k ==> RanksBefore(r[i], c)
  {
    forall i | 0 <= i < k ensures RanksBefore(r[i], c) {
      assert i == k - 1 || RanksBefore(r[i], r[k - 1]);
    }
  }

  /** A candidate that cannot enter the list may join the candidate set without being offered. */
  lemma SkipKeepsTopK(r: seq<ScoredDoc>, s: set<ScoredDoc>, k: nat, c: ScoredDoc)
    requires IsTopK(r, s, k) && |r| == k
    requires forall i :: 0 <= i < k ==> RanksBefore(r[i], c)
    ensures IsTopK(r, s + {c}, k)
  {
  }

  /** A full list stays full and its last score never falls. */
  lemma ThresholdRises(r: seq<ScoredDoc>, k: nat, c: ScoredDoc)
    requires Ranked(r) && |r| == k > 0
    ensures var r' := Offer(r, k, c); |r'| == k && r'[k - 1].score >= r[k - 1].score
  {
    if RanksBefore(c, r[k - 1]) {
      var t := Insert(r[..k - 1], c);
      assert t[k - 1] in t;
      forall i | 0 <= i < k - 1 ensures r[i].score >= r[k - 1].score {
        assert RanksBefore(r[i], r[k - 1]);
      }
    }
  }

  // ---------------------------------------------------------------------------------------------
  // Lists from candidates
  // ---------------------------------------------------------------------------------------------

  /** At least `k` members of `c` rank before `x`. */
  ghost predicate Beaten(x: ScoredDoc, c: set<ScoredDoc>, k: nat) {
    exists l: seq<ScoredDoc> :: Ranked(l) && BeatenBy(x, c, k, l)
  }

  ghost predicate BeatenBy(x: ScoredDoc, c: set<ScoredDoc>, k: nat, l: seq<ScoredDoc>) {
    |l| == k && forall i :: 0 <= i < |l| ==> l[i] in c && RanksBefore(l[i], x)
  }

  lemma RankedDistinct(l: seq<ScoredDoc>)
    requires Ranked(l)
    ensures |Members(l)| == |l|
  {
    forall i, j | 0 <= i < j < |l| ensures l[i] != l[j] {
      assert RanksBefore(l[i], l[j]);
    }
    MembersSize(l);
  }

  /** A list that holds as many entries as another can hold is that other. */
  lemma SameElements(l: seq<ScoredDoc>, r: seq<ScoredDoc>)
    requires Ranked(l) && Ranked(r) && |r| <= |l| && forall x :: x in l ==> x in r
    ensures |r| == |l| && forall x :: x in r ==> x in l
  {
    RankedDistinct(l);
    RankedDistinct(r);
    SubsetSize(Members(l), Members(r));
    forall x | x in r ensures x in l {
      assert x in Members(r);
    }
  }

  /** Entries beaten by `k` candidates may be left out when the best `k` are sought. */
  lemma TopKOfCandidates(r: seq<ScoredDoc>, c: set<ScoredDoc>, s: set<ScoredDoc>, k: nat)
    requires IsTopK(r, c, k) && c <= s && forall x :: x in s && x !in c ==> Beaten(x, c, k)
    ensures IsTopK(r, s, k)
  {
    forall x | x in s && x !in r ensures |r| == k && forall i :: 0 <= i < |r| ==> RanksBefore(r[i], x) {
      if x !in c {
        var l :| Ranked(l) && BeatenBy(x, c, k, l);
        BeatenStays(r, c, k, x, l);
      }
    }
  }

  lemma BeatenStays(r: seq<ScoredDoc>, c: set<ScoredDoc>, k: nat, x: ScoredDoc, l: seq<ScoredDoc>)
    requires IsTopK(r, c, k) && Ranked(l) && BeatenBy(x, c, k, l)
    ensures |r| == k && forall i :: 0 <= i < |r| ==> RanksBefore(r[i], x)
  {
    if forall y :: y in l ==> y in r {
      SameElements(l, r);
      forall i | 0 <= i < |r| ensures RanksBefore(r[i], x) {
        assert r[i] in l;
        var j :| 0 <= j < |l| && l[j] == r[i];
      }
    } else {
      var y :| y in l && y !in r;
      var j :| 0 <= j < |l| && l[j] == y;
      assert y in c && RanksBefore(y, x);
    }
  }

  /** What a top-k list leaves out is beaten by the list. */
  lemma LeftOutBeaten(r: seq<ScoredDoc>, s: set<ScoredDoc>, k: nat, c: set<ScoredDoc>, x: ScoredDoc)
    requires IsTopK(r, s, k) && x in s && x !in r && forall y :: y in r ==> y in c
    ensures Beaten(x, c, k)
  {
    assert BeatenBy(x, c, k, r);
  }

  /** Insertion sort in ranking order. */
  function SortRanked(l: seq<ScoredDoc>): (r: seq<ScoredDoc>)
    ensures |r| == |l| && forall x :: x in r <==> x in l
  {
    if l == [] then [] else
      var n := |l| - 1;
      assert l == l[..n] + [l[n]];
      Insert(SortRanked(l[..n]), l[n])
  }

  lemma {:induction false} SortsRanked(l: seq<ScoredDoc>)
    requires forall i, j :: 0 <= i < j < |l| ==> l[i] != l[j]
    ensures Ranked(SortRanked(l))
  {
    if l != [] {
      var n := |l| - 1;
      SortsRanked(l[..n]);
      InsertRanked(SortRanked(l[..n]), l[n]);
    }
  }

  /** The front of a ranked list of a whole set is the set's top k. */
  lemma FrontIsTopK(l: seq<ScoredDoc>, s: set<ScoredDoc>, k: nat)
    requires Ranked(l) && forall x :: x in s <==> x in l
    ensures IsTopK(l[..if k <= |l| then k else |l|], s, k)
  {
    var n := if k <= |l| then k else |l|;
    forall x | x in s && x !in l[..n] ensures n == k && forall i :: 0 <= i < n ==> RanksBefore(l[..n][i], x) {
      var j :| 0 <= j < |l| && l[j] == x;
      assert forall i :: 0 <= i < n ==> l[i] in l[..n];
    }
  }

  /** The front of a top-k list is a shorter top-k list. */
  lemma FrontOfTopK(r: seq<ScoredDoc>, s: set<ScoredDoc>, k: nat, j: nat)
    requires IsTopK(r, s, k) && j <= k
    ensures IsTopK(r[..if j <= |r| then j else |r|], s, j)
  {
    var n := if j <= |r| then j else |r|;
    var t := r[..n];
    assert forall i :: 0 <= i < n ==> t[i] == r[i] && r[i] in t;
    forall x | x in s && x !in t ensures n == j && forall i :: 0 <= i < n ==> RanksBefore(t[i], x) {
      if x in r {
        var i :| 0 <= i < |r| && r[i] == x;
      }
    }
  }
}
