/** Team-draft interleaving and its attribution of clicks, from
    broker/HybridSearch.Broker/Experiments/Interleaving.cs. */
module Interleaving {
  import opened Sequences

  datatype Team = A | B

  datatype InterleavedDoc = InterleavedDoc(doc: nat, team: Team)

  function DocsOf(r: seq<InterleavedDoc>): (d: set<nat>)
    ensures forall x :: x in d <==> exists i :: 0 <= i < |r| && r[i].doc == x
  {
    set i | 0 <= i < |r| :: r[i].doc
  }

  function Size(r: seq<InterleavedDoc>, t: Team): (n: nat)
    ensures n <= |r|
  {
    if r == [] then 0 else Size(r[..|r| - 1], t) + if r[|r| - 1].team == t then 1 else 0
  }

  /** The position of the best-ranked document that is not yet shown, or the length if all are. */
  ghost function FirstUnused(ranking: seq<nat>, used: set<nat>): (i: nat)
    ensures i <= |ranking| && (forall j :: 0 <= j < i ==> ranking[j] in used) && (i < |ranking| ==> ranking[i] !in used)
  {
    if ranking == [] || ranking[0] !in used then 0 else 1 + FirstUnused(ranking[1..], used)
  }

  ghost predicate HasUnused(ranking: seq<nat>, r: seq<InterleavedDoc>) {
    exists i :: 0 <= i < |ranking| && ranking[i] !in DocsOf(r)
  }

  /** How often the team sizes were equal, and so a coin was drawn, when the first `n` picks were made. */
  ghost function Ties(r: seq<InterleavedDoc>, n: nat): nat
    requires n <= |r|
  {
    if n == 0 then 0 else Ties(r, n - 1) + if Size(r[..n - 1], A) == Size(r[..n - 1], B) then 1 else 0
  }

  /** Whose turn it is: the smaller team's, or the next coin's. */
  ghost function Turn(r: seq<InterleavedDoc>, coin: nat -> bool): Team {
    if Size(r, A) < Size(r, B) then A
    else if Size(r, B) < Size(r, A) then B
    else if coin(Ties(r, |r|)) then A else B
  }

  ghost function RankingOf(a: seq<nat>, b: seq<nat>, t: Team): seq<nat> {
    if t == A then a else b
  }

  function Other(t: Team): (o: Team)
    ensures o != t
  {
    if t == A then B else A
  }

  /** The team that picks: the one whose turn it is, or the other if that one has nothing left. */
  ghost function Picks(a: seq<nat>, b: seq<nat>, r: seq<InterleavedDoc>, coin: nat -> bool): Team {
    var t := Turn(r, coin);
    if HasUnused(RankingOf(a, b, t), r) then t else Other(t)
  }

  /** Pick `i` is what the rules of the draft say, given the picks before it. */
  ghost predicate PickOk(a: seq<nat>, b: seq<nat>, r: seq<InterleavedDoc>, coin: nat -> bool, i: nat)
    requires i < |r|
  {
    var t := Picks(a, b, r[..i], coin);
    var j := FirstUnused(RankingOf(a, b, t), DocsOf(r[..i]));
    r[i].team == t && j < |RankingOf(a, b, t)| && r[i].doc == RankingOf(a, b, t)[j]
  }

  /** Every pick follows the rules. */
  ghost predicate Drafted(a: seq<nat>, b: seq<nat>, r: seq<InterleavedDoc>, coin: nat -> bool) {
    forall i :: 0 <= i < |r| ==> PickOk(a, b, r, coin, i)
  }

  // ---------------------------------------------------------------------------------------------
  // The draft
  // ---------------------------------------------------------------------------------------------

  ghost predicate Skipped(ranking: seq<nat>, i: nat, used: set<nat>) {
    i <= |ranking| && forall j :: 0 <= j < i ==> ranking[j] in used
  }

  lemma StillSkipped(ranking: seq<nat>, i: nat, used: set<nat>, x: nat)
    requires Skipped(ranking, i, used)
    ensures Skipped(ranking, i, used + {x})
    ensures i < |ranking| && ranking[i] == x ==> Skipped(ranking, i + 1, used + {x})
  {
  }

  method AdvancePastUsed(ranking: seq<nat>, start: nat, used: set<nat>) returns (i: nat)
    requires Skipped(ranking, start, used)
    ensures Skipped(ranking, i, used) && i <= |ranking| && i == FirstUnused(ranking, used)
  {
    i := start;
    while i < |ranking| && ranking[i] in used
      invariant start <= i <= |ranking| && forall j :: 0 <= j < i ==> ranking[j] in used
    {
      i := i + 1;
    }
    FirstUnusedIs(ranking, used, i);
  }

  lemma FirstUnusedIs(ranking: seq<nat>, used: set<nat>, i: nat)
    requires i <= |ranking| && (forall j :: 0 <= j < i ==> ranking[j] in used)
    requires (i < |ranking| ==> ranking[i] !in used)
    ensures i == FirstUnused(ranking, used)
  {
    hide FirstUnused;
  }

  /** The choice of a team.  The coin `c` is looked at only if the sizes are equal; a team with nothing left
      cedes the position. */
  function Choose(sizeA: nat, sizeB: nat, hasA: bool, hasB: bool, c: bool): (t: Team)
    ensures hasA || hasB ==> if t == A then hasA else hasB
  {
    var t := if sizeA < sizeB then A else if sizeB < sizeA then B else if c then A else B;
    if t == A && !hasA then B else if t == B && !hasB then A else t
  }

  /** Where the loop stands: what was picked, and what its variables say of that. */
  ghost predicate Drafting(a: seq<nat>, b: seq<nat>, coin: nat -> bool, r: seq<InterleavedDoc>, drawn: nat,
                           used: set<nat>, ia: nat, ib: nat, sizeA: nat, sizeB: nat)
    ensures Drafting(a, b, coin, r, drawn, used, ia, ib, sizeA, sizeB) ==>
              Skipped(a, ia, used) && Skipped(b, ib, used) && Drafted(a, b, r, coin) && drawn == Ties(r, |r|)
    ensures Drafting(a, b, coin, r, drawn, used, ia, ib, sizeA, sizeB) ==> used == DocsOf(r)
  {
    && Drafted(a, b, r, coin) && drawn == Ties(r, |r|)
    && used == DocsOf(r) && sizeA == Size(r, A) && sizeB == Size(r, B)
    && Skipped(a, ia, used) && Skipped(b, ib, used)
  }

  /** Interleave: at most `k` picks, each by the rules, as long as there is anything to pick; a coin is drawn
      exactly when the sizes are equal. */
  method Interleave(a: seq<nat>, b: seq<nat>, k: nat, coin: nat -> bool) returns (r: seq<InterleavedDoc>, drawn: nat)
    ensures Drafted(a, b, r, coin) && |r| <= k
    ensures |r| < k ==> !HasUnused(a, r) && !HasUnused(b, r)
    ensures drawn == Ties(r, |r|)
  {
    hide *;
    var used: set<nat> := {};
    var ia: nat, ib: nat, sizeA: nat, sizeB: nat := 0, 0, 0, 0;
    r, drawn := [], 0;
    Nothing(a, b, coin);
    while |r| < k
      invariant |r| <= k && Drafting(a, b, coin, r, drawn, used, ia, ib, sizeA, sizeB)
      decreases k - |r|
    {
      ghost var ia0, ib0 := ia, ib;
      ia := AdvancePastUsed(a, ia, used);
      ib := AdvancePastUsed(b, ib, used);
      Advanced(a, b, coin, r, drawn, used, ia0, ib0, ia, ib, sizeA, sizeB);
      if ia == |a| && ib == |b| {
        FirstSaysHas(a, r, ia);
        FirstSaysHas(b, r, ib);
        return;
      }
      var pick := Choose(sizeA, sizeB, ia < |a|, ib < |b|, coin(drawn));
      PickNext(a, b, coin, r, drawn, used, ia, ib, sizeA, sizeB, pick);
      drawn := drawn + if sizeA == sizeB then 1 else 0;
      if pick == A {
        r := r + [InterleavedDoc(a[ia], A)];
        used, ia, sizeA := used + {a[ia]}, ia + 1, sizeA + 1;
      } else {
        r := r + [InterleavedDoc(b[ib], B)];
        used, ib, sizeB := used + {b[ib]}, ib + 1, sizeB + 1;
      }
    }
  }

  lemma Advanced(a: seq<nat>, b: seq<nat>, coin: nat -> bool, r: seq<InterleavedDoc>, drawn: nat, used: set<nat>,
                 ia0: nat, ib0: nat, ia: nat, ib: nat, sizeA: nat, sizeB: nat)
    requires Drafting(a, b, coin, r, drawn, used, ia0, ib0, sizeA, sizeB) && Skipped(a, ia, used)
    requires Skipped(b, ib, used)
    ensures Drafting(a, b, coin, r, drawn, used, ia, ib, sizeA, sizeB)
  {
    hide Drafted, DocsOf, Size, Ties, Skipped;
  }

  /** One turn of the loop. */
  lemma PickNext(a: seq<nat>, b: seq<nat>, coin: nat -> bool, r: seq<InterleavedDoc>, drawn: nat, used: set<nat>,
                 ia: nat, ib: nat, sizeA: nat, sizeB: nat, pick: Team)
    requires Drafting(a, b, coin, r, drawn, used, ia, ib, sizeA, sizeB)
    requires ia == FirstUnused(a, used) && ib == FirstUnused(b, used) && (ia < |a| || ib < |b|)
    requires pick == Choose(sizeA, sizeB, ia < |a|, ib < |b|, coin(drawn))
    ensures var tie := if sizeA == sizeB then 1 else 0;
            if pick == A then
              ia < |a| && Drafting(a, b, coin, r + [InterleavedDoc(a[ia], A)], drawn + tie, used + {a[ia]},
                                   ia + 1, ib, sizeA + 1, sizeB)
            else
              ib < |b| && Drafting(a, b, coin, r + [InterleavedDoc(b[ib], B)], drawn + tie, used + {b[ib]},
                                   ia, ib + 1, sizeA, sizeB + 1)
  {
    hide *;
    ChoiceIs(a, b, coin, r, drawn, used, ia, ib, sizeA, sizeB);
    if pick == A {
      Extended(a, b, coin, r, drawn, used, ia, ib, sizeA, sizeB, InterleavedDoc(a[ia], A));
    } else {
      Extended(a, b, coin, r, drawn, used, ia, ib, sizeA, sizeB, InterleavedDoc(b[ib], B));
    }
  }

  lemma ChoiceIs(a: seq<nat>, b: seq<nat>, coin: nat -> bool, r: seq<InterleavedDoc>, drawn: nat, used: set<nat>,
               ia: nat, ib: nat, sizeA: nat, sizeB: nat)
    requires Drafting(a, b, coin, r, drawn, used, ia, ib, sizeA, sizeB)
    requires ia == FirstUnused(a, used) && ib == FirstUnused(b, used) && (ia < |a| || ib < |b|)
    ensures var pick := Choose(sizeA, sizeB, ia < |a|, ib < |b|, coin(drawn));
            pick == Picks(a, b, r, coin) && if pick == A then ia < |a| else ib < |b|
  {
    hide Drafted, DocsOf, Size, Ties, FirstUnused, HasUnused, Picks, Skipped, Choose;
    FirstSaysHas(a, r, ia);
    FirstSaysHas(b, r, ib);
    PicksIs(a, b, r, coin);
  }

  /** The pick of a team, and the loop's variables after it. */
  lemma Extended(a: seq<nat>, b: seq<nat>, coin: nat -> bool, r: seq<InterleavedDoc>, drawn: nat, used: set<nat>,
                 ia: nat, ib: nat, sizeA: nat, sizeB: nat, x: InterleavedDoc)
    requires Drafting(a, b, coin, r, drawn, used, ia, ib, sizeA, sizeB)
    requires ia == FirstUnused(a, used) && ib == FirstUnused(b, used) && x.team == Picks(a, b, r, coin)
    requires if x.team == A then ia < |a| && x.doc == a[ia] else ib < |b| && x.doc == b[ib]
    ensures Drafting(a, b, coin, r + [x], drawn + if sizeA == sizeB then 1 else 0, used + {x.doc},
                     if x.team == A then ia + 1 else ia, if x.team == A then ib else ib + 1,
                     if x.team == A then sizeA + 1 else sizeA, if x.team == A then sizeB else sizeB + 1)
  {
    hide *;
    StillSkipped(a, ia, used, x.doc);
    StillSkipped(b, ib, used, x.doc);
    DraftingParts(a, b, coin, r, drawn, used, ia, ib, sizeA, sizeB);
    Picked(a, b, r, coin, x);
    IsDrafting(a, b, coin, r + [x], drawn + if sizeA == sizeB then 1 else 0, used + {x.doc},
      if x.team == A then ia + 1 else ia, if x.team == A then ib else ib + 1,
      if x.team == A then sizeA + 1 else sizeA, if x.team == A then sizeB else sizeB + 1);
  }

  lemma DraftingParts(a: seq<nat>, b: seq<nat>, coin: nat -> bool, r: seq<InterleavedDoc>, drawn: nat, used: set<nat>,
                      ia: nat, ib: nat, sizeA: nat, sizeB: nat)
    requires Drafting(a, b, coin, r, drawn, used, ia, ib, sizeA, sizeB)
    ensures used == DocsOf(r) && sizeA == Size(r, A) && sizeB == Size(r, B)
  {
  }

  lemma IsDrafting(a: seq<nat>, b: seq<nat>, coin: nat -> bool, r: seq<InterleavedDoc>, drawn: nat, used: set<nat>,
                   ia: nat, ib: nat, sizeA: nat, sizeB: nat)
    requires Drafted(a, b, r, coin) && drawn == Ties(r, |r|) && Skipped(a, ia, used) && Skipped(b, ib, used)
    requires used == DocsOf(r) && sizeA == Size(r, A) && sizeB == Size(r, B)
    ensures Drafting(a, b, coin, r, drawn, used, ia, ib, sizeA, sizeB)
  {
  }

  /** The team that picks, in the terms of the loop. */
  lemma PicksIs(a: seq<nat>, b: seq<nat>, r: seq<InterleavedDoc>, coin: nat -> bool)
    ensures Picks(a, b, r, coin) == Choose(Size(r, A), Size(r, B), HasUnused(a, r), HasUnused(b, r), coin(Ties(r, |r|)))
  {
    hide HasUnused, Size, Ties;
  }

  lemma Nothing(a: seq<nat>, b: seq<nat>, coin: nat -> bool)
    ensures Drafting(a, b, coin, [], 0, {}, 0, 0, 0, 0)
  {
  }

  lemma FirstSaysHas(ranking: seq<nat>, r: seq<InterleavedDoc>, i: nat)
    requires i == FirstUnused(ranking, DocsOf(r))
    ensures i < |ranking| <==> HasUnused(ranking, r)
    ensures i < |ranking| ==> ranking[i] !in DocsOf(r)
  {
    hide FirstUnused, DocsOf;
  }

  /** One more pick. */
  lemma Picked(a: seq<nat>, b: seq<nat>, r: seq<InterleavedDoc>, coin: nat -> bool, x: InterleavedDoc)
    requires Drafted(a, b, r, coin) && x.team == Picks(a, b, r, coin)
    requires var ranking := if x.team == A then a else b;
             var j := FirstUnused(ranking, DocsOf(r)); j < |ranking| && x.doc == ranking[j]
    ensures Drafted(a, b, r + [x], coin)
    ensures DocsOf(r + [x]) == DocsOf(r) + {x.doc}
    ensures forall t :: Size(r + [x], t) == Size(r, t) + if x.team == t then 1 else 0
    ensures Ties(r + [x], |r| + 1) == Ties(r, |r|) + if Size(r, A) == Size(r, B) then 1 else 0
  {
    hide FirstUnused, HasUnused, DocsOf, Picks;
    var s := r + [x];
    assert s[..|r|] == r;
    forall i | 0 <= i < |s| ensures PickOk(a, b, s, coin, i) {
      assert s[..i] == r[..i];
      if i < |r| {
        assert PickOk(a, b, r, coin, i);
      } else {
        assert r[..i] == r;
      }
    }
    TiesOfFront(r, s, |r|);
    DocsNext(r, x);
  }

  lemma DocsNext(r: seq<InterleavedDoc>, x: InterleavedDoc)
    ensures DocsOf(r + [x]) == DocsOf(r) + {x.doc}
  {
    var s := r + [x];
    forall d ensures d in DocsOf(s) <==> d in DocsOf(r) + {x.doc} {
      if d in DocsOf(r) {
        var i :| 0 <= i < |r| && r[i].doc == d;
        assert s[i].doc == d;
      }
      assert s[|r|].doc == x.doc;
    }
  }

  lemma {:induction false} TiesOfFront(r: seq<InterleavedDoc>, s: seq<InterleavedDoc>, n: nat)
    requires r <= s && n <= |r|
    ensures Ties(r, n) == Ties(s, n)
  {
    if n > 0 {
      TiesOfFront(r, s, n - 1);
      assert r[..n - 1] == s[..n - 1];
    }
  }

  // ---------------------------------------------------------------------------------------------
  // What a draft is like
  // ---------------------------------------------------------------------------------------------

  ghost function Union(a: seq<nat>, b: seq<nat>): set<nat> {
    (set x | x in a) + (set x | x in b)
  }

  /** While both teams have unused documents, the smaller team picks, and equal teams toss the next coin, one that was
      not tossed before. */
  lemma TeamMeaning(a: seq<nat>, b: seq<nat>, r: seq<InterleavedDoc>, coin: nat -> bool, i: nat)
    requires Drafted(a, b, r, coin) && i < |r|
    requires (exists x :: x in a && x !in DocsOf(r[..i])) && (exists x :: x in b && x !in DocsOf(r[..i]))
    ensures r[i].team == A <==>
              || Size(r[..i], A) < Size(r[..i], B)
              || (Size(r[..i], A) == Size(r[..i], B) && coin(Ties(r, i)))
    ensures forall j: nat :: j < i && Size(r[..j], A) == Size(r[..j], B) ==> Ties(r, j) < Ties(r, i)
  {
    hide FirstUnused, DocsOf, Size, Ties;
    HasMeans(a, r[..i]);
    HasMeans(b, r[..i]);
    assert PickOk(a, b, r, coin, i);
    TiesOfFront(r[..i], r, i);
    forall j: nat | j < i && Size(r[..j], A) == Size(r[..j], B) ensures Ties(r, j) < Ties(r, i) {
      TiesGrow(r, j, i);
    }
  }

  lemma HasMeans(ranking: seq<nat>, r: seq<InterleavedDoc>)
    requires exists x :: x in ranking && x !in DocsOf(r)
    ensures HasUnused(ranking, r)
  {
    var x :| x in ranking && x !in DocsOf(r);
    var i :| 0 <= i < |ranking| && ranking[i] == x;
  }

  lemma {:induction false} TiesGrow(r: seq<InterleavedDoc>, j: nat, i: nat)
    requires j < i <= |r| && Size(r[..j], A) == Size(r[..j], B)
    ensures Ties(r, j) < Ties(r, i)
  {
    hide Size;
    if j < i - 1 {
      TiesGrow(r, j, i - 1);
    }
  }

  ghost function Mirrored(r: seq<InterleavedDoc>): (m: seq<InterleavedDoc>)
    ensures |m| == |r|
    ensures forall i :: 0 <= i < |r| ==> m[i] == InterleavedDoc(r[i].doc, Other(r[i].team))
  {
    seq(|r|, i requires 0 <= i < |r| => InterleavedDoc(r[i].doc, Other(r[i].team)))
  }

  ghost function Flipped(coin: nat -> bool): (f: nat -> bool)
    ensures forall n: nat :: f(n) == !coin(n)
  {
    (n: nat) => !coin(n)
  }

  /** The draft favours neither team: with the rankings exchanged and every coin turned over, it shows the same page
      for the other team. */
  lemma DraftMirrored(a: seq<nat>, b: seq<nat>, r: seq<InterleavedDoc>, coin: nat -> bool)
    requires Drafted(a, b, r, coin)
    ensures Drafted(b, a, Mirrored(r), Flipped(coin))
  {
    hide FirstUnused, DocsOf, Size, Ties, Mirrored, Flipped;
    var m := Mirrored(r);
    forall i | 0 <= i < |m| ensures PickOk(b, a, m, Flipped(coin), i) {
      assert PickOk(a, b, r, coin, i);
      assert m[..i] == Mirrored(r[..i]);
      MirrorKeeps(r[..i]);
    }
  }

  lemma MirrorKeeps(r: seq<InterleavedDoc>)
    ensures var m := Mirrored(r);
            && DocsOf(m) == DocsOf(r) && Size(m, A) == Size(r, B) && Size(m, B) == Size(r, A)
            && Ties(m, |r|) == Ties(r, |r|)
  {
    hide *;
    SameDocs(r, Mirrored(r));
    MirroredSizes(r);
    MirroredTies(r, |r|);
  }

  lemma SameDocs(r: seq<InterleavedDoc>, m: seq<InterleavedDoc>)
    requires |m| == |r| && forall i :: 0 <= i < |r| ==> m[i].doc == r[i].doc
    ensures DocsOf(m) == DocsOf(r)
  {
    forall x ensures x in DocsOf(m) <==> x in DocsOf(r) {
      if i :| 0 <= i < |r| && r[i].doc == x {
        assert m[i].doc == x;
      }
      if i :| 0 <= i < |m| && m[i].doc == x {
        assert r[i].doc == x;
      }
    }
  }

  lemma {:induction false} MirroredSizes(r: seq<InterleavedDoc>)
    ensures Size(Mirrored(r), A) == Size(r, B) && Size(Mirrored(r), B) == Size(r, A)
  {
    hide Mirrored;
    if r != [] {
      var n := |r| - 1;
      MirroredSizes(r[..n]);
      assert Mirrored(r)[..n] == Mirrored(r[..n]);
    }
  }

  lemma {:induction false} MirroredTies(r: seq<InterleavedDoc>, n: nat)
    requires n <= |r|
    ensures Ties(Mirrored(r), n) == Ties(r, n)
  {
    hide Mirrored, Size;
    if n > 0 {
      MirroredTies(r, n - 1);
      assert Mirrored(r)[..n - 1] == Mirrored(r[..n - 1]);
      MirroredSizes(r[..n - 1]);
    }
  }

  /** No document is shown twice. */
  lemma DraftDistinct(a: seq<nat>, b: seq<nat>, r: seq<InterleavedDoc>, coin: nat -> bool)
    requires Drafted(a, b, r, coin)
    ensures forall i, j :: 0 <= i < j < |r| ==> r[i].doc != r[j].doc
    ensures DocsOf(r) <= Union(a, b)
  {
    hide Picks, FirstUnused, DocsOf;
    forall i, j | 0 <= i < j < |r| ensures r[i].doc != r[j].doc {
      assert PickOk(a, b, r, coin, j);
      assert r[..j][i].doc in DocsOf(r[..j]);
    }
    forall d | d in DocsOf(r) ensures d in Union(a, b) {
      var i :| 0 <= i < |r| && r[i].doc == d;
      assert PickOk(a, b, r, coin, i);
    }
  }

  lemma {:induction false} DistinctSize(r: seq<InterleavedDoc>)
    requires forall i, j :: 0 <= i < j < |r| ==> r[i].doc != r[j].doc
    ensures |DocsOf(r)| == |r|
  {
    hide DocsOf;
    if r != [] {
      var n := |r| - 1;
      DistinctSize(r[..n]);
      assert r == r[..n] + [r[n]];
      DocsNext(r[..n], r[n]);
      assert r[n].doc !in DocsOf(r[..n]);
    } else {
      NoDocs();
    }
  }

  lemma NoDocs()
    ensures DocsOf([]) == {}
  {
  }

  /** The page is as long as it can be: `k` documents, or all there are. */
  lemma DraftSize(a: seq<nat>, b: seq<nat>, r: seq<InterleavedDoc>, coin: nat -> bool, k: nat)
    requires Drafted(a, b, r, coin) && |r| <= k && (|r| < k ==> !HasUnused(a, r) && !HasUnused(b, r))
    ensures |r| == if k <= |Union(a, b)| then k else |Union(a, b)|
  {
    hide DocsOf, Drafted;
    DraftDistinct(a, b, r, coin);
    DistinctSize(r);
    SubsetSize(DocsOf(r), Union(a, b));
    if |r| < k {
      forall x | x in Union(a, b) ensures x in DocsOf(r) {
        if x in a {
          var i :| 0 <= i < |a| && a[i] == x;
        } else {
          var i :| 0 <= i < |b| && b[i] == x;
        }
      }
      assert DocsOf(r) == Union(a, b);
    }
  }

  /** Each team's documents appear in the order of its ranking: everything the team ranks above a pick of
      its own was shown before. */
  lemma PicksInOrder(a: seq<nat>, b: seq<nat>, r: seq<InterleavedDoc>, coin: nat -> bool, i: nat)
    requires Drafted(a, b, r, coin) && i < |r|
    ensures exists j :: 0 <= j < |RankingOf(a, b, r[i].team)| && RankingOf(a, b, r[i].team)[j] == r[i].doc
                        && forall h :: 0 <= h < j ==> RankingOf(a, b, r[i].team)[h] in DocsOf(r[..i])
  {
    hide Picks, FirstUnused, DocsOf;
    assert PickOk(a, b, r, coin, i);
  }

  ghost predicate BothHadMore(a: seq<nat>, b: seq<nat>, r: seq<InterleavedDoc>, n: nat)
    requires n <= |r|
  {
    HasUnused(a, r[..n]) && HasUnused(b, r[..n])
  }

  /** As long as both teams had something to pick, their sizes differ by at most one. */
  lemma {:induction false} Balanced(a: seq<nat>, b: seq<nat>, r: seq<InterleavedDoc>, coin: nat -> bool, n: nat)
    requires Drafted(a, b, r, coin) && n <= |r| && (n > 0 ==> BothHadMore(a, b, r, n - 1))
    ensures -1 <= Size(r[..n], A) - Size(r[..n], B) <= 1
  {
    hide HasUnused, FirstUnused, DocsOf;
    if n > 0 {
      if n > 1 {
        MoreBefore(a, r, n - 2);
        MoreBefore(b, r, n - 2);
      }
      Balanced(a, b, r, coin, n - 1);
      assert PickOk(a, b, r, coin, n - 1);
      assert r[..n][..n - 1] == r[..n - 1];
    }
  }

  lemma MoreBefore(ranking: seq<nat>, r: seq<InterleavedDoc>, n: nat)
    requires n + 1 <= |r| && HasUnused(ranking, r[..n + 1])
    ensures HasUnused(ranking, r[..n])
  {
    hide DocsOf;
    assert r[..n + 1] == r[..n] + [r[n]];
    DocsNext(r[..n], r[n]);
  }

  /** The rules leave no choice: the rankings, the coins and `k` determine the page. */
  lemma {:induction false} DraftUnique(a: seq<nat>, b: seq<nat>, r: seq<InterleavedDoc>, s: seq<InterleavedDoc>,
                                       coin: nat -> bool, n: nat)
    requires Drafted(a, b, r, coin) && Drafted(a, b, s, coin) && n <= |r| && n <= |s|
    ensures r[..n] == s[..n]
  {
    hide Picks, FirstUnused, DocsOf;
    if n > 0 {
      DraftUnique(a, b, r, s, coin, n - 1);
      assert PickOk(a, b, r, coin, n - 1) && PickOk(a, b, s, coin, n - 1);
      assert r[..n] == r[..n - 1] + [r[n - 1]] && s[..n] == s[..n - 1] + [s[n - 1]];
    }
  }

  // ---------------------------------------------------------------------------------------------
  // Attribution
  // ---------------------------------------------------------------------------------------------

  ghost predicate FirstShownBy(shown: seq<InterleavedDoc>, d: nat, t: Team) {
    exists i :: 0 <= i < |shown| && shown[i] == InterleavedDoc(d, t) && d !in DocsOf(shown[..i])
  }

  /** The clicked documents that a team showed first. */
  ghost function Credited(shown: seq<InterleavedDoc>, clicks: set<nat>, t: Team): set<nat> {
    set d | d in clicks && FirstShownBy(shown, d, t)
  }

  lemma FirstShownNext(shown: seq<InterleavedDoc>, x: InterleavedDoc, d: nat, t: Team)
    ensures FirstShownBy(shown + [x], d, t) <==>
              FirstShownBy(shown, d, t) || (d !in DocsOf(shown) && x == InterleavedDoc(d, t))
  {
    hide DocsOf;
    var s := shown + [x];
    assert forall i :: 0 <= i <= |shown| ==> s[..i] == shown[..i];
    assert shown[..|shown|] == shown;
    if FirstShownBy(shown, d, t) {
      var i :| 0 <= i < |shown| && shown[i] == InterleavedDoc(d, t) && d !in DocsOf(shown[..i]);
      assert s[i] == shown[i];
    }
    if d !in DocsOf(shown) && x == InterleavedDoc(d, t) {
      assert s[|shown|] == x;
    }
  }

  /** Credit: every clicked document that was shown counts once, for the team that showed it first. */
  method Credit(shown: seq<InterleavedDoc>, clicked: seq<nat>) returns (a: nat, b: nat)
    ensures a == |Credited(shown, Members(clicked), A)| && b == |Credited(shown, Members(clicked), B)|
    ensures a + b == |Members(clicked) * DocsOf(shown)|
  {
    hide *;
    var teamOf: map<nat, Team> := map[];
    NoneShown();
    for i := 0 to |shown|
      invariant TeamsOf(teamOf, shown[..i])
    {
      assert shown[..i + 1] == shown[..i] + [shown[i]];
      TeamsNext(teamOf, shown[..i], shown[i]);
      if shown[i].doc !in teamOf {
        teamOf := teamOf[shown[i].doc := shown[i].team];
      }
    }
    assert shown[..|shown|] == shown;
    a, b := CountClicks(teamOf, shown, clicked);
  }

  method CountClicks(teamOf: map<nat, Team>, ghost shown: seq<InterleavedDoc>, clicked: seq<nat>) returns (a: nat,
                     b: nat)
    requires TeamsOf(teamOf, shown)
    ensures a == |Credited(shown, Members(clicked), A)| && b == |Credited(shown, Members(clicked), B)|
    ensures a + b == |Members(clicked) * DocsOf(shown)|
  {
    hide *;
    var seen: set<nat> := {};
    a, b := 0, 0;
    NoClicks(shown);
    for i := 0 to |clicked|
      invariant seen == Members(clicked[..i])
      invariant a == |Credited(shown, seen, A)| && b == |Credited(shown, seen, B)|
      invariant a + b == |seen * DocsOf(shown)|
    {
      var id := clicked[i];
      ClicksNext(clicked, i);
      if id !in seen {
        TeamIs(teamOf, shown, id);
        OneClick(shown, seen, id, if id in teamOf then teamOf[id] else A);
        if id in teamOf {
          if teamOf[id] == A {
            a := a + 1;
          } else {
            b := b + 1;
          }
        }
      } else {
        assert seen + {id} == seen;
      }
      seen := seen + {id};
    }
    assert clicked[..|clicked|] == clicked;
  }

  lemma NoneShown()
    ensures TeamsOf(map[], [])
  {
  }

  ghost predicate TeamsOf(teamOf: map<nat, Team>, shown: seq<InterleavedDoc>) {
    && (forall d :: d in teamOf <==> d in DocsOf(shown))
    && (forall d, t :: FirstShownBy(shown, d, t) <==> d in teamOf && teamOf[d] == t)
  }

  lemma TeamsNext(teamOf: map<nat, Team>, shown: seq<InterleavedDoc>, x: InterleavedDoc)
    requires TeamsOf(teamOf, shown)
    ensures TeamsOf(if x.doc in teamOf then teamOf else teamOf[x.doc := x.team], shown + [x])
  {
    hide DocsOf, FirstShownBy;
    DocsNext(shown, x);
    forall d, t
      ensures FirstShownBy(shown + [x], d, t) <==>
                FirstShownBy(shown, d, t) || (d !in DocsOf(shown) && x == InterleavedDoc(d, t))
    {
      FirstShownNext(shown, x, d, t);
    }
  }

  lemma TeamIs(teamOf: map<nat, Team>, shown: seq<InterleavedDoc>, id: nat)
    requires TeamsOf(teamOf, shown)
    ensures id in teamOf <==> id in DocsOf(shown)
    ensures id in teamOf ==> FirstShownBy(shown, id, teamOf[id]) && !FirstShownBy(shown, id, Other(teamOf[id]))
    ensures id !in teamOf ==> !FirstShownBy(shown, id, A) && !FirstShownBy(shown, id, B)
  {
  }

  lemma NoClicks(shown: seq<InterleavedDoc>)
    ensures Members<nat>([]) == {} && Credited(shown, {}, A) == {} && Credited(shown, {}, B) == {}
  {
  }

  lemma ClicksNext(clicked: seq<nat>, i: nat)
    requires i < |clicked|
    ensures Members(clicked[..i + 1]) == Members(clicked[..i]) + {clicked[i]}
  {
    assert clicked[..i + 1] == clicked[..i] + [clicked[i]];
  }

  /** A new click. */
  lemma OneClick(shown: seq<InterleavedDoc>, seen: set<nat>, id: nat, t: Team)
    requires id !in seen
    requires id in DocsOf(shown) ==> FirstShownBy(shown, id, t) && !FirstShownBy(shown, id, Other(t))
    requires id !in DocsOf(shown) ==> !FirstShownBy(shown, id, A) && !FirstShownBy(shown, id, B)
    ensures var d := DocsOf(shown);
            && |(seen + {id}) * d| == |seen * d| + (if id in d then 1 else 0)
            && |Credited(shown, seen + {id}, t)| == |Credited(shown, seen, t)| + (if id in d then 1 else 0)
            && |Credited(shown, seen + {id}, Other(t))| == |Credited(shown, seen, Other(t))|
  {
    hide DocsOf, FirstShownBy;
    var d := DocsOf(shown);
    if id in d {
      assert (seen + {id}) * d == seen * d + {id};
    } else {
      assert (seen + {id}) * d == seen * d;
    }
    CreditedNext(shown, seen, id, t);
    CreditedNext(shown, seen, id, Other(t));
  }

  lemma CreditedNext(shown: seq<InterleavedDoc>, seen: set<nat>, id: nat, t: Team)
    requires id !in seen
    ensures |Credited(shown, seen + {id}, t)| == |Credited(shown, seen, t)|
         + if FirstShownBy(shown, id, t) then 1 else 0
  {
    hide FirstShownBy;
    if FirstShownBy(shown, id, t) {
      assert Credited(shown, seen + {id}, t) == Credited(shown, seen, t) + {id};
    } else {
      assert Credited(shown, seen + {id}, t) == Credited(shown, seen, t);
    }
  }
}
