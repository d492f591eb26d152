/** class TopK of engine/include/hs/common/topk.hpp: the best candidates so far, in a binary heap with the worst of
    them in front. */
module BoundedHeap {
  import opened Ranking

  /** Best first; equal entries may repeat. */
  ghost predicate Sorted(r: seq<ScoredDoc>) {
    forall i, j :: 0 <= i < j < |r| ==> !RanksBefore(r[j], r[i])
  }

  function Parent(i: nat): nat
    requires i > 0
  {
    (i - 1) / 2
  }

  /** No entry is worse than its parent. */
  ghost predicate IsHeap(h: seq<ScoredDoc>) {
    forall i :: 0 < i < |h| ==> !RanksBefore(h[Parent(i)], h[i])
  }

  lemma {:induction false} FrontIsWorst(h: seq<ScoredDoc>, i: nat)
    requires IsHeap(h) && i < |h|
    ensures !RanksBefore(h[0], h[i])
  {
    if i > 0 {
      FrontIsWorst(h, Parent(i));
    }
  }

  /** The same entries, in a heap and in ranked order. */
  ghost predicate Holds(h: seq<ScoredDoc>, r: seq<ScoredDoc>)
    ensures Holds(h, r) ==> |h| == |r|
  {
    SameSize(h, r);
    IsHeap(h) && Sorted(r) && multiset(h) == multiset(r)
  }

  lemma SameSize(h: seq<ScoredDoc>, r: seq<ScoredDoc>)
    ensures multiset(h) == multiset(r) ==> |h| == |r|
  {
    assert |multiset(h)| == |h| && |multiset(r)| == |r|;
  }

  /** The heap's front is the last entry in ranked order. */
  lemma FrontIsLast(h: seq<ScoredDoc>, r: seq<ScoredDoc>)
    requires Holds(h, r) && h != []
    ensures h[0] == r[|r| - 1]
  {
    var last := r[|r| - 1];
    assert last in multiset(h) && h[0] in multiset(r);
    var i :| 0 <= i < |h| && h[i] == last;
    var j :| 0 <= j < |r| && r[j] == h[0];
    FrontIsWorst(h, i);
  }

  lemma InsertSorts(r: seq<ScoredDoc>, c: ScoredDoc)
    requires Sorted(r)
    ensures Sorted(Insert(r, c)) && multiset(Insert(r, c)) == multiset(r) + multiset{c}
  {
    hide Sorted;
    var i := Place(r, c);
    var a, b := r[..i], r[i..];
    assert r == a + b && Insert(r, c) == a + [c] + b;
    if i < |r| {
      NoneAfter(r, c, i);
    }
    Between(a, c, b);
  }

  lemma NoneAfter(r: seq<ScoredDoc>, c: ScoredDoc, i: nat)
    requires Sorted(r) && i < |r| && !RanksBefore(r[i], c)
    ensures forall j :: i <= j < |r| ==> !RanksBefore(r[j], c)
  {
    forall j | i <= j < |r| ensures !RanksBefore(r[j], c) {
      assert j == i || !RanksBefore(r[j], r[i]);
    }
  }

  lemma Between(a: seq<ScoredDoc>, c: ScoredDoc, b: seq<ScoredDoc>)
    requires Sorted(a + b) && (forall i :: 0 <= i < |a| ==> RanksBefore(a[i], c))
    requires forall j :: 0 <= j < |b| ==> !RanksBefore(b[j], c)
    ensures Sorted(a + [c] + b)
  {
    var r, s := a + b, a + [c] + b;
    forall i, j | 0 <= i < j < |s| ensures !RanksBefore(s[j], s[i]) {
      var i', j' := if i <= |a| then i else i - 1, if j <= |a| then j else j - 1;
      if i != |a| && j != |a| {
        assert s[i] == r[i'] && s[j] == r[j'];
      }
    }
  }

  /** Without its last entry. */
  lemma Shorter(r: seq<ScoredDoc>)
    requires r != []
    ensures multiset(r) == multiset(r[..|r| - 1]) + multiset{r[|r| - 1]} && (Sorted(r) ==> Sorted(r[..|r| - 1]))
  {
    assert r == r[..|r| - 1] + [r[|r| - 1]];
  }

  // ---------------------------------------------------------------------------------------------
  // Moving an entry to its place
  // ---------------------------------------------------------------------------------------------

  /** A heap but for the pair of `i` and its parent. */
  ghost predicate HeapAbove(h: seq<ScoredDoc>, i: nat) {
    && (forall j :: 0 < j < |h| && j != i ==> !RanksBefore(h[Parent(j)], h[j]))
    && (i > 0 ==> forall j :: 0 < j < |h| && Parent(j) == i && i < |h| ==> !RanksBefore(h[Parent(i)], h[j]))
  }

  /** A heap but for the pairs of `i` and its children. */
  ghost predicate HeapBelow(h: seq<ScoredDoc>, i: nat) {
    && (forall j :: 0 < j < |h| && Parent(j) != i ==> !RanksBefore(h[Parent(j)], h[j]))
    && (i > 0 ==> forall j :: 0 < j < |h| && Parent(j) == i && i < |h| ==> !RanksBefore(h[Parent(i)], h[j]))
  }

  function Swapped(h: seq<ScoredDoc>, i: nat, j: nat): (s: seq<ScoredDoc>)
    requires i < |h| && j < |h|
    ensures |s| == |h| && multiset(s) == multiset(h)
  {
    h[i := h[j]][j := h[i]]
  }

  /** std::push_heap: the last entry moves up. */
  method SiftUp(h0: seq<ScoredDoc>) returns (h: seq<ScoredDoc>)
    requires h0 != [] && IsHeap(h0[..|h0| - 1])
    ensures IsHeap(h) && multiset(h) == multiset(h0)
  {
    h := h0;
    var i: nat := |h| - 1;
    assert HeapAbove(h, i) by {
      assert forall j :: 0 <= j < i ==> h[j] == h0[..i][j];
    }
    while i > 0 && RanksBefore(h[Parent(i)], h[i])
      invariant i < |h| && HeapAbove(h, i) && multiset(h) == multiset(h0)
    {
      UpOnce(h, i);
      h, i := Swapped(h, i, Parent(i)), Parent(i);
    }
  }

  lemma UpOnce(h: seq<ScoredDoc>, i: nat)
    requires 0 < i < |h| && HeapAbove(h, i) && RanksBefore(h[Parent(i)], h[i])
    ensures HeapAbove(Swapped(h, i, Parent(i)), Parent(i))
  {
    var p, s := Parent(i), Swapped(h, i, Parent(i));
    forall j | 0 < j < |s| && j != p ensures !RanksBefore(s[Parent(j)], s[j]) {
      assert !RanksBefore(h[Parent(j)], h[j]) || j == i;
    }
    if p > 0 {
      assert !RanksBefore(h[Parent(p)], h[p]);
    }
  }

  /** What std::pop_heap does below the front: an entry that may be better than its children moves down. */
  method SiftDown(h0: seq<ScoredDoc>) returns (h: seq<ScoredDoc>)
    requires HeapBelow(h0, 0)
    ensures IsHeap(h) && multiset(h) == multiset(h0)
  {
    hide HeapBelow, IsHeap, WorstChild;
    h := h0;
    var i: nat := 0;
    while 2 * i + 1 < |h|
      invariant HeapBelow(h, i) && multiset(h) == multiset(h0)
      decreases |h| - i
    {
      var c := if 2 * i + 2 < |h| && RanksBefore(h[2 * i + 1], h[2 * i + 2]) then 2 * i + 2 else 2 * i + 1;
      ChildIsWorst(h, i, c);
      if !RanksBefore(h[i], h[c]) {
        DownEnds(h, i, c);
        return;
      }
      DownOnce(h, i, c);
      h, i := Swapped(h, i, c), c;
    }
    NoChild(h, i);
  }

  lemma ChildIsWorst(h: seq<ScoredDoc>, i: nat, c: nat)
    requires 2 * i + 1 < |h|
    requires c == if 2 * i + 2 < |h| && RanksBefore(h[2 * i + 1], h[2 * i + 2]) then 2 * i + 2 else 2 * i + 1
    ensures WorstChild(h, i, c)
  {
    forall j | 0 < j < |h| && Parent(j) == i ensures !RanksBefore(h[c], h[j]) {
      assert j == 2 * i + 1 || j == 2 * i + 2;
    }
  }

  lemma NoChild(h: seq<ScoredDoc>, i: nat)
    requires HeapBelow(h, i) && |h| <= 2 * i + 1
    ensures IsHeap(h)
  {
  }

  /** `c` is the worst child of `i`. */
  ghost predicate WorstChild(h: seq<ScoredDoc>, i: nat, c: nat) {
    i < c < |h| && Parent(c) == i && forall j :: 0 < j < |h| && Parent(j) == i ==> !RanksBefore(h[c], h[j])
  }

  lemma DownEnds(h: seq<ScoredDoc>, i: nat, c: nat)
    requires HeapBelow(h, i) && WorstChild(h, i, c) && !RanksBefore(h[i], h[c])
    ensures IsHeap(h)
  {
    forall j | 0 < j < |h| ensures !RanksBefore(h[Parent(j)], h[j]) {
      if Parent(j) == i {
        assert !RanksBefore(h[c], h[j]);
      }
    }
  }

  lemma DownOnce(h: seq<ScoredDoc>, i: nat, c: nat)
    requires HeapBelow(h, i) && WorstChild(h, i, c) && RanksBefore(h[i], h[c])
    ensures HeapBelow(Swapped(h, i, c), c)
  {
    var s := Swapped(h, i, c);
    forall j | 0 < j < |s| && Parent(j) != c ensures !RanksBefore(s[Parent(j)], s[j]) {
      if Parent(j) == i {
        assert !RanksBefore(h[c], h[j]);
      }
    }
    forall j | 0 < j < |s| && Parent(j) == c ensures !RanksBefore(s[Parent(c)], s[j]) {
      assert !RanksBefore(h[Parent(j)], h[j]);
    }
  }

  // ---------------------------------------------------------------------------------------------
  // The bounded heap
  // ---------------------------------------------------------------------------------------------

  /** `heap` lists the contents of the vector `slots`, best first. */
  class TopK {
    const k: nat
    var slots: seq<ScoredDoc>
    ghost var heap: seq<ScoredDoc>

    ghost predicate Valid()
      reads this
      ensures Valid() ==> 0 < k && |heap| <= k
    {
      0 < k && |heap| <= k && Holds(slots, heap)
    }

    constructor (k: nat)
      requires k > 0
      ensures Valid() && this.k == k && heap == []
    {
      this.k := k;
      slots, heap := [], [];
    }

    predicate Full()
      reads this
      requires Valid()
      ensures Full() <==> |heap| == k
    {
      |slots| >= k
    }

    /** The score of the k-th candidate. */
    function Threshold(): (x: real)
      reads this
      requires Valid() && Full()
      ensures x == heap[k - 1].score
    {
      FrontIsLast(slots, heap);
      slots[0].score
    }

    lemma Sizes()
      requires Valid()
      ensures Holds(slots, heap) && |slots| == |heap|
    {
    }

    /** What Valid says of the vector, put together. */
    lemma IsValid()
      requires 0 < k && |heap| <= k && Holds(slots, heap)
      ensures Valid()
    {
    }

    method Push(doc: nat, score: real) returns (admitted: bool)
      requires Valid()
      modifies this
      ensures Valid()
      ensures heap == Offer(old(heap), k, ScoredDoc(doc, score))
      ensures !admitted ==> heap == old(heap)
      ensures admitted ==> ScoredDoc(doc, score) in heap
    {
      hide *;
      var c := ScoredDoc(doc, score);
      Sizes();
      OfferIs(heap, k, c);
      if !Full() {
        Appended(slots, heap, c);
        slots := SiftUp(slots + [c]);
        heap := Insert(heap, c);
        StillHolds(slots, heap);
        IsValid();
        return true;
      }
      FrontIsLast(slots, heap);
      if !RanksBefore(c, slots[0]) {
        return false;
      }
      var rest := PopFront(slots, heap);
      Appended(rest, heap[..k - 1], c);
      slots := SiftUp(rest + [c]);
      heap := Insert(heap[..k - 1], c);
      StillHolds(slots, heap);
      IsValid();
      admitted := true;
    }

    /** The candidates, best first. */
    method TakeSorted() returns (r: seq<ScoredDoc>)
      requires Valid()
      modifies this
      ensures Valid() && heap == [] && r == old(heap)
    {
      r := SortAll(slots);
      SortedUnique(r, heap);
      slots, heap := [], [];
    }
  }

  lemma OfferIs(r: seq<ScoredDoc>, k: nat, c: ScoredDoc)
    requires 0 < k && |r| <= k
    ensures |r| < k ==> Offer(r, k, c) == Insert(r, c)
    ensures |r| == k && !RanksBefore(c, r[k - 1]) ==> Offer(r, k, c) == r
    ensures |r| == k && RanksBefore(c, r[k - 1]) ==> Offer(r, k, c) == Insert(r[..k - 1], c)
  {
  }

  method SortAll(h: seq<ScoredDoc>) returns (r: seq<ScoredDoc>)
    ensures Sorted(r) && multiset(r) == multiset(h)
  {
    hide Sorted;
    r := [];
    NoEntries();
    for i := 0 to |h|
      invariant Sorted(r) && multiset(r) == multiset(h[..i])
    {
      InsertSorts(r, h[i]);
      assert h[..i + 1] == h[..i] + [h[i]];
      r := Insert(r, h[i]);
    }
    assert h[..|h|] == h;
  }

  lemma NoEntries()
    ensures Sorted([])
  {
  }

  /** std::pop_heap: the worst entry goes. */
  method PopFront(h: seq<ScoredDoc>, ghost r: seq<ScoredDoc>) returns (rest: seq<ScoredDoc>)
    requires Holds(h, r) && h != []
    ensures Holds(rest, r[..|r| - 1])
  {
    FrontIsLast(h, r);
    var n := |h| - 1;
    var moved := if n == 0 then [] else [h[n]] + h[1..n];
    FrontGone(h, r, moved);
    rest := SiftDown(moved);
  }

  lemma FrontGone(h: seq<ScoredDoc>, r: seq<ScoredDoc>, moved: seq<ScoredDoc>)
    requires Holds(h, r) && h != [] && h[0] == r[|r| - 1]
    requires moved == if |h| == 1 then [] else [h[|h| - 1]] + h[1..|h| - 1]
    ensures HeapBelow(moved, 0) && Sorted(r[..|r| - 1]) && multiset(moved) == multiset(r[..|r| - 1])
  {
    hide Sorted;
    Shorter(r);
    MovedHeap(h, moved);
    MovedAll(h, moved);
    Cancel(multiset(moved), multiset(r[..|r| - 1]), h[0]);
  }

  lemma MovedHeap(h: seq<ScoredDoc>, moved: seq<ScoredDoc>)
    requires IsHeap(h) && h != [] && moved == if |h| == 1 then [] else [h[|h| - 1]] + h[1..|h| - 1]
    ensures HeapBelow(moved, 0)
  {
    forall j | 0 < j < |moved| && Parent(j) != 0 ensures !RanksBefore(moved[Parent(j)], moved[j]) {
      assert moved[j] == h[j] && moved[Parent(j)] == h[Parent(j)];
    }
  }

  lemma MovedAll(h: seq<ScoredDoc>, moved: seq<ScoredDoc>)
    requires h != [] && moved == if |h| == 1 then [] else [h[|h| - 1]] + h[1..|h| - 1]
    ensures multiset(h) == multiset(moved) + multiset{h[0]}
  {
    if |h| > 1 {
      assert h == [h[0]] + h[1..|h| - 1] + [h[|h| - 1]];
    } else {
      assert h == [h[0]];
    }
  }

  lemma Cancel(a: multiset<ScoredDoc>, b: multiset<ScoredDoc>, x: ScoredDoc)
    requires a + multiset{x} == b + multiset{x}
    ensures a == b
  {
    assert a == a + multiset{x} - multiset{x};
    assert b == b + multiset{x} - multiset{x};
  }

  lemma Appended(h: seq<ScoredDoc>, r: seq<ScoredDoc>, c: ScoredDoc)
    requires Holds(h, r)
    ensures IsHeap((h + [c])[..|h|]) && Sorted(Insert(r, c)) && multiset(h + [c]) == multiset(Insert(r, c))
  {
    assert (h + [c])[..|h|] == h;
    InsertSorts(r, c);
  }

  lemma StillHolds(h: seq<ScoredDoc>, r: seq<ScoredDoc>)
    requires IsHeap(h) && Sorted(r) && multiset(h) == multiset(r)
    ensures Holds(h, r)
  {
  }

  /** Entries have one ranked order. */
  lemma {:induction false} SortedUnique(r: seq<ScoredDoc>, s: seq<ScoredDoc>)
    requires Sorted(r) && Sorted(s) && multiset(r) == multiset(s)
    ensures r == s
    decreases |r|
  {
    hide Sorted;
    SameSize(r, s);
    if r != [] {
      SameLast(r, s);
      var n := |r| - 1;
      SortedUnique(r[..n], s[..n]);
      assert r == r[..n] + [r[n]] && s == s[..n] + [s[n]];
    }
  }

  /** The last entries are the same, and so are the others. */
  lemma SameLast(r: seq<ScoredDoc>, s: seq<ScoredDoc>)
    requires Sorted(r) && Sorted(s) && multiset(r) == multiset(s) && |r| == |s| > 0
    ensures r[|r| - 1] == s[|s| - 1] && multiset(r[..|r| - 1]) == multiset(s[..|s| - 1])
    ensures Sorted(r[..|r| - 1]) && Sorted(s[..|s| - 1])
  {
    hide Sorted;
    LastIsWorst(r, s);
    Shorter(r);
    Shorter(s);
    Cancel(multiset(r[..|r| - 1]), multiset(s[..|s| - 1]), r[|r| - 1]);
  }

  lemma LastIsWorst(r: seq<ScoredDoc>, s: seq<ScoredDoc>)
    requires Sorted(r) && Sorted(s) && multiset(r) == multiset(s) && |r| == |s| > 0
    ensures r[|r| - 1] == s[|s| - 1]
  {
    var n := |r| - 1;
    assert r[n] in multiset(s) && s[n] in multiset(r);
    var i :| 0 <= i <= n && s[i] == r[n];
    var j :| 0 <= j <= n && r[j] == s[n];
    assert i < n ==> !RanksBefore(s[n], s[i]);
    assert j < n ==> !RanksBefore(r[n], r[j]);
  }
}
