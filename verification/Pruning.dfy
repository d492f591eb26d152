/** robust_prune of engine/src/vector/vamana.cc. */
module Pruning {
  import opened Sequences

  const EMPTY_SLOT: nat := 0xFFFF_FFFF

  /** Distances between points, and the product with alpha as it is computed. */
  datatype Metric = Metric(dist: (nat, nat) -> real, times: real -> real)

  /** neighbor_less: nearer to `p`, ties to the lower id. */
  predicate Nearer(m: Metric, p: nat, a: nat, b: nat) {
    m.dist(p, a) < m.dist(p, b) || (m.dist(p, a) == m.dist(p, b) && a < b)
  }

  ghost predicate ByDistance(m: Metric, p: nat, s: seq<nat>) {
    forall i, j :: 0 <= i < j < |s| ==> Nearer(m, p, s[i], s[j])
  }

  predicate Eligible(p: nat, c: nat) {
    c != p && c != EMPTY_SLOT
  }

  /** The candidates other than `p`, each once, nearest first. */
  ghost predicate IsPool(m: Metric, p: nat, cands: seq<nat>, pool: seq<nat>) {
    ByDistance(m, p, pool) && forall c :: c in pool <==> c in cands && Eligible(p, c)
  }

  /** The pool depends on which candidates there are, and not on their order or number. */
  lemma {:induction false} PoolUnique(m: Metric, p: nat, s: seq<nat>, t: seq<nat>)
    requires ByDistance(m, p, s) && ByDistance(m, p, t) && forall c :: c in s <==> c in t
    ensures s == t
    decreases |s|
  {
    if s == [] {
      FirstIsIn(t);
    } else {
      assert s[0] in t && t != [];
      assert t[0] in s;
      HeadIsNearest(m, p, s, t[0]);
      HeadIsNearest(m, p, t, s[0]);
      assert s == [s[0]] + s[1..] && t == [t[0]] + t[1..];
      OnlyOnce(m, p, s);
      OnlyOnce(m, p, t);
      forall c ensures c in s[1..] <==> c in t[1..] {
        assert c in s <==> c in t;
      }
      PoolUnique(m, p, s[1..], t[1..]);
    }
  }

  lemma HeadIsNearest(m: Metric, p: nat, s: seq<nat>, c: nat)
    requires ByDistance(m, p, s) && c in s
    ensures c == s[0] || Nearer(m, p, s[0], c)
  {
    var i :| 0 <= i < |s| && s[i] == c;
  }

  lemma OnlyOnce(m: Metric, p: nat, s: seq<nat>)
    requires ByDistance(m, p, s) && s != []
    ensures s[0] !in s[1..]
  {
    forall i | 0 <= i < |s[1..]| ensures s[1..][i] != s[0] {
      assert Nearer(m, p, s[0], s[i + 1]);
    }
  }

  /** Sort, drop duplicates and leave out `p`. */
  method SortPool(m: Metric, p: nat, cands: seq<nat>) returns (pool: seq<nat>)
    ensures IsPool(m, p, cands, pool)
  {
    hide ByDistance, Nearer, Eligible;
    pool := [];
    Nothing(m, p);
    for i := 0 to |cands|
      invariant ByDistance(m, p, pool)
      invariant forall c :: c in pool <==> c in cands[..i] && Eligible(p, c)
    {
      assert cands[..i + 1] == cands[..i] + [cands[i]];
      if Eligible(p, cands[i]) && cands[i] !in pool {
        pool := InsertNearer(m, p, pool, cands[i]);
      }
    }
    assert cands[..|cands|] == cands;
  }

  lemma Nothing(m: Metric, p: nat)
    ensures ByDistance(m, p, [])
  {
  }

  method InsertNearer(m: Metric, p: nat, pool: seq<nat>, c: nat) returns (r: seq<nat>)
    requires ByDistance(m, p, pool) && c !in pool
    ensures ByDistance(m, p, r) && forall x :: x in r <==> x in pool || x == c
  {
    hide ByDistance, Nearer;
    var i := 0;
    while i < |pool| && Nearer(m, p, pool[i], c)
      invariant i <= |pool| && forall j :: 0 <= j < i ==> Nearer(m, p, pool[j], c)
    {
      i := i + 1;
    }
    assert pool == pool[..i] + pool[i..];
    r := pool[..i] + [c] + pool[i..];
    InsertedByDistance(m, p, pool, c, i);
  }

  lemma InsertedByDistance(m: Metric, p: nat, pool: seq<nat>, c: nat, i: nat)
    requires ByDistance(m, p, pool) && c !in pool && i <= |pool|
    requires forall j :: 0 <= j < i ==> Nearer(m, p, pool[j], c)
    requires i < |pool| ==> !Nearer(m, p, pool[i], c)
    ensures ByDistance(m, p, pool[..i] + [c] + pool[i..])
  {
    hide Nearer;
    var r := pool[..i] + [c] + pool[i..];
    assert forall j :: 0 <= j < |r| ==> r[j] == if j < i then pool[j] else if j == i then c else pool[j - 1];
    forall j | i <= j < |pool| ensures Nearer(m, p, c, pool[j]) {
      NearerTotal(m, p, pool[i], c);
      if i < j {
        NearerTransitive(m, p, c, pool[i], pool[j]);
      }
    }
  }

  lemma NearerTotal(m: Metric, p: nat, a: nat, b: nat)
    ensures Nearer(m, p, a, b) || Nearer(m, p, b, a) || a == b
  {
  }

  lemma NearerTransitive(m: Metric, p: nat, a: nat, b: nat, c: nat)
    requires Nearer(m, p, a, b) && Nearer(m, p, b, c)
    ensures Nearer(m, p, a, c)
  {
  }

  // ---------------------------------------------------------------------------------------------
  // The greedy choice
  // ---------------------------------------------------------------------------------------------

  /** `a` occludes `b` as a neighbour of `p`. */
  predicate Occludes(m: Metric, p: nat, a: nat, b: nat) {
    m.times(m.dist(a, b)) <= m.dist(p, b)
  }

  ghost predicate Occluded(m: Metric, p: nat, kept: seq<nat>, c: nat) {
    exists i :: 0 <= i < |kept| && Occludes(m, p, kept[i], c)
  }

  /** Nearest first, keep what nothing kept occludes, until there are `R`. */
  ghost function Greedy(m: Metric, p: nat, pool: seq<nat>, kept: seq<nat>, R: nat): seq<nat>
    decreases |pool|
  {
    if pool == [] || |kept| >= R then kept
    else if Occluded(m, p, kept, pool[0]) then Greedy(m, p, pool[1..], kept, R)
    else Greedy(m, p, pool[1..], kept + [pool[0]], R)
  }

  function Capped(pool: seq<nat>, cap: nat): (r: seq<nat>)
    ensures r <= pool && (cap == 0 || |pool| <= cap ==> r == pool) && (cap > 0 ==> |r| <= cap)
  {
    if cap > 0 && |pool| > cap then pool[..cap] else pool
  }

  ghost predicate IsPruned(m: Metric, p: nat, cands: seq<nat>, R: nat, cap: nat, out: seq<nat>) {
    exists pool :: IsPool(m, p, cands, pool) && out == Greedy(m, p, Capped(pool, cap), [], R)
  }

  /** The answer depends on the set of candidates alone. */
  lemma PrunedUnique(m: Metric, p: nat, cands: seq<nat>, more: seq<nat>, R: nat, cap: nat, out: seq<nat>,
                     out': seq<nat>)
    requires IsPruned(m, p, cands, R, cap, out) && IsPruned(m, p, more, R, cap, out')
    requires forall c :: c in cands <==> c in more
    ensures out == out'
  {
    hide ByDistance, Eligible, Greedy;
    var s :| IsPool(m, p, cands, s) && out == Greedy(m, p, Capped(s, cap), [], R);
    var t :| IsPool(m, p, more, t) && out' == Greedy(m, p, Capped(t, cap), [], R);
    PoolUnique(m, p, s, t);
  }

  /** robust_prune: with a flag for every candidate that something kept occludes. */
  method RobustPrune(m: Metric, p: nat, cands: seq<nat>, R: nat, cap: nat) returns (out: seq<nat>)
    ensures IsPruned(m, p, cands, R, cap, out)
  {
    hide IsPool, Occluded, Greedy, Occludes;
    var all := SortPool(m, p, cands);
    var pool := Capped(all, cap);
    out := [];
    var pruned := seq(|pool|, _ => false);
    NoneKept(m, p);
    assert pool[0..] == pool;
    var i := 0;
    while i < |pool| && |out| < R
      invariant i <= |pool| == |pruned|
      invariant forall j :: i <= j < |pool| ==> (pruned[j] <==> Occluded(m, p, out, pool[j]))
      invariant Greedy(m, p, pool[i..], out, R) == Greedy(m, p, pool, [], R)
    {
      GreedyStep(m, p, pool, i, out, R);
      if !pruned[i] {
        ghost var before := out;
        out := out + [pool[i]];
        pruned := MarkOccluded(m, p, pool, pruned, i);
        forall j | i < j < |pool| ensures pruned[j] <==> Occluded(m, p, out, pool[j]) {
          OccludedNext(m, p, before, pool[i], pool[j]);
        }
      }
      i := i + 1;
    }
    GreedyEnd(m, p, pool[i..], out, R);
  }

  /** The inner loop: mark what the newly kept candidate occludes. */
  method MarkOccluded(m: Metric, p: nat, pool: seq<nat>, pruned0: seq<bool>, i: nat) returns (pruned: seq<bool>)
    requires i < |pool| == |pruned0|
    ensures |pruned| == |pool|
    ensures forall j :: i < j < |pool| ==> (pruned[j] <==> pruned0[j] || Occludes(m, p, pool[i], pool[j]))
  {
    hide Occludes;
    pruned := pruned0;
    for j := i + 1 to |pool|
      invariant |pruned| == |pool|
      invariant forall k :: i < k < j ==> (pruned[k] <==> pruned0[k] || Occludes(m, p, pool[i], pool[k]))
      invariant forall k :: j <= k < |pool| ==> pruned[k] == pruned0[k]
    {
      if !pruned[j] && Occludes(m, p, pool[i], pool[j]) {
        pruned := pruned[j := true];
      }
    }
  }

  lemma NoneKept(m: Metric, p: nat)
    ensures forall c :: !Occluded(m, p, [], c)
  {
  }

  lemma GreedyStep(m: Metric, p: nat, pool: seq<nat>, i: nat, kept: seq<nat>, R: nat)
    requires i < |pool| && |kept| < R
    ensures Greedy(m, p, pool[i..], kept, R)
         == Greedy(m, p, pool[i + 1..], if Occluded(m, p, kept, pool[i]) then kept else kept + [pool[i]], R)
  {
    assert pool[i..][1..] == pool[i + 1..];
  }

  lemma GreedyEnd(m: Metric, p: nat, pool: seq<nat>, kept: seq<nat>, R: nat)
    requires pool == [] || |kept| >= R
    ensures Greedy(m, p, pool, kept, R) == kept
  {
  }

  lemma OccludedNext(m: Metric, p: nat, kept: seq<nat>, c: nat, x: nat)
    ensures Occluded(m, p, kept + [c], x) <==> Occluded(m, p, kept, x) || Occludes(m, p, c, x)
  {
    hide Occludes;
    var more := kept + [c];
    if i :| 0 <= i < |kept| && Occludes(m, p, kept[i], x) {
      assert more[i] == kept[i];
    }
    assert more[|kept|] == c;
  }

  // ---------------------------------------------------------------------------------------------
  // What pruning keeps
  // ---------------------------------------------------------------------------------------------

  /** Everything in `s` comes before everything in `t`, in the order of distances. */
  ghost predicate AllNearer(m: Metric, p: nat, s: seq<nat>, t: seq<nat>) {
    forall i, j :: 0 <= i < |s| && 0 <= j < |t| ==> Nearer(m, p, s[i], t[j])
  }

  ghost predicate OccludedByNearer(m: Metric, p: nat, kept: seq<nat>, c: nat) {
    exists i :: 0 <= i < |kept| && Occludes(m, p, kept[i], c) && Nearer(m, p, kept[i], c)
  }

  lemma {:induction false} GreedyKeeps(m: Metric, p: nat, pool: seq<nat>, kept: seq<nat>, R: nat)
    requires ByDistance(m, p, pool) && ByDistance(m, p, kept) && AllNearer(m, p, kept, pool) && |kept| <= R
    ensures var out := Greedy(m, p, pool, kept, R);
            && ByDistance(m, p, out) && |out| <= R && kept <= out
            && (forall c :: c in out ==> c in kept || c in pool)
            && (forall c :: c in pool ==>
                  c in out || OccludedByNearer(m, p, out, c) || (|out| == R && AllNearer(m, p, out, [c])))
    decreases |pool|
  {
    hide Nearer, Occludes;
    if |kept| >= R {
      forall c | c in pool ensures AllNearer(m, p, kept, [c]) {
        var j :| 0 <= j < |pool| && pool[j] == c;
      }
    } else if pool != [] {
      var c, rest := pool[0], pool[1..];
      assert pool == [c] + rest;
      var kept' := if Occluded(m, p, kept, c) then kept else kept + [c];
      KeepOrder(m, p, pool, kept);
      GreedyKeeps(m, p, rest, kept', R);
      var out := Greedy(m, p, pool, kept, R);
      assert out == Greedy(m, p, rest, kept', R);
      if Occluded(m, p, kept, c) {
        var i :| 0 <= i < |kept| && Occludes(m, p, kept[i], c);
        assert out[i] == kept[i] && Nearer(m, p, kept[i], pool[0]);
        assert OccludedByNearer(m, p, out, c);
      } else {
        assert out[|kept|] == kept'[|kept|] == c;
      }
    }
  }

  lemma KeepOrder(m: Metric, p: nat, pool: seq<nat>, kept: seq<nat>)
    requires pool != [] && ByDistance(m, p, pool) && ByDistance(m, p, kept) && AllNearer(m, p, kept, pool)
    ensures ByDistance(m, p, pool[1..]) && ByDistance(m, p, kept + [pool[0]])
    ensures AllNearer(m, p, kept, pool[1..]) && AllNearer(m, p, kept + [pool[0]], pool[1..])
  {
    hide Nearer;
  }

  /** Nothing kept occludes anything kept later. */
  ghost predicate Spread(m: Metric, p: nat, out: seq<nat>) {
    forall i, j :: 0 <= i < j < |out| ==> !Occludes(m, p, out[i], out[j])
  }

  lemma {:induction false} GreedySpreads(m: Metric, p: nat, pool: seq<nat>, kept: seq<nat>, R: nat)
    requires Spread(m, p, kept)
    ensures Spread(m, p, Greedy(m, p, pool, kept, R))
    decreases |pool|
  {
    hide Occludes;
    if pool != [] && |kept| < R {
      GreedySpreads(m, p, pool[1..], if Occluded(m, p, kept, pool[0]) then kept else kept + [pool[0]], R);
    }
  }

  /** Candidate `x` comes before candidate `c`: it is nearer to `p`, or as near with the lower id. */
  ghost predicate Before(m: Metric, p: nat, x: nat, c: nat) {
    m.dist(p, x) < m.dist(p, c) || (m.dist(p, x) == m.dist(p, c) && x < c)
  }

  /** The candidates before `c`. */
  ghost function Ahead(m: Metric, p: nat, cands: seq<nat>, c: nat): set<nat> {
    set x | x in cands && x != p && x != 0xFFFF_FFFF && Before(m, p, x, c)
  }

  /** A candidate that takes part: a point other than `p`, with fewer than `cap` before it; 0 is no cap. */
  ghost predicate Considered(m: Metric, p: nat, cands: seq<nat>, cap: nat, c: nat) {
    c in cands && c != p && c != 0xFFFF_FFFF && (cap == 0 || |Ahead(m, p, cands, c)| < cap)
  }

  /** Kept point `k` stands before `c` and, by alpha, nearer to it than `p` does. */
  ghost predicate StandsBefore(m: Metric, p: nat, k: nat, c: nat) {
    Before(m, p, k, c) && m.times(m.dist(k, c)) <= m.dist(p, c)
  }

  /** What robust_prune promises: at most `R` of the candidates considered, nearest first, each once; by alpha no
      kept point is nearer to a later one than `p` is; and whatever is left out has a kept point standing before
      it, or comes after `R` kept ones. */
  lemma PrunedMeaning(m: Metric, p: nat, cands: seq<nat>, R: nat, cap: nat, out: seq<nat>)
    requires IsPruned(m, p, cands, R, cap, out)
    ensures |out| <= R && forall c :: c in out ==> Considered(m, p, cands, cap, c)
    ensures forall i, j :: 0 <= i < j < |out| ==>
              out[i] != out[j] && Before(m, p, out[i], out[j]) && m.times(m.dist(out[i], out[j])) > m.dist(p, out[j])
    ensures forall c :: Considered(m, p, cands, cap, c) && c !in out ==>
              (exists k :: k in out && StandsBefore(m, p, k, c))
              || (|out| == R && forall k :: k in out ==> Before(m, p, k, c))
  {
    hide Occluded, Greedy, ByDistance, OccludedByNearer, Considered;
    var pool :| IsPool(m, p, cands, pool) && out == Greedy(m, p, Capped(pool, cap), [], R);
    FrontByDistance(m, p, pool, Capped(pool, cap));
    Nothing(m, p);
    GreedyKeeps(m, p, Capped(pool, cap), [], R);
    GreedySpreads(m, p, Capped(pool, cap), [], R);
    ByDistanceDistinct(m, p, out);
    SpreadAndOrder(m, p, out);
    forall c ensures Considered(m, p, cands, cap, c) <==> c in Capped(pool, cap) {
      CappedMeaning(m, p, cands, pool, cap, c);
    }
    forall c | c in Capped(pool, cap) && c !in out
      ensures (exists k :: k in out && StandsBefore(m, p, k, c))
              || (|out| == R && forall k :: k in out ==> Before(m, p, k, c))
    {
      LeftOut(m, p, out, c, R);
    }
  }

  lemma SpreadAndOrder(m: Metric, p: nat, out: seq<nat>)
    requires Spread(m, p, out) && ByDistance(m, p, out)
    ensures forall i, j :: 0 <= i < j < |out| ==>
              Before(m, p, out[i], out[j]) && m.times(m.dist(out[i], out[j])) > m.dist(p, out[j])
  {
    forall i, j | 0 <= i < j < |out|
      ensures Before(m, p, out[i], out[j]) && m.times(m.dist(out[i], out[j])) > m.dist(p, out[j])
    {
      assert Nearer(m, p, out[i], out[j]) && !Occludes(m, p, out[i], out[j]);
    }
  }

  lemma LeftOut(m: Metric, p: nat, out: seq<nat>, c: nat, R: nat)
    requires OccludedByNearer(m, p, out, c) || (|out| == R && AllNearer(m, p, out, [c]))
    ensures (exists k :: k in out && StandsBefore(m, p, k, c))
            || (|out| == R && forall k :: k in out ==> Before(m, p, k, c))
  {
    if OccludedByNearer(m, p, out, c) {
      var i :| 0 <= i < |out| && Occludes(m, p, out[i], c) && Nearer(m, p, out[i], c);
      assert out[i] in out && StandsBefore(m, p, out[i], c);
    } else {
      forall k | k in out ensures Before(m, p, k, c) {
        var i :| 0 <= i < |out| && out[i] == k;
        assert Nearer(m, p, out[i], [c][0]);
      }
    }
  }

  /** The first `cap` of the pool are the candidates with fewer than `cap` before them. */
  lemma CappedMeaning(m: Metric, p: nat, cands: seq<nat>, pool: seq<nat>, cap: nat, c: nat)
    requires IsPool(m, p, cands, pool)
    ensures Considered(m, p, cands, cap, c) <==> c in Capped(pool, cap)
  {
    hide ByDistance;
    if c in pool {
      var i :| 0 <= i < |pool| && pool[i] == c;
      AheadIsFront(m, p, cands, pool, i);
      InFront(m, p, pool, i, |Capped(pool, cap)|);
    }
  }

  lemma InFront(m: Metric, p: nat, pool: seq<nat>, i: nat, n: nat)
    requires ByDistance(m, p, pool) && i < |pool| && n <= |pool|
    ensures pool[i] in pool[..n] <==> i < n
  {
    ByDistanceDistinct(m, p, pool);
    if i < n {
      assert pool[..n][i] == pool[i];
    }
  }

  lemma AheadIsFront(m: Metric, p: nat, cands: seq<nat>, pool: seq<nat>, i: nat)
    requires IsPool(m, p, cands, pool) && i < |pool|
    ensures |Ahead(m, p, cands, pool[i])| == i
  {
    FrontIsDistinct(m, p, pool, i);
    forall x ensures x in Ahead(m, p, cands, pool[i]) <==> x in Members(pool[..i]) {
      if x in pool {
        var j :| 0 <= j < |pool| && pool[j] == x;
        InFront(m, p, pool, j, i);
        assert j < i ==> Nearer(m, p, pool[j], pool[i]);
        assert i < j ==> Nearer(m, p, pool[i], pool[j]);
      }
    }
    assert Ahead(m, p, cands, pool[i]) == Members(pool[..i]);
  }

  lemma FrontIsDistinct(m: Metric, p: nat, pool: seq<nat>, i: nat)
    requires ByDistance(m, p, pool) && i <= |pool|
    ensures |Members(pool[..i])| == i
  {
    ByDistanceDistinct(m, p, pool);
    MembersSize(pool[..i]);
  }

  lemma FrontByDistance(m: Metric, p: nat, s: seq<nat>, t: seq<nat>)
    requires ByDistance(m, p, s) && t <= s
    ensures ByDistance(m, p, t)
  {
  }

  lemma ByDistanceDistinct(m: Metric, p: nat, s: seq<nat>)
    requires ByDistance(m, p, s)
    ensures forall i, j :: 0 <= i < j < |s| ==> s[i] != s[j]
  {
    forall i, j | 0 <= i < j < |s| ensures s[i] != s[j] {
      assert Nearer(m, p, s[i], s[j]);
    }
  }
}
