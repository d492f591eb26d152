/** The optimal-string-alignment distance of broker/HybridSearch.Broker/Autocomplete/SpellCorrector.cs. */
module EditDistance {
  import opened Numbers

  /** True if the first `i` and `j` characters end in the same two characters, exchanged. */
  predicate Swapped(a: string, b: string, i: nat, j: nat)
    requires i <= |a| && j <= |b|
  {
    i > 1 && j > 1 && a[i - 1] == b[j - 2] && a[i - 2] == b[j - 1]
  }

  /** Insertions, deletions, substitutions and exchanges of neighbours that turn the first `i`
      characters of `a` into the first `j` of `b`, no character being edited twice. */
  function Osa(a: string, b: string, i: nat, j: nat): nat
    requires i <= |a| && j <= |b|
  {
    if i == 0 then j
    else if j == 0 then i
    else
      Cell(Osa(a, b, i - 1, j), Osa(a, b, i, j - 1), Osa(a, b, i - 1, j - 1),
           if a[i - 1] == b[j - 1] then 0 else 1,
           Swapped(a, b, i, j), if Swapped(a, b, i, j) then Osa(a, b, i - 2, j - 2) else 0)
  }

  /** A table entry from its neighbours, and from two rows up when the last characters are exchanged. */
  function Cell(up: nat, left: nat, corner: nat, cost: nat, swapped: bool, far: nat): nat {
    var v := Min(Min(up + 1, left + 1), corner + cost);
    if swapped then Min(v, far + 1) else v
  }

  lemma OsaEdges(a: string, b: string, i: nat, j: nat)
    requires i <= |a| && j <= |b|
    ensures Osa(a, b, 0, j) == j && Osa(a, b, i, 0) == i
  {
  }

  lemma OsaStep(a: string, b: string, i: nat, j: nat)
    requires 0 < i <= |a| && 0 < j <= |b|
    ensures Osa(a, b, i, j) == Cell(Osa(a, b, i - 1, j), Osa(a, b, i, j - 1), Osa(a, b, i - 1, j - 1),
                                    if a[i - 1] == b[j - 1] then 0 else 1,
                                    Swapped(a, b, i, j), if Swapped(a, b, i, j) then Osa(a, b, i - 2, j - 2) else 0)
  {
  }

  function Distance(a: string, b: string): nat {
    Osa(a, b, |a|, |b|)
  }

  lemma {:induction false} OsaSymmetric(a: string, b: string, i: nat, j: nat)
    requires i <= |a| && j <= |b|
    ensures Osa(a, b, i, j) == Osa(b, a, j, i)
    decreases i + j
  {
    hide Osa;
    if i == 0 || j == 0 {
      OsaEdges(a, b, i, j);
      OsaEdges(b, a, j, i);
    } else {
      OsaStep(a, b, i, j);
      OsaStep(b, a, j, i);
      OsaSymmetric(a, b, i - 1, j);
      OsaSymmetric(a, b, i, j - 1);
      OsaSymmetric(a, b, i - 1, j - 1);
      if Swapped(a, b, i, j) {
        OsaSymmetric(a, b, i - 2, j - 2);
      }
    }
  }

  /** The distance is at least the difference of the lengths. */
  lemma {:induction false} OsaAtLeast(a: string, b: string, i: nat, j: nat)
    requires i <= |a| && j <= |b|
    ensures Osa(a, b, i, j) >= i - j && Osa(a, b, i, j) >= j - i
    decreases i + j
  {
    hide Osa;
    if i == 0 || j == 0 {
      OsaEdges(a, b, i, j);
    } else {
      OsaStep(a, b, i, j);
      OsaAtLeast(a, b, i - 1, j);
      OsaAtLeast(a, b, i, j - 1);
      OsaAtLeast(a, b, i - 1, j - 1);
      if Swapped(a, b, i, j) {
        OsaAtLeast(a, b, i - 2, j - 2);
      }
    }
  }

  /** Once a whole row of the table exceeds `max`, so does every later row, although an exchange
      reaches back over a row. */
  lemma {:induction false} RowExceeds(a: string, b: string, r: nat, max: nat, i: nat, j: nat)
    requires 0 < r <= i <= |a| && j <= |b|
    requires forall k :: 0 <= k <= |b| ==> Osa(a, b, r, k) > max
    ensures Osa(a, b, i, j) > max
    decreases i, j
  {
    hide Osa;
    if i > r {
      if j == 0 {
        RowExceeds(a, b, r, max, i - 1, 0);
        OsaEdges(a, b, i, j);
        OsaEdges(a, b, i - 1, j);
      } else {
        OsaStep(a, b, i, j);
        RowExceeds(a, b, r, max, i - 1, j);
        RowExceeds(a, b, r, max, i, j - 1);
        RowExceeds(a, b, r, max, i - 1, j - 1);
        if Swapped(a, b, i, j) {
          if i - 2 >= r {
            RowExceeds(a, b, r, max, i - 2, j - 2);
          } else {
            OsaStep(a, b, i - 1, j - 1);
          }
        }
      }
    }
  }

  /** The first `n` entries of row `i` of the table. */
  ghost predicate RowIs(a: string, b: string, i: nat, row: seq<nat>, n: nat)
    requires i <= |a| && n <= |b| + 1 && n <= |row|
  {
    forall j :: 0 <= j < n ==> row[j] == Osa(a, b, i, j)
  }

  /** Fill row `i` from the two rows above it. */
  method FillRow(a: string, b: string, i: nat, prev2: array<nat>, prev: array<nat>,
                 cur: array<nat>) returns (rowMin: nat)
    requires 0 < i <= |a| && prev2.Length == prev.Length == cur.Length == |b| + 1 && prev2 != cur && prev != cur
    requires RowIs(a, b, i - 1, prev[..], |b| + 1)
    requires i > 1 ==> RowIs(a, b, i - 2, prev2[..], |b| + 1)
    modifies cur
    ensures RowIs(a, b, i, cur[..], |b| + 1)
    ensures forall j :: 0 <= j <= |b| ==> rowMin <= Osa(a, b, i, j)
    ensures exists j :: 0 <= j <= |b| && rowMin == Osa(a, b, i, j)
  {
    hide Osa;
    OsaEdges(a, b, i, 0);
    cur[0] := i;
    rowMin := i;
    for j := 1 to |b| + 1
      invariant RowIs(a, b, i, cur[..], j)
      invariant forall k :: 0 <= k < j ==> rowMin <= Osa(a, b, i, k)
      invariant exists k :: 0 <= k < j && rowMin == Osa(a, b, i, k)
    {
      var cost := if a[i - 1] == b[j - 1] then 0 else 1;
      var v := Min(Min(prev[j] + 1, cur[j - 1] + 1), prev[j - 1] + cost);
      if i > 1 && j > 1 && a[i - 1] == b[j - 2] && a[i - 2] == b[j - 1] {
        v := Min(v, prev2[j - 2] + 1);
      }
      EntryIs(a, b, i, j, prev2[..], prev[..], cur[..], v);
      ghost var before := cur[..];
      cur[j] := v;
      RowGrows(a, b, i, before, cur[..], j);
      if v < rowMin {
        rowMin := v;
      }
    }
  }

  lemma EntryIs(a: string, b: string, i: nat, j: nat, prev2: seq<nat>, prev: seq<nat>, cur: seq<nat>, v: nat)
    requires 0 < i <= |a| && 0 < j <= |b| && |prev2| == |prev| == |cur| == |b| + 1
    requires RowIs(a, b, i - 1, prev, |b| + 1) && RowIs(a, b, i, cur, j)
    requires i > 1 ==> RowIs(a, b, i - 2, prev2, |b| + 1)
    requires v == Cell(prev[j], cur[j - 1], prev[j - 1], if a[i - 1] == b[j - 1] then 0 else 1,
                       Swapped(a, b, i, j), if Swapped(a, b, i, j) then prev2[j - 2] else 0)
    ensures v == Osa(a, b, i, j)
  {
    hide Osa;
    OsaStep(a, b, i, j);
  }

  lemma RowGrows(a: string, b: string, i: nat, before: seq<nat>, after: seq<nat>, j: nat)
    requires i <= |a| && j <= |b| && |before| == |after| == |b| + 1 && RowIs(a, b, i, before, j)
    requires after == before[j := Osa(a, b, i, j)]
    ensures RowIs(a, b, i, after, j + 1)
  {
    hide Osa;
  }

  /** The three-row table with an early exit: exact up to `max`, and above `max` whenever the
      distance is. */
  method OsaDistance(a: string, b: string, max: nat) returns (d: nat)
    ensures if Distance(a, b) <= max then d == Distance(a, b) else d > max
  {
    var n, m := |a|, |b|;
    OsaAtLeast(a, b, n, m);
    if n - m > max || m - n > max {
      return max + 1;
    }
    var prev2, prev, cur := new nat[m + 1], new nat[m + 1], new nat[m + 1];
    for j := 0 to m + 1
      invariant forall k :: 0 <= k < j ==> prev[k] == k
    {
      prev[j] := j;
    }
    hide RowIs, Osa, Distance;
    FirstRowIs(a, b, prev[..]);
    var i := 1;
    while i <= n
      invariant 1 <= i <= n + 1 && prev2.Length == prev.Length == cur.Length == m + 1
      invariant prev2 != cur && prev != cur && prev2 != prev
      invariant fresh(prev2) && fresh(prev) && fresh(cur)
      invariant RowIs(a, b, i - 1, prev[..], m + 1)
      invariant i > 1 ==> RowIs(a, b, i - 2, prev2[..], m + 1)
    {
      var rowMin := FillRow(a, b, i, prev2, prev, cur);
      if rowMin > max {
        RowExceeds(a, b, i, max, n, m);
        return max + 1;
      }
      prev2, prev, cur := prev, cur, prev2;
      i := i + 1;
    }
    LastEntryIs(a, b, prev[..]);
    return prev[m];
  }

  lemma FirstRowIs(a: string, b: string, row: seq<nat>)
    requires |row| == |b| + 1 && forall j :: 0 <= j <= |b| ==> row[j] == j
    ensures RowIs(a, b, 0, row, |b| + 1)
  {
  }

  lemma LastEntryIs(a: string, b: string, row: seq<nat>)
    requires |row| == |b| + 1 && RowIs(a, b, |a|, row, |b| + 1)
    ensures row[|b|] == Osa(a, b, |a|, |b|) == Distance(a, b)
  {
  }

  // ---------------------------------------------------------------------------------------------
  // Common subsequences
  // ---------------------------------------------------------------------------------------------

  /** True if deleting characters of `s` can leave `c`. */
  predicate Subseq(c: string, s: string) {
    c == "" || (s != "" && (Subseq(c, s[..|s| - 1])
                            || (c[|c| - 1] == s[|s| - 1] && Subseq(c[..|c| - 1], s[..|s| - 1]))))
  }

  lemma SubseqSnoc(c: string, s: string, x: char)
    requires Subseq(c, s)
    ensures Subseq(c, s + [x]) && Subseq(c + [x], s + [x])
  {
    assert (s + [x])[..|s|] == s && (c + [x])[..|c|] == c;
  }

  lemma {:induction false} SubseqLength(c: string, s: string)
    requires Subseq(c, s)
    ensures |c| <= |s| && (|c| == |s| ==> c == s)
    decreases |s|
  {
    if c != "" {
      if Subseq(c, s[..|s| - 1]) {
        SubseqLength(c, s[..|s| - 1]);
      } else {
        SubseqLength(c[..|c| - 1], s[..|s| - 1]);
      }
    }
  }

  lemma SubseqOfFront(c: string, s: string)
    requires Subseq(c, s) && s != ""
    ensures Subseq(c, s[..|s| - 1])
            || (c != "" && c[|c| - 1] == s[|s| - 1] && Subseq(c[..|c| - 1], s[..|s| - 1]))
  {
  }

  function Remove(s: string, i: nat): string
    requires i < |s|
  {
    s[..i] + s[i + 1..]
  }

  /** A proper subsequence survives some single deletion. */
  lemma {:induction false} SubseqOfRemoved(c: string, s: string) returns (i: nat)
    requires Subseq(c, s) && |c| < |s|
    ensures i < |s| && Subseq(c, Remove(s, i))
    decreases |s|
  {
    hide Subseq;
    var t, x := s[..|s| - 1], s[|s| - 1];
    SubseqOfFront(c, s);
    if Subseq(c, t) {
      i := |s| - 1;
      assert Remove(s, i) == t;
    } else {
      i := SubseqOfRemoved(c[..|c| - 1], t);
      SubseqSnoc(c[..|c| - 1], Remove(t, i), x);
      assert Remove(s, i) == Remove(t, i) + [x];
      assert c == c[..|c| - 1] + [x];
    }
  }

  /** What is left of the first `i` characters when a word is cut to its first `p`. */
  function Cut(s: string, i: nat, p: nat): string
    requires i <= |s|
  {
    s[..Min(i, p)]
  }

  ghost predicate Common(c: string, s: string, t: string, d: nat) {
    Subseq(c, s) && Subseq(c, t) && |s| - |c| <= d && |t| - |c| <= d
  }

  lemma CutNext(s: string, i: nat, p: nat)
    requires 0 < i <= |s|
    ensures Cut(s, i, p) == if i <= p then Cut(s, i - 1, p) + [s[i - 1]] else Cut(s, i - 1, p)
  {
  }

  /** Growing either word by a character that the common part does not use. */
  lemma CommonGrows(c: string, s: string, t: string, d: nat, x: seq<char>, y: seq<char>)
    requires Common(c, s, t, d) && |x| <= 1 && |y| <= 1
    ensures Common(c, s + x, t + y, d + 1)
  {
    if |x| == 1 {
      SubseqSnoc(c, s, x[0]);
    } else {
      assert s + x == s;
    }
    if |y| == 1 {
      SubseqSnoc(c, t, y[0]);
    } else {
      assert t + y == t;
    }
  }

  /** Growing a word that stays no longer than the other keeps its remainder within bounds. */
  lemma ShorterGrows(c: string, s: string, t: string, d: nat, x: char)
    requires Common(c, s, t, d) && |s| + 1 <= |t|
    ensures Common(c, s + [x], t, d) && Common(c, t, s + [x], d)
  {
    SubseqSnoc(c, s, x);
  }

  /** Cutting both words anywhere leaves a common subsequence that is short of neither by more than
      the distance of the whole words. */
  lemma {:induction false} CommonPart(a: string, b: string, i: nat, j: nat, p: nat) returns (c: string)
    requires i <= |a| && j <= |b|
    ensures Common(c, Cut(a, i, p), Cut(b, j, p), Osa(a, b, i, j))
    decreases i + j
  {
    hide Osa, Subseq, Cut;
    if i == 0 || j == 0 {
      c := "";
      NothingInCommon(a, b, i, j, p);
      return;
    }
    OsaStep(a, b, i, j);
    CutNext(a, i, p);
    CutNext(b, j, p);
    var cost := if a[i - 1] == b[j - 1] then 0 else 1;
    var d := Osa(a, b, i, j);
    if d == Osa(a, b, i - 1, j) + 1 {
      c := CommonPart(a, b, i - 1, j, p);
      CommonGrows(c, Cut(a, i - 1, p), Cut(b, j, p), d - 1, if i <= p then [a[i - 1]] else [], []);
      Unchanged(Cut(a, i - 1, p), Cut(b, j, p));
    } else if d == Osa(a, b, i, j - 1) + 1 {
      c := CommonPart(a, b, i, j - 1, p);
      CommonGrows(c, Cut(a, i, p), Cut(b, j - 1, p), d - 1, [], if j <= p then [b[j - 1]] else []);
      Unchanged(Cut(a, i, p), Cut(b, j - 1, p));
    } else if d == Osa(a, b, i - 1, j - 1) + cost {
      c := CommonPart(a, b, i - 1, j - 1, p);
      c := AfterPair(a, b, i, j, p, c, d - cost);
    } else {
      assert Swapped(a, b, i, j);
      c := CommonPart(a, b, i - 2, j - 2, p);
      c := AfterSwap(a, b, i, j, p, c, d - 1);
    }
  }

  lemma NothingInCommon(a: string, b: string, i: nat, j: nat, p: nat)
    requires i <= |a| && j <= |b| && (i == 0 || j == 0)
    ensures Common("", Cut(a, i, p), Cut(b, j, p), Osa(a, b, i, j))
  {
  }

  lemma Unchanged(s: string, t: string)
    ensures s + [] == s && t + [] == t
  {
  }

  /** A matched or substituted pair of characters. */
  lemma AfterPair(a: string, b: string, i: nat, j: nat, p: nat, c0: string, d: nat) returns (c: string)
    requires 0 < i <= |a| && 0 < j <= |b| && Common(c0, Cut(a, i - 1, p), Cut(b, j - 1, p), d)
    ensures Common(c, Cut(a, i, p), Cut(b, j, p), d + if a[i - 1] == b[j - 1] then 0 else 1)
  {
    hide Subseq;
    CutNext(a, i, p);
    CutNext(b, j, p);
    c := c0;
    var s, t := Cut(a, i - 1, p), Cut(b, j - 1, p);
    if a[i - 1] != b[j - 1] {
      Unchanged(s, t);
      CommonGrows(c, s, t, d, if i <= p then [a[i - 1]] else [], if j <= p then [b[j - 1]] else []);
    } else if i <= p && j <= p {
      c := c0 + [a[i - 1]];
      SubseqSnoc(c0, s, a[i - 1]);
      SubseqSnoc(c0, t, b[j - 1]);
    } else if i <= p {
      ShorterGrows(c, s, t, d, a[i - 1]);
    } else if j <= p {
      ShorterGrows(c, t, s, d, b[j - 1]);
    }
  }

  /** Two exchanged characters. */
  lemma AfterSwap(a: string, b: string, i: nat, j: nat, p: nat, c0: string, d: nat) returns (c: string)
    requires i <= |a| && j <= |b| && Swapped(a, b, i, j) && Common(c0, Cut(a, i - 2, p), Cut(b, j - 2, p), d)
    ensures Common(c, Cut(a, i, p), Cut(b, j, p), d + 1)
  {
    hide Subseq;
    CutNext(a, i, p);
    CutNext(a, i - 1, p);
    CutNext(b, j, p);
    CutNext(b, j - 1, p);
    c := c0;
    var s, t := Cut(a, i - 2, p), Cut(b, j - 2, p);
    var x, y := if i - 1 <= p then [a[i - 2]] else [], if j - 1 <= p then [b[j - 2]] else [];
    Unchanged(s, t);
    if i <= p && j <= p {
      c := c0 + [a[i - 2]];
      SubseqSnoc(c0, s, a[i - 2]);
      SubseqSnoc(c, s + x, a[i - 1]);
      SubseqSnoc(c0, t, b[j - 2]);
      SubseqSnoc(c0, t + y, b[j - 1]);
    } else {
      CommonGrows(c, s, t, d, x, y);
      if i <= p {
        ShorterGrows(c, s + x, t + y, d + 1, a[i - 1]);
      } else if j <= p {
        ShorterGrows(c, t + y, s + x, d + 1, b[j - 1]);
      }
    }
  }
}
