/** The random graph that VamanaIndex::build (engine/src/vector/vamana.cc) starts from. What the generator yields
    for a point is an arbitrary stream of numbers. */
module InitialGraph {

  /** An out-list of point `i`: other points, each once, no more than `most`. */
  ghost predicate RowOk(n: nat, i: nat, row: seq<nat>, most: nat) {
    && |row| <= most
    && (forall j :: 0 <= j < |row| ==> row[j] < n && row[j] != i)
    && (forall j, k :: 0 <= j < k < |row| ==> row[j] != row[k])
  }

  lemma RowAdd(n: nat, dst: nat, row: seq<nat>, x: nat)
    requires RowOk(n, dst, row, |row|) && x < n && x != dst && x !in row
    ensures RowOk(n, dst, row + [x], |row| + 1)
  {
  }

  /** The points below `j` other than `i`, in order. */
  function Others(j: nat, i: nat): seq<nat> {
    if j == 0 then [] else Others(j - 1, i) + if j - 1 == i then [] else [j - 1]
  }

  /** What the first `k` draws give: points other than `i`, each where it first comes up. */
  function Drawn(n: nat, i: nat, draw: nat -> nat, k: nat): seq<nat>
    requires n > 0
  {
    if k == 0 then []
    else
      var before := Drawn(n, i, draw, k - 1);
      var c := draw(k - 1) % n;
      if c == i || c in before then before else before + [c]
  }

  /** The stream comes up with `r` points other than `i` at some time. */
  ghost predicate Enough(n: nat, i: nat, draw: nat -> nat, r: nat)
    requires n > 0
  {
    exists k: nat :: |Drawn(n, i, draw, k)| >= r
  }

  /** The first list of point `i`. */
  ghost predicate InitRowIs(n: nat, r: nat, i: nat, draw: nat -> nat, row: seq<nat>)
    requires n > 0
  {
    if n - 1 <= r then row == Others(n, i)
    else |row| == r && exists k: nat :: row == Drawn(n, i, draw, k)
  }

  lemma {:induction false} OthersOk(n: nat, j: nat, i: nat)
    requires j <= n
    ensures RowOk(n, i, Others(j, i), |Others(j, i)|) && forall x: nat :: x in Others(j, i) <==> x < j && x != i
    ensures |Others(j, i)| == if i < j then j - 1 else j
  {
    hide RowOk, Others;
    OthersNext(j, i);
    if j == 0 {
      NoRow(n, i);
    } else {
      OthersOk(n, j - 1, i);
      if j - 1 != i {
        RowAdd(n, i, Others(j - 1, i), j - 1);
      }
    }
  }

  /** A list has all the points but its own in ascending order, or the draws in the order in which each first came up:
      what comes up by some draw and is not the point itself, and each before what first came up later. */
  lemma {:induction false} DrawnMeaning(n: nat, i: nat, draw: nat -> nat, k: nat)
    requires n > 0
    ensures forall x: nat :: x in Drawn(n, i, draw, k) <==> x != i && exists j: nat :: j < k && draw(j) % n == x
    ensures forall m: nat :: m <= k ==> Drawn(n, i, draw, m) <= Drawn(n, i, draw, k)
  {
    forall m: nat | m <= k ensures Drawn(n, i, draw, m) <= Drawn(n, i, draw, k) {
      DrawnGrows(n, i, draw, m, k);
    }
    if k > 0 {
      DrawnMeaning(n, i, draw, k - 1);
      forall x: nat
        ensures x in Drawn(n, i, draw, k) <==> x != i && exists j: nat :: j < k && draw(j) % n == x {
        DrawnNext(n, i, draw, k, x);
      }
    }
  }

  lemma DrawnNext(n: nat, i: nat, draw: nat -> nat, k: nat, x: nat)
    requires n > 0 && k > 0
    requires x in Drawn(n, i, draw, k - 1) <==> x != i && exists j: nat :: j < k - 1 && draw(j) % n == x
    ensures x in Drawn(n, i, draw, k) <==> x != i && exists j: nat :: j < k && draw(j) % n == x
  {
    var was, c := Drawn(n, i, draw, k - 1), draw(k - 1) % n;
    assert Drawn(n, i, draw, k) == was + if c == i || c in was then [] else [c];
    if x == c {
      assert draw(k - 1) % n == x;
    } else if j: nat :| j < k && draw(j) % n == x {
      assert j < k - 1;
    }
  }

  lemma OthersNext(j: nat, i: nat)
    ensures Others(0, i) == [] && (j > 0 && j - 1 == i ==> Others(j, i) == Others(j - 1, i))
    ensures j > 0 && j - 1 != i ==> Others(j, i) == Others(j - 1, i) + [j - 1]
  {
  }

  lemma {:induction false} DrawnOk(n: nat, i: nat, draw: nat -> nat, k: nat)
    requires n > 0
    ensures var row := Drawn(n, i, draw, k); RowOk(n, i, row, |row|)
  {
    hide RowOk;
    if k == 0 {
      NoRow(n, i);
    } else {
      DrawnOk(n, i, draw, k - 1);
      var before, c := Drawn(n, i, draw, k - 1), draw(k - 1) % n;
      if c != i && c !in before {
        RowAdd(n, i, before, c);
      }
    }
  }

  lemma NoRow(n: nat, i: nat)
    ensures RowOk(n, i, [], 0)
  {
  }

  /** Later draws only append. */
  lemma {:induction false} DrawnGrows(n: nat, i: nat, draw: nat -> nat, k: nat, m: nat)
    requires n > 0 && k <= m
    ensures Drawn(n, i, draw, k) <= Drawn(n, i, draw, m)
    decreases m
  {
    if k < m {
      DrawnGrows(n, i, draw, k, m - 1);
    }
  }

  /** The stream determines the list. */
  lemma InitRowUnique(n: nat, r: nat, i: nat, draw: nat -> nat, row: seq<nat>, row': seq<nat>)
    requires n > 0 && InitRowIs(n, r, i, draw, row) && InitRowIs(n, r, i, draw, row')
    ensures row == row'
  {
    hide Drawn;
    if n - 1 > r {
      var k: nat :| row == Drawn(n, i, draw, k);
      var m: nat :| row' == Drawn(n, i, draw, m);
      if k <= m {
        DrawnGrows(n, i, draw, k, m);
      } else {
        DrawnGrows(n, i, draw, m, k);
      }
    }
  }

  /** A first list is a list of other points, each once, as many as the bound and the number of points allow. */
  lemma InitRowOk(n: nat, r: nat, i: nat, draw: nat -> nat, row: seq<nat>)
    requires i < n && InitRowIs(n, r, i, draw, row)
    ensures RowOk(n, i, row, r) && |row| == if n - 1 <= r then n - 1 else r
  {
    if n - 1 <= r {
      OthersOk(n, n, i);
    } else {
      var k: nat :| row == Drawn(n, i, draw, k);
      DrawnOk(n, i, draw, k);
    }
  }

  method InitRow(n: nat, r: nat, i: nat, draw: nat -> nat) returns (row: seq<nat>)
    requires i < n && (n - 1 > r ==> Enough(n, i, draw, r))
    ensures InitRowIs(n, r, i, draw, row)
  {
    row := [];
    if n <= 1 {
      return;
    }
    if n - 1 <= r {
      for j := 0 to n
        invariant row == Others(j, i)
      {
        if j != i {
          row := row + [j];
        }
      }
      return;
    }
    ghost var enough: nat :| |Drawn(n, i, draw, enough)| >= r;
    var k: nat := 0;
    while |row| < r
      invariant row == Drawn(n, i, draw, k) && |row| <= r
      decreases enough - k
    {
      if enough <= k {
        DrawnGrows(n, i, draw, enough, k);
      }
      var c := draw(k) % n;
      k := k + 1;
      if c == i || c in row {
        continue;
      }
      row := row + [c];
    }
  }
}
