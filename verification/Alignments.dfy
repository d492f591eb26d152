/** What the distance of EditDistance means: the least cost of an alignment of two words, a row of pieces that spells
    one word on its left and the other on its right.  No table is mentioned. */
module Alignments {
  import opened EditDistance

  /** A character kept, added, dropped or replaced, or two neighbours exchanged. */
  datatype Piece =
    | Keep(c: char)
    | Add(c: char)
    | Drop(c: char)
    | Replace(from: char, to: char)
    | Exchange(first: char, second: char)

  function LeftOf(p: Piece): string {
    match p
    case Keep(c) => [c]
    case Add(_) => []
    case Drop(c) => [c]
    case Replace(x, _) => [x]
    case Exchange(x, y) => [x, y]
  }

  function RightOf(p: Piece): string {
    match p
    case Keep(c) => [c]
    case Add(c) => [c]
    case Drop(_) => []
    case Replace(_, y) => [y]
    case Exchange(x, y) => [y, x]
  }

  function Left(ps: seq<Piece>): string {
    if ps == [] then [] else Left(ps[..|ps| - 1]) + LeftOf(ps[|ps| - 1])
  }

  function Right(ps: seq<Piece>): string {
    if ps == [] then [] else Right(ps[..|ps| - 1]) + RightOf(ps[|ps| - 1])
  }

  /** Every piece that does not keep a character costs one. */
  function Cost(ps: seq<Piece>): nat {
    if ps == [] then 0 else Cost(ps[..|ps| - 1]) + if ps[|ps| - 1].Keep? then 0 else 1
  }

  ghost predicate Aligns(ps: seq<Piece>, a: string, b: string) {
    Left(ps) == a && Right(ps) == b
  }

  lemma Append(ps: seq<Piece>, p: Piece)
    ensures Left(ps + [p]) == Left(ps) + LeftOf(p) && Right(ps + [p]) == Right(ps) + RightOf(p)
    ensures Cost(ps + [p]) == Cost(ps) + if p.Keep? then 0 else 1
  {
    assert (ps + [p])[..|ps|] == ps;
  }

  lemma Nothing()
    ensures Aligns([], "", "") && Cost([]) == 0 && forall a: string :: a[..0] == ""
  {
  }

  /** The piece ends the first `i` characters of `a` and the first `j` of `b`. */
  ghost predicate EndsWith(a: string, b: string, i: nat, j: nat, p: Piece)
    requires i <= |a| && j <= |b|
  {
    match p
    case Keep(c) => i > 0 && j > 0 && a[i - 1] == c == b[j - 1]
    case Add(c) => j > 0 && b[j - 1] == c
    case Drop(c) => i > 0 && a[i - 1] == c
    case Replace(x, y) => i > 0 && j > 0 && a[i - 1] == x && b[j - 1] == y
    case Exchange(x, y) => i > 1 && j > 1 && a[i - 2] == x == b[j - 1] && a[i - 1] == y == b[j - 2]
  }

  lemma Ends(a: string, b: string, i: nat, j: nat, p: Piece)
    requires i <= |a| && j <= |b|
    ensures EndsWith(a, b, i, j, p) <==>
              && |LeftOf(p)| <= i && |RightOf(p)| <= j
              && LeftOf(p) == a[i - |LeftOf(p)|..i] && RightOf(p) == b[j - |RightOf(p)|..j]
  {
    var l, r := LeftOf(p), RightOf(p);
    if |l| <= i && |r| <= j {
      var x, y := a[i - |l|..i], b[j - |r|..j];
      assert forall k :: 0 <= k < |l| ==> x[k] == a[i - |l| + k];
      assert forall k :: 0 <= k < |r| ==> y[k] == b[j - |r| + k];
      match p
      case Keep(c) => assert l[0] == c && r[0] == c;
      case Add(c) => assert r[0] == c;
      case Drop(c) => assert l[0] == c;
      case Replace(c, d) => assert l[0] == c && r[0] == d;
      case Exchange(c, d) => assert l[0] == c && l[1] == d && r[0] == d && r[1] == c;
    }
  }

  lemma Shorter(w: string, v: string, tail: string, i: nat)
    requires i <= |w| && v + tail == w[..i]
    ensures |tail| <= i && v == w[..i - |tail|] && tail == w[i - |tail|..i]
  {
    assert |v| == i - |tail|;
    assert v == (v + tail)[..|v|] && tail == (v + tail)[|v|..];
  }

  /** No alignment costs less than the table says. */
  lemma {:induction false} NoneCheaper(a: string, b: string, i: nat, j: nat, ps: seq<Piece>)
    requires i <= |a| && j <= |b| && Aligns(ps, a[..i], b[..j])
    ensures Osa(a, b, i, j) <= Cost(ps)
    decreases |ps|
  {
    hide Osa, EndsWith;
    if ps == [] {
      OsaEdges(a, b, i, j);
    } else {
      var n := |ps| - 1;
      var p, rest := ps[n], ps[..n];
      Shorter(a, Left(rest), LeftOf(p), i);
      Shorter(b, Right(rest), RightOf(p), j);
      Ends(a, b, i, j, p);
      NoneCheaper(a, b, i - |LeftOf(p)|, j - |RightOf(p)|, rest);
      LastPiece(a, b, i, j, p);
    }
  }

  /** One piece leads from one entry of the table to another. */
  lemma LastPiece(a: string, b: string, i: nat, j: nat, p: Piece)
    requires i <= |a| && j <= |b| && EndsWith(a, b, i, j, p)
    ensures |LeftOf(p)| <= i && |RightOf(p)| <= j
    ensures Osa(a, b, i, j) <= Osa(a, b, i - |LeftOf(p)|, j - |RightOf(p)|) + if p.Keep? then 0 else 1
  {
    hide Osa;
    OsaEdges(a, b, i, j);
    if i == 0 {
      OsaEdges(a, b, i, j - 1);
    } else if j == 0 {
      OsaEdges(a, b, i - 1, j);
    } else {
      OsaStep(a, b, i, j);
    }
  }

  /** Every entry of the table is reached by some piece. */
  lemma BestPiece(a: string, b: string, i: nat, j: nat) returns (p: Piece)
    requires i <= |a| && j <= |b| && i + j > 0
    ensures EndsWith(a, b, i, j, p) && |LeftOf(p)| <= i && |RightOf(p)| <= j
    ensures Osa(a, b, i, j) == Osa(a, b, i - |LeftOf(p)|, j - |RightOf(p)|) + if p.Keep? then 0 else 1
  {
    hide Osa;
    OsaEdges(a, b, i, j);
    if i == 0 {
      OsaEdges(a, b, 0, j - 1);
      p := Add(b[j - 1]);
    } else if j == 0 {
      OsaEdges(a, b, i - 1, 0);
      p := Drop(a[i - 1]);
    } else {
      OsaStep(a, b, i, j);
      if Swapped(a, b, i, j) && Osa(a, b, i, j) == Osa(a, b, i - 2, j - 2) + 1 {
        p := Exchange(a[i - 2], a[i - 1]);
      } else if Osa(a, b, i, j) == Osa(a, b, i - 1, j) + 1 {
        p := Drop(a[i - 1]);
      } else if Osa(a, b, i, j) == Osa(a, b, i, j - 1) + 1 {
        p := Add(b[j - 1]);
      } else {
        p := if a[i - 1] == b[j - 1] then Keep(a[i - 1]) else Replace(a[i - 1], b[j - 1]);
      }
    }
  }

  /** Some alignment costs what the table says. */
  lemma {:induction false} SomeAlignment(a: string, b: string, i: nat, j: nat) returns (ps: seq<Piece>)
    requires i <= |a| && j <= |b|
    ensures Aligns(ps, a[..i], b[..j]) && Cost(ps) == Osa(a, b, i, j)
    decreases i + j
  {
    hide Osa, EndsWith, Aligns, LeftOf, RightOf, Cost;
    if i + j == 0 {
      OsaEdges(a, b, i, j);
      Nothing();
      ps := [];
    } else {
      var p := BestPiece(a, b, i, j);
      Ends(a, b, i, j, p);
      PieceIsLong(p);
      ps := SomeAlignment(a, b, i - |LeftOf(p)|, j - |RightOf(p)|);
      ps := Extend(ps, p, a, b, i - |LeftOf(p)|, j - |RightOf(p)|);
    }
  }

  lemma PieceIsLong(p: Piece)
    ensures |LeftOf(p)| + |RightOf(p)| > 0
  {
  }

  lemma Extend(ps: seq<Piece>, p: Piece, a: string, b: string, i: nat, j: nat) returns (more: seq<Piece>)
    requires i + |LeftOf(p)| <= |a| && j + |RightOf(p)| <= |b| && Aligns(ps, a[..i], b[..j])
    requires LeftOf(p) == a[i..i + |LeftOf(p)|] && RightOf(p) == b[j..j + |RightOf(p)|]
    ensures Aligns(more, a[..i + |LeftOf(p)|], b[..j + |RightOf(p)|])
    ensures Cost(more) == Cost(ps) + if p.Keep? then 0 else 1
  {
    more := ps + [p];
    Append(ps, p);
  }

  /** The distance is the least cost of an alignment. */
  lemma DistanceIsLeast(a: string, b: string) returns (best: seq<Piece>)
    ensures Aligns(best, a, b) && Cost(best) == Distance(a, b)
    ensures forall ps :: Aligns(ps, a, b) ==> Distance(a, b) <= Cost(ps)
  {
    hide Osa, Aligns;
    assert a[..|a|] == a && b[..|b|] == b;
    best := SomeAlignment(a, b, |a|, |b|);
    forall ps | Aligns(ps, a, b) ensures Distance(a, b) <= Cost(ps) {
      NoneCheaper(a, b, |a|, |b|, ps);
    }
  }

  lemma {:induction false} FreeIsEqual(ps: seq<Piece>)
    requires Cost(ps) == 0
    ensures Left(ps) == Right(ps)
  {
    if ps != [] {
      FreeIsEqual(ps[..|ps| - 1]);
    }
  }

  lemma {:induction false} Kept(s: string) returns (ps: seq<Piece>)
    ensures Aligns(ps, s, s) && Cost(ps) == 0
  {
    ps := [];
    if s != "" {
      var n := |s| - 1;
      ps := Kept(s[..n]);
      Append(ps, Keep(s[n]));
      ps := ps + [Keep(s[n])];
      assert s == s[..n] + [s[n]];
    }
  }

  /** Only equal words are at distance zero. */
  lemma DistanceZero(a: string, b: string)
    ensures Distance(a, b) == 0 <==> a == b
  {
    hide Osa;
    var best := DistanceIsLeast(a, b);
    if Distance(a, b) == 0 {
      FreeIsEqual(best);
    }
    if a == b {
      var ps := Kept(a);
      assert Aligns(ps, a, b);
    }
  }

  lemma {:induction false} Join(ps: seq<Piece>, qs: seq<Piece>)
    ensures Left(ps + qs) == Left(ps) + Left(qs) && Right(ps + qs) == Right(ps) + Right(qs)
    ensures Cost(ps + qs) == Cost(ps) + Cost(qs)
    decreases |qs|
  {
    hide Left, Right, Cost, LeftOf, RightOf;
    if qs == [] {
      assert ps + qs == ps;
      Empty();
    } else {
      var n := |qs| - 1;
      Join(ps, qs[..n]);
      assert ps + qs == (ps + qs[..n]) + [qs[n]] && qs == qs[..n] + [qs[n]];
      Append(ps + qs[..n], qs[n]);
      Append(qs[..n], qs[n]);
    }
  }

  lemma Empty()
    ensures Left([]) == "" && Right([]) == "" && Cost([]) == 0
  {
  }

  /** One piece between two words that are kept. */
  lemma OnePiece(s: string, p: Piece, t: string) returns (ps: seq<Piece>)
    ensures Aligns(ps, s + LeftOf(p) + t, s + RightOf(p) + t) && Cost(ps) == if p.Keep? then 0 else 1
  {
    var before := Kept(s);
    var after := Kept(t);
    Append(before, p);
    Join(before + [p], after);
    ps := before + [p] + after;
  }

  /** One edit anywhere in a word is at most one away, and exactly one if it changes the word. */
  lemma OneEdit(s: string, p: Piece, t: string)
    ensures Distance(s + LeftOf(p) + t, s + RightOf(p) + t) == if LeftOf(p) == RightOf(p) then 0 else 1
  {
    hide Osa;
    var a, b := s + LeftOf(p) + t, s + RightOf(p) + t;
    var ps := OnePiece(s, p, t);
    var best := DistanceIsLeast(a, b);
    DistanceZero(a, b);
    if a == b {
      assert a[|s|..|a| - |t|] == LeftOf(p) && b[|s|..|b| - |t|] == RightOf(p);
    }
  }

  /** Exchanging two different neighbours costs one. */
  lemma ExchangeIsOne(s: string, x: char, y: char, t: string)
    requires x != y
    ensures Distance(s + [x, y] + t, s + [y, x] + t) == 1
  {
    OneEdit(s, Exchange(x, y), t);
    assert [x, y][0] != [y, x][0];
  }
}
