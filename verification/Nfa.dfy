/** Thompson's construction as engine/src/lexical/tokenizer.cc performs it. */
module Nfa {
  import opened Regex

  /** A state with an edge on a predicate, or one (`pred` -1) with empty edges only. */
  datatype State = State(pred: int, next: int, eps: seq<nat>)

  datatype Graph = Graph(st: seq<State>, preds: seq<Pred>)

  const BLANK: State := State(-1, -1, [])

  // ---------------------------------------------------------------------------------------------
  // Paths
  // ---------------------------------------------------------------------------------------------

  predicate Edge(g: Graph, p: nat, m: Mask, q: int) {
    p < |g.st| && 0 <= g.st[p].pred < |g.preds| && g.preds[g.st[p].pred].Holds(m) && g.st[p].next == q
  }

  /** A path of exactly `k` edges from `p` to `q` that reads `w`. */
  ghost predicate Reach(g: Graph, p: nat, w: seq<Mask>, q: nat, k: nat)
    decreases k
  {
    if k == 0 then p == q && w == []
    else
      p < |g.st|
      && ((exists i :: 0 <= i < |g.st[p].eps| && Reach(g, g.st[p].eps[i], w, q, k - 1))
          || (w != [] && g.st[p].next >= 0 && Edge(g, p, w[0], g.st[p].next)
              && Reach(g, g.st[p].next, w[1..], q, k - 1)))
  }

  ghost predicate Leads(g: Graph, p: nat, w: seq<Mask>, q: nat) {
    exists k :: Reach(g, p, w, q, k)
  }

  lemma {:induction false} ReachJoins(g: Graph, p: nat, w: seq<Mask>, q: nat, k: nat, v: seq<Mask>, r: nat, j: nat)
    requires Reach(g, p, w, q, k) && Reach(g, q, v, r, j)
    ensures Reach(g, p, w + v, r, k + j)
    decreases k
  {
    if k == 0 {
      assert w + v == v;
    } else {
      if i :| 0 <= i < |g.st[p].eps| && Reach(g, g.st[p].eps[i], w, q, k - 1) {
        ReachJoins(g, g.st[p].eps[i], w, q, k - 1, v, r, j);
      } else {
        ReachJoins(g, g.st[p].next, w[1..], q, k - 1, v, r, j);
        assert (w + v)[1..] == w[1..] + v;
      }
    }
  }

  lemma LeadsJoins(g: Graph, p: nat, w: seq<Mask>, q: nat, v: seq<Mask>, r: nat)
    requires Leads(g, p, w, q) && Leads(g, q, v, r)
    ensures Leads(g, p, w + v, r)
  {
    var k :| Reach(g, p, w, q, k);
    var j :| Reach(g, q, v, r, j);
    ReachJoins(g, p, w, q, k, v, r, j);
  }

  lemma LeadsEps(g: Graph, p: nat, i: nat)
    requires p < |g.st| && i < |g.st[p].eps|
    ensures Leads(g, p, [], g.st[p].eps[i])
  {
    assert Reach(g, g.st[p].eps[i], [], g.st[p].eps[i], 0);
    assert Reach(g, p, [], g.st[p].eps[i], 1);
  }

  // ---------------------------------------------------------------------------------------------
  // Fragments
  // ---------------------------------------------------------------------------------------------

  /** Number of states that a node compiles to. */
  function Size(n: Node): (s: nat)
    ensures s >= 2 || n.Cat?
  {
    match n
    case Sym(_) => 2
    case Cat(kids) => AllSize(kids)
    case Alt(kids) => 2 + AllSize(kids)
    case Star(k) => 2 + Size(k)
    case Plus(k) => 2 + Size(k)
    case Opt(k) => 2 + Size(k)
  }

  function AllSize(kids: Kids): nat {
    match kids
    case Nil => 0
    case Cons(head, tail) => Size(head) + AllSize(tail)
  }

  /** The states `compile` returns for a node whose states begin at `lo`. */
  function Start(n: Node, lo: nat): nat
    decreases n
  {
    if n.Cat? && n.kids.Cons? then Start(n.kids.head, lo) else lo
  }

  function End(n: Node, lo: nat): nat
    decreases n
  {
    if n.Cat? then AllEnd(n.kids, lo) else lo + 1
  }

  function AllEnd(kids: Kids, lo: nat): nat {
    match kids
    case Nil => lo
    case Cons(head, tail) => if tail.Nil? then End(head, lo) else AllEnd(tail, lo + Size(head))
  }

  function AllStarts(kids: Kids, lo: nat): seq<nat> {
    match kids
    case Nil => []
    case Cons(head, tail) => [Start(head, lo)] + AllStarts(tail, lo + Size(head))
  }

  lemma {:induction false} InRange(n: Node, lo: nat)
    requires WellFormed(n)
    ensures lo <= Start(n, lo) < lo + Size(n) && lo <= End(n, lo) < lo + Size(n) && Start(n, lo) != End(n, lo)
    decreases n
  {
    if n.Cat? {
      InRange(n.kids.head, lo);
      AllInRange(n.kids, lo);
    }
  }

  lemma {:induction false} AllInRange(kids: Kids, lo: nat)
    requires AllWellFormed(kids) && kids.Cons?
    ensures lo <= AllEnd(kids, lo) < lo + AllSize(kids) && Start(kids.head, lo) != AllEnd(kids, lo)
    decreases kids
  {
    InRange(kids.head, lo);
    if kids.tail.Cons? {
      AllInRange(kids.tail, lo + Size(kids.head));
    }
  }

  /** States `lo` and up hold the edges that node `n` compiles to; nothing is said of its end state. */
  ghost predicate Frag(g: Graph, n: Node, lo: nat)
    decreases n, 0
  {
    && lo + Size(n) <= |g.st|
    && match n
       case Sym(p) => IsEdge(g, lo, p, lo + 1)
       case Cat(kids) => CatFrag(g, kids, lo)
       case Alt(kids) => g.st[lo] == State(-1, -1, AllStarts(kids, lo + 2)) && AltFrag(g, kids, lo + 2, lo + 1)
       case Star(k) => LoopFrag(g, k, lo, [Start(k, lo + 2), lo + 1], [lo + 1, Start(k, lo + 2)])
       case Plus(k) => LoopFrag(g, k, lo, [Start(k, lo + 2)], [lo + 1, Start(k, lo + 2)])
       case Opt(k) => LoopFrag(g, k, lo, [Start(k, lo + 2), lo + 1], [lo + 1])
  }

  ghost predicate IsEdge(g: Graph, s: nat, p: Pred, e: nat) {
    s < |g.st| && 0 <= g.st[s].pred < |g.preds| && g.preds[g.st[s].pred] == p && g.st[s].next == e && g.st[s].eps == []
  }

  /** A node around kid `k`: the empty edges from its start and from the kid's end. */
  ghost predicate LoopFrag(g: Graph, k: Node, lo: nat, first: seq<nat>, last: seq<nat>)
    decreases k, 1
  {
    && lo + 2 + Size(k) <= |g.st| && lo + 2 <= End(k, lo + 2) < |g.st|
    && Frag(g, k, lo + 2) && g.st[lo] == State(-1, -1, first) && g.st[End(k, lo + 2)] == State(-1, -1, last)
  }

  ghost predicate HasEps(g: Graph, s: nat, eps: seq<nat>) {
    s < |g.st| && g.st[s] == State(-1, -1, eps)
  }

  ghost predicate CatFrag(g: Graph, kids: Kids, lo: nat)
    decreases kids, 0
  {
    kids.Cons? ==>
      && lo + AllSize(kids) <= |g.st| && Frag(g, kids.head, lo) && CatFrag(g, kids.tail, lo + Size(kids.head))
      && (kids.tail.Nil? || HasEps(g, End(kids.head, lo), [Start(kids.tail.head, lo + Size(kids.head))]))
  }

  ghost predicate AltFrag(g: Graph, kids: Kids, lo: nat, e: nat)
    decreases kids, 0
  {
    kids.Cons? ==>
      && lo + AllSize(kids) <= |g.st| && Frag(g, kids.head, lo) && AltFrag(g, kids.tail, lo + Size(kids.head), e)
      && End(kids.head, lo) < |g.st| && g.st[End(kids.head, lo)] == State(-1, -1, [e])
  }

  // ---------------------------------------------------------------------------------------------
  // From expressions to paths
  // ---------------------------------------------------------------------------------------------

  /** A fragment reads every word of its expression. */
  lemma {:induction false} Enter(g: Graph, n: Node, lo: nat, w: seq<Mask>)
    requires WellFormed(n) && Frag(g, n, lo) && Matches(n, w)
    ensures Leads(g, Start(n, lo), w, End(n, lo))
    decreases n, 0, |w|
  {
    match n
    case Sym(p) =>
      assert Edge(g, lo, w[0], lo + 1);
      assert Reach(g, lo + 1, w[1..], lo + 1, 0);
      assert Reach(g, lo, w, lo + 1, 1);
    case Cat(kids) => EnterAll(g, kids, lo, w);
    case Alt(kids) => EnterOne(g, kids, lo + 2, lo + 1, w, lo, 0);
    case Star(k) =>
      if w == [] {
        LeadsEps(g, lo, 1);
      } else {
        EnterMany(g, k, lo, [Start(k, lo + 2), lo + 1], w);
      }
    case Plus(k) =>
      EnterPlus(g, k, lo, w);
    case Opt(k) =>
      if w == [] {
        LeadsEps(g, lo, 1);
      } else {
        Enter(g, k, lo + 2, w);
        LeadsEps(g, lo, 0);
        LeadsEps(g, End(k, lo + 2), 0);
        Around(g, lo, Start(k, lo + 2), w, End(k, lo + 2), lo + 1);
      }
  }

  lemma Around(g: Graph, p: nat, s: nat, w: seq<Mask>, e: nat, q: nat)
    requires Leads(g, p, [], s) && Leads(g, s, w, e) && Leads(g, e, [], q)
    ensures Leads(g, p, w, q)
  {
    LeadsJoins(g, p, [], s, w, e);
    assert [] + w == w;
    LeadsJoins(g, p, w, e, [], q);
    assert w + [] == w;
  }

  lemma {:induction false} EnterAll(g: Graph, kids: Kids, lo: nat, w: seq<Mask>)
    requires kids.Cons? && AllWellFormed(kids) && CatFrag(g, kids, lo) && MatchesAll(kids, w)
    ensures Leads(g, Start(kids.head, lo), w, AllEnd(kids, lo))
    decreases kids, 0, |w|
  {
    hide Matches, Frag, Leads, Start, End, Size;
    var i :| 0 <= i <= |w| && Matches(kids.head, w[..i]) && MatchesAll(kids.tail, w[i..]);
    Enter(g, kids.head, lo, w[..i]);
    assert w == w[..i] + w[i..];
    if kids.tail.Cons? {
      EnterAll(g, kids.tail, lo + Size(kids.head), w[i..]);
      LeadsEps(g, End(kids.head, lo), 0);
      LeadsJoins(g, End(kids.head, lo), [], Start(kids.tail.head, lo + Size(kids.head)), w[i..], AllEnd(kids, lo));
      assert [] + w[i..] == w[i..];
      LeadsJoins(g, Start(kids.head, lo), w[..i], End(kids.head, lo), w[i..], AllEnd(kids, lo));
    } else {
      assert w[..i] == w;
    }
  }

  lemma {:induction false} EnterOne(g: Graph, kids: Kids, lo: nat, e: nat, w: seq<Mask>, s: nat, at: nat)
    requires AllWellFormed(kids) && AltFrag(g, kids, lo, e) && MatchesOne(kids, w)
    requires s < |g.st| && at <= |g.st[s].eps| && g.st[s].eps[at..] == AllStarts(kids, lo)
    ensures Leads(g, s, w, e)
    decreases kids, 0, |w|
  {
    assert g.st[s].eps[at] == g.st[s].eps[at..][0];
    if Matches(kids.head, w) {
      Enter(g, kids.head, lo, w);
      LeadsEps(g, s, at);
      LeadsEps(g, End(kids.head, lo), 0);
      Around(g, s, Start(kids.head, lo), w, End(kids.head, lo), e);
    } else {
      assert g.st[s].eps[at + 1..] == g.st[s].eps[at..][1..];
      EnterOne(g, kids.tail, lo + Size(kids.head), e, w, s, at + 1);
    }
  }

  /** One or more repetitions read around a loop. */
  lemma {:induction false} EnterMany(g: Graph, k: Node, lo: nat, first: seq<nat>, w: seq<Mask>)
    requires WellFormed(k) && LoopFrag(g, k, lo, first, [lo + 1, Start(k, lo + 2)]) && MatchesMany(k, w) && w != []
    requires |first| > 0 && first[0] == Start(k, lo + 2)
    ensures Leads(g, lo, w, lo + 1) && Leads(g, Start(k, lo + 2), w, lo + 1)
    decreases k, 1, |w|
  {
    var i :| 0 < i <= |w| && Matches(k, w[..i]) && MatchesMany(k, w[i..]);
    var s, e := Start(k, lo + 2), End(k, lo + 2);
    Enter(g, k, lo + 2, w[..i]);
    assert w == w[..i] + w[i..];
    if i == |w| {
      assert w[..i] == w;
      LeadsEps(g, e, 0);
      LeadsJoins(g, s, w, e, [], lo + 1);
      assert w + [] == w;
    } else {
      EnterMany(g, k, lo, first, w[i..]);
      LeadsEps(g, e, 1);
      LeadsJoins(g, e, [], s, w[i..], lo + 1);
      assert [] + w[i..] == w[i..];
      LeadsJoins(g, s, w[..i], e, w[i..], lo + 1);
    }
    LeadsEps(g, lo, 0);
    LeadsJoins(g, lo, [], s, w, lo + 1);
    assert [] + w == w;
  }

  lemma {:induction false} EnterPlus(g: Graph, k: Node, lo: nat, w: seq<Mask>)
    requires WellFormed(k) && LoopFrag(g, k, lo, [Start(k, lo + 2)], [lo + 1, Start(k, lo + 2)]) && Matches(Plus(k), w)
    ensures Leads(g, lo, w, lo + 1)
    decreases k, 2, |w|
  {
    var i :| 0 <= i <= |w| && Matches(k, w[..i]) && MatchesMany(k, w[i..]);
    var s, e := Start(k, lo + 2), End(k, lo + 2);
    Enter(g, k, lo + 2, w[..i]);
    assert w == w[..i] + w[i..];
    if i == |w| {
      assert w[..i] == w;
      LeadsEps(g, e, 0);
      LeadsEps(g, lo, 0);
      Around(g, lo, s, w, e, lo + 1);
    } else {
      EnterMany(g, k, lo, [Start(k, lo + 2)], w[i..]);
      LeadsEps(g, e, 1);
      LeadsJoins(g, e, [], s, w[i..], lo + 1);
      assert [] + w[i..] == w[i..];
      LeadsJoins(g, s, w[..i], e, w[i..], lo + 1);
      LeadsEps(g, lo, 0);
      LeadsJoins(g, lo, [], s, w, lo + 1);
      assert [] + w == w;
    }
  }

  // ---------------------------------------------------------------------------------------------
  // From paths to expressions
  // ---------------------------------------------------------------------------------------------

  /** What a path from a fragment's start to a state outside it, or to its end, has read: a word of the
      expression up to the end state, and the rest, in fewer steps, from there. */
  ghost predicate Left(g: Graph, n: Node, lo: nat, w: seq<Mask>, q: nat, k: nat, i: nat, j: nat) {
    i <= |w| && j < k && Matches(n, w[..i]) && Reach(g, End(n, lo), w[i..], q, j)
  }

  ghost predicate Outside(n: Node, lo: nat, q: nat) {
    q < lo || q >= lo + Size(n) || q == End(n, lo)
  }

  /** The step out of a state with empty edges only. */
  lemma EpsStep(g: Graph, p: nat, w: seq<Mask>, q: nat, k: nat) returns (i: nat)
    requires Reach(g, p, w, q, k) && p != q && p < |g.st| && g.st[p].pred == -1
    ensures k > 0 && i < |g.st[p].eps| && Reach(g, g.st[p].eps[i], w, q, k - 1)
  {
    i :| 0 <= i < |g.st[p].eps| && Reach(g, g.st[p].eps[i], w, q, k - 1);
  }

  lemma {:induction false} Leave(g: Graph, n: Node, lo: nat, w: seq<Mask>, q: nat, k: nat) returns (i: nat, j: nat)
    requires WellFormed(n) && Frag(g, n, lo) && Reach(g, Start(n, lo), w, q, k) && Outside(n, lo, q)
    ensures Left(g, n, lo, w, q, k, i, j)
    decreases n, 0, k
  {
    hide Reach, Size, Start, End, CatFrag, AltFrag, LoopFrag, MatchesAll, MatchesOne, MatchesMany;
    InRange(n, lo);
    Parts(n, lo);
    match n
    case Sym(p) =>
      i, j := LeaveEdge(g, p, lo, w, q, k);
    case Cat(kids) =>
      i, j := LeaveAll(g, kids, lo, w, q, k);
    case Alt(kids) =>
      var a := EpsStep(g, lo, w, q, k);
      assert g.st[lo].eps[0..] == g.st[lo].eps;
      i, j := LeaveOne(g, kids, lo + 2, lo + 1, w, q, k - 1, a);
    case Star(kid) =>
      i, j := LeaveStar(g, kid, lo, w, q, k);
    case Plus(kid) =>
      i, j := LeavePlus(g, kid, lo, w, q, k);
    case Opt(kid) =>
      i, j := LeaveOpt(g, kid, lo, w, q, k);
  }

  lemma Parts(n: Node, lo: nat)
    ensures n.Cat? && n.kids.Cons? ==> Start(n, lo) == Start(n.kids.head, lo)
    ensures n.Cat? ==> End(n, lo) == AllEnd(n.kids, lo) && Size(n) == AllSize(n.kids)
    ensures !n.Cat? ==> Start(n, lo) == lo && End(n, lo) == lo + 1
    ensures n.Alt? ==> Size(n) == 2 + AllSize(n.kids)
    ensures n.Star? || n.Plus? || n.Opt? ==> Size(n) == 2 + Size(n.kid)
  {
  }

  lemma LeaveEdge(g: Graph, p: Pred, s: nat, w: seq<Mask>, q: nat, k: nat) returns (i: nat, j: nat)
    requires IsEdge(g, s, p, s + 1) && Reach(g, s, w, q, k) && q != s
    ensures i <= |w| && j < k && Matches(Sym(p), w[..i]) && Reach(g, s + 1, w[i..], q, j)
  {
    i, j := 1, k - 1;
    assert w[..1] == [w[0]];
  }

  lemma {:induction false} LeaveOpt(g: Graph, kid: Node, lo: nat, w: seq<Mask>, q: nat, k: nat) returns (i: nat, j: nat)
    requires WellFormed(kid) && LoopFrag(g, kid, lo, [Start(kid, lo + 2), lo + 1], [lo + 1])
    requires Reach(g, lo, w, q, k) && (q < lo || q >= lo + 2 + Size(kid) || q == lo + 1)
    ensures Left(g, Opt(kid), lo, w, q, k, i, j)
    decreases kid, 3, k
  {
    hide Reach, Size, Start, End, Frag;
    InRange(kid, lo + 2);
    Parts(Opt(kid), lo);
    var a := EpsStep(g, lo, w, q, k);
    if a == 0 {
      i, j := Leave(g, kid, lo + 2, w, q, k - 1);
      var b := EpsStep(g, End(kid, lo + 2), w[i..], q, j);
      j := j - 1;
    } else {
      i, j := 0, k - 1;
      assert w[0..] == w && w[..0] == [];
    }
  }

  lemma {:induction false} LeaveStar(g: Graph, kid: Node, lo: nat, w: seq<Mask>, q: nat, k: nat) returns (i: nat,
                                     j: nat)
    requires WellFormed(kid) && LoopFrag(g, kid, lo, [Start(kid, lo + 2), lo + 1], [lo + 1, Start(kid, lo + 2)])
    requires Reach(g, lo, w, q, k) && (q < lo || q >= lo + 2 + Size(kid) || q == lo + 1)
    ensures Left(g, Star(kid), lo, w, q, k, i, j)
    decreases kid, 3, k
  {
    hide Reach, Size, Start, End, Frag, Matches, MatchesMany;
    Parts(Star(kid), lo);
    var a := EpsStep(g, lo, w, q, k);
    if a == 0 {
      i, j := LeaveLoop(g, kid, lo, [Start(kid, lo + 2), lo + 1], w, q, k - 1);
      ManyAndOne(kid, w[..i]);
    } else {
      i, j := 0, k - 1;
      assert w[0..] == w && w[..0] == [];
    }
    StarMany(kid, w[..i]);
  }

  lemma {:induction false} LeavePlus(g: Graph, kid: Node, lo: nat, w: seq<Mask>, q: nat, k: nat) returns (i: nat,
                                     j: nat)
    requires WellFormed(kid) && LoopFrag(g, kid, lo, [Start(kid, lo + 2)], [lo + 1, Start(kid, lo + 2)])
    requires Reach(g, lo, w, q, k) && (q < lo || q >= lo + 2 + Size(kid) || q == lo + 1)
    ensures Left(g, Plus(kid), lo, w, q, k, i, j)
    decreases kid, 3, k
  {
    hide Reach, Size, Start, End, Frag, Matches;
    Parts(Plus(kid), lo);
    var a := EpsStep(g, lo, w, q, k);
    i, j := LeaveLoop(g, kid, lo, [Start(kid, lo + 2)], w, q, k - 1);
  }

  lemma OneTurn(k: Node, w: seq<Mask>, i: nat)
    requires i <= |w| && Matches(k, w[..i])
    ensures Matches(Plus(k), w[..i])
  {
    assert w[..i][..i] == w[..i] && w[..i][i..] == [];
  }

  lemma Spliced(w: seq<Mask>, i: nat, j: nat)
    requires i + j <= |w|
    ensures w[..i + j][..i] == w[..i] && w[..i + j][i..] == w[i..][..j] && w[i..][j..] == w[i + j..]
  {
  }

  lemma StarMany(k: Node, w: seq<Mask>)
    ensures Matches(Star(k), w) <==> MatchesMany(k, w)
    ensures MatchesMany(k, [])
  {
  }

  lemma MoreTurns(k: Node, w: seq<Mask>, i: nat, j: nat)
    requires i + j <= |w| && Matches(k, w[..i]) && MatchesMany(k, w[i..][..j])
    ensures Matches(Plus(k), w[..i + j])
  {
    Spliced(w, i, j);
  }

  lemma ManyAndOne(k: Node, w: seq<Mask>)
    requires Matches(Plus(k), w)
    ensures MatchesMany(k, w)
  {
    var i :| 0 <= i <= |w| && Matches(k, w[..i]) && MatchesMany(k, w[i..]);
    if i == 0 {
      assert w[0..] == w;
    }
  }

  /** Any number of turns of a loop. */
  lemma {:induction false} LeaveLoop(g: Graph, kid: Node, lo: nat, first: seq<nat>, w: seq<Mask>, q: nat, k: nat)
    returns (i: nat, j: nat)
    requires WellFormed(kid) && LoopFrag(g, kid, lo, first, [lo + 1, Start(kid, lo + 2)])
    requires Reach(g, Start(kid, lo + 2), w, q, k) && (q < lo || q >= lo + 2 + Size(kid) || q == lo + 1)
    ensures i <= |w| && j < k && Matches(Plus(kid), w[..i]) && Reach(g, lo + 1, w[i..], q, j)
    decreases kid, 1, k
  {
    hide Reach, Size, Start, End, Frag, Matches, MatchesMany;
    InRange(kid, lo + 2);
    i, j := Leave(g, kid, lo + 2, w, q, k);
    var a := EpsStep(g, End(kid, lo + 2), w[i..], q, j);
    if a == 0 {
      j := j - 1;
      OneTurn(kid, w, i);
    } else {
      var t := w[i..];
      var i2, j2 := LeaveLoop(g, kid, lo, first, t, q, j - 1);
      ManyAndOne(kid, t[..i2]);
      MoreTurns(kid, w, i, i2);
      Spliced(w, i, i2);
      i, j := i + i2, j2;
    }
  }

  lemma {:induction false} LeaveAll(g: Graph, kids: Kids, lo: nat, w: seq<Mask>, q: nat, k: nat) returns (i: nat,
                                    j: nat)
    requires kids.Cons? && AllWellFormed(kids) && CatFrag(g, kids, lo) && Reach(g, Start(kids.head, lo), w, q, k)
    requires q < lo || q >= lo + AllSize(kids) || q == AllEnd(kids, lo)
    ensures i <= |w| && j < k && MatchesAll(kids, w[..i]) && Reach(g, AllEnd(kids, lo), w[i..], q, j)
    decreases kids, 0, k
  {
    hide Reach, Size, Start, End, Frag, Matches;
    InRange(kids.head, lo);
    if kids.tail.Nil? {
      i, j := Leave(g, kids.head, lo, w, q, k);
      assert w[..i][..i] == w[..i] && w[..i][i..] == [];
    } else {
      AllInRange(kids.tail, lo + Size(kids.head));
      i, j := Leave(g, kids.head, lo, w, q, k);
      var a := EpsStep(g, End(kids.head, lo), w[i..], q, j);
      var t := w[i..];
      var i2, j2 := LeaveAll(g, kids.tail, lo + Size(kids.head), t, q, j - 1);
      Spliced(w, i, i2);
      i, j := i + i2, j2;
    }
  }

  /** Out of the alternative whose start is the `a`-th. */
  lemma {:induction false} LeaveOne(g: Graph, kids: Kids, lo: nat, e: nat, w: seq<Mask>, q: nat, k: nat, a: nat)
    returns (i: nat, j: nat)
    requires AllWellFormed(kids) && AltFrag(g, kids, lo, e) && a < |AllStarts(kids, lo)|
    requires Reach(g, AllStarts(kids, lo)[a], w, q, k) && (q < lo || q >= lo + AllSize(kids))
    ensures i <= |w| && j < k && MatchesOne(kids, w[..i]) && Reach(g, e, w[i..], q, j)
    decreases kids, 0, k
  {
    hide Reach, Size, Start, End, Frag, Matches;
    if a == 0 {
      InRange(kids.head, lo);
      i, j := Leave(g, kids.head, lo, w, q, k);
      var b := EpsStep(g, End(kids.head, lo), w[i..], q, j);
      j := j - 1;
    } else {
      i, j := LeaveOne(g, kids.tail, lo + Size(kids.head), e, w, q, k, a - 1);
    }
  }

  /** A compiled fragment leads from its start to its end on exactly the words of its expression. */
  lemma FragmentMeaning(g: Graph, n: Node, lo: nat, w: seq<Mask>)
    requires WellFormed(n) && Frag(g, n, lo) && End(n, lo) < |g.st| && g.st[End(n, lo)] == BLANK
    ensures Leads(g, Start(n, lo), w, End(n, lo)) <==> Matches(n, w)
  {
    if Matches(n, w) {
      Enter(g, n, lo, w);
    }
    if Leads(g, Start(n, lo), w, End(n, lo)) {
      var k :| Reach(g, Start(n, lo), w, End(n, lo), k);
      var i, j := Leave(g, n, lo, w, End(n, lo), k);
      assert j == 0;
      assert w[..i] == w;
    }
  }
}
