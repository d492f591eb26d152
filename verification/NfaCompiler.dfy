/** Nfa::compile and Nfa::closure of engine/src/lexical/tokenizer.cc. */
module NfaCompiler {
  import opened Regex
  import opened Nfa
  import opened Sequences

  /** `h` has all of `g`'s predicates and, from `lo` to `hi`, its states, but for state `but`. */
  ghost predicate SameOn(g: Graph, h: Graph, lo: nat, hi: nat, but: nat) {
    && hi <= |g.st| <= |h.st| && g.preds <= h.preds
    && forall i :: lo <= i < hi && i != but ==> g.st[i] == h.st[i]
  }

  /** A fragment does not depend on its end state nor on anything outside it. */
  lemma {:induction false} FragStays(g: Graph, h: Graph, n: Node, lo: nat)
    requires WellFormed(n) && Frag(g, n, lo) && SameOn(g, h, lo, lo + Size(n), End(n, lo))
    ensures Frag(h, n, lo)
    decreases n, 0
  {
    hide Size, Start, End, CatFrag, AltFrag, LoopFrag;
    Parts(n, lo);
    match n
    case Sym(p) => EdgeStays(g, h, lo, p);
    case Cat(kids) => CatStays(g, h, kids, lo);
    case Alt(kids) => AltStays(g, h, kids, lo + 2, lo + 1);
    case Star(k) => LoopStays(g, h, k, lo, [Start(k, lo + 2), lo + 1], [lo + 1, Start(k, lo + 2)]);
    case Plus(k) => LoopStays(g, h, k, lo, [Start(k, lo + 2)], [lo + 1, Start(k, lo + 2)]);
    case Opt(k) => LoopStays(g, h, k, lo, [Start(k, lo + 2), lo + 1], [lo + 1]);
  }

  lemma EdgeStays(g: Graph, h: Graph, lo: nat, p: Pred)
    requires IsEdge(g, lo, p, lo + 1) && SameOn(g, h, lo, lo + Size(Sym(p)), lo + 1)
    ensures IsEdge(h, lo, p, lo + 1)
  {
  }

  lemma {:induction false} LoopStays(g: Graph, h: Graph, k: Node, lo: nat, first: seq<nat>, last: seq<nat>)
    requires WellFormed(k) && LoopFrag(g, k, lo, first, last) && SameOn(g, h, lo, lo + 2 + Size(k), lo + 1)
    ensures LoopFrag(h, k, lo, first, last)
    decreases k, 1
  {
    hide Frag, Size, Start, End;
    InRange(k, lo + 2);
    FragStays(g, h, k, lo + 2);
  }

  lemma {:induction false} CatStays(g: Graph, h: Graph, kids: Kids, lo: nat)
    requires AllWellFormed(kids) && CatFrag(g, kids, lo) && SameOn(g, h, lo, lo + AllSize(kids), AllEnd(kids, lo))
    ensures CatFrag(h, kids, lo)
    decreases kids, 0
  {
    hide Frag, Size, Start, End;
    if kids.Cons? {
      InRange(kids.head, lo);
      if kids.tail.Cons? {
        AllInRange(kids.tail, lo + Size(kids.head));
      }
      FragStays(g, h, kids.head, lo);
      CatStays(g, h, kids.tail, lo + Size(kids.head));
    }
  }

  lemma {:induction false} AltStays(g: Graph, h: Graph, kids: Kids, lo: nat, e: nat)
    requires AllWellFormed(kids) && AltFrag(g, kids, lo, e) && SameOn(g, h, lo, lo + AllSize(kids), e) && e < lo
    ensures AltFrag(h, kids, lo, e)
    decreases kids, 0
  {
    hide Frag, Size, Start, End;
    if kids.Cons? {
      InRange(kids.head, lo);
      FragStays(g, h, kids.head, lo);
      AltStays(g, h, kids.tail, lo + Size(kids.head), e);
    }
  }

  /** Every edge leads to a state. */
  ghost predicate Linked(g: Graph) {
    forall s :: 0 <= s < |g.st| ==> LinkedState(g.st[s], |g.st|, |g.preds|)
  }

  ghost predicate LinkedState(s: State, n: nat, p: nat) {
    -1 <= s.pred < p && -1 <= s.next < n && (forall i :: 0 <= i < |s.eps| ==> s.eps[i] < n)
    && (s.pred >= 0 ==> s.next >= 0)
  }

  class Compiler {
    var st: seq<State>
    var preds: seq<Pred>

    function View(): (g: Graph)
      reads this
      ensures g.st == st && g.preds == preds
    {
      Graph(st, preds)
    }

    constructor ()
      ensures View() == Graph([], []) && Linked(View())
    {
      st, preds := [], [];
    }

    method Add() returns (id: nat)
      requires Linked(View())
      modifies this
      ensures st == old(st) + [BLANK] && preds == old(preds) && id == |old(st)| && Linked(View())
    {
      st := st + [BLANK];
      id := |st| - 1;
    }

    method PushEps(s: nat, t: nat)
      requires s < |st| && t < |st| && Linked(View())
      modifies this
      ensures st == old(st)[s := old(st[s]).(eps := old(st[s].eps) + [t])] && preds == old(preds) && Linked(View())
    {
      st := st[s := st[s].(eps := st[s].eps + [t])];
      assert forall i :: 0 <= i < |st| && i != s ==> st[i] == old(st)[i];
    }

    /** Append the states of node `n`; its end state has no edges yet. */
    method Compile(n: Node) returns (s: nat, e: nat)
      requires WellFormed(n) && Linked(View())
      modifies this
      ensures s == Start(n, |old(st)|) && e == End(n, |old(st)|) && Added(old(View()), View(), n)
      decreases n, 2
    {
      hide *;
      ghost var g := View();
      Kinds(n, |g.st|);
      match n {
        case Sym(p) => s, e := CompileSym(p);
        case Cat(kids) =>
          s, e := Compile(kids.head);
          ghost var h := View();
          AddedParts(g, h, kids.head);
          e := CompileRest(kids.tail, e);
          CatAdded(g, h, View(), kids, e);
        case Alt(kids) =>
          s := Add();
          e := Add();
          ghost var h := View();
          BlankParts(h);
          CompileAlts(kids, s, e);
          AltAdded(g, h, View(), kids);
        case Star(k) => s, e := CompileLoop(n, k);
        case Plus(k) => s, e := CompileLoop(n, k);
        case Opt(k) => s, e := CompileLoop(n, k);
      }
    }

    method CompileSym(p: Pred) returns (s: nat, e: nat)
      requires Linked(View())
      modifies this
      ensures s == |old(st)| && e == s + 1 && Added(old(View()), View(), Sym(p))
    {
      s := Add();
      e := Add();
      preds := preds + [p];
      st := st[s := st[s].(pred := |preds| - 1, next := e)];
      EdgeAdded(old(View()), View(), p);
    }

    /** The remaining parts of a concatenation, the first linked from `e0`. */
    method CompileRest(kids: Kids, e0: nat) returns (e: nat)
      requires AllWellFormed(kids) && Linked(View()) && e0 < |st| && st[e0] == BLANK
      modifies this
      ensures RestAdded(old(View()), View(), kids, e0, e)
      decreases kids, 2
    {
      hide *;
      ghost var g := View();
      if kids.Nil? {
        NoRest(g, kids, e0);
        return e0;
      }
      KidsOk(kids);
      var s, e1 := Compile(kids.head);
      ghost var h := View();
      AddedParts(g, h, kids.head);
      PushEps(e0, s);
      ghost var i := View();
      RestBlank(g, h, i, kids, e0);
      e := CompileRest(kids.tail, e1);
      RestGrows(g, h, i, View(), kids, e0, e);
    }

    /** The alternatives, each entered from `s` and left to `e`. */
    method CompileAlts(kids: Kids, s: nat, e: nat)
      requires AllWellFormed(kids) && Linked(View()) && s < |st| && e < |st| && s != e && st[s].pred == -1
      requires st[s].next == -1
      modifies this
      ensures AltsAdded(old(View()), View(), kids, s, e)
      decreases kids, 2
    {
      hide *;
      ghost var g := View();
      if kids.Cons? {
        KidsOk(kids);
        var ks, ke := Compile(kids.head);
        ghost var h := View();
        AddedParts(g, h, kids.head);
        PushEps(s, ks);
        PushEps(ke, e);
        ghost var i := View();
        CompileAlts(kids.tail, s, e);
        AltsGrow(g, h, i, View(), kids, s, e);
      } else {
        NoAlts(g, kids, s, e);
      }
    }

    /** A repeated or optional part. */
    method CompileLoop(n: Node, k: Node) returns (s: nat, e: nat)
      requires (n == Star(k) || n == Plus(k) || n == Opt(k)) && WellFormed(k) && Linked(View())
      modifies this
      ensures s == |old(st)| && e == s + 1 && Added(old(View()), View(), n)
      decreases k, 3
    {
      hide *;
      ghost var g := View();
      s := Add();
      e := Add();
      ghost var h := View();
      BlankParts(h);
      var ks, ke := Compile(k);
      ghost var i := View();
      AddedParts(h, i, k);
      PushEps(s, ks);
      if !n.Plus? {
        PushEps(s, e);
      }
      PushEps(ke, e);
      if !n.Opt? {
        PushEps(ke, ks);
      }
      LoopAdded(g, h, i, View(), n, k);
    }
  }

  // ---------------------------------------------------------------------------------------------
  // What compiling adds
  // ---------------------------------------------------------------------------------------------

  /** `h` is `g` with the states of node `n` appended. */
  ghost predicate Added(g: Graph, h: Graph, n: Node) {
    && Linked(h) && g.st <= h.st && g.preds <= h.preds && |h.st| == |g.st| + Size(n)
    && End(n, |g.st|) < |h.st| && h.st[End(n, |g.st|)] == BLANK && Frag(h, n, |g.st|)
  }

  /** `h` is `g` with the parts of a concatenation appended and linked from `e0`. */
  ghost predicate RestAdded(g: Graph, h: Graph, kids: Kids, e0: nat, e: nat) {
    && Linked(h) && |h.st| == |g.st| + AllSize(kids) && g.preds <= h.preds
    && (forall i :: 0 <= i < |g.st| && i != e0 ==> g.st[i] == h.st[i])
    && e == (if kids.Nil? then e0 else AllEnd(kids, |g.st|)) && e < |h.st| && h.st[e] == BLANK
    && (kids.Cons? ==> HasEps(h, e0, [Start(kids.head, |g.st|)]))
    && CatFrag(h, kids, |g.st|)
  }

  /** `h` is `g` with alternatives appended between `s` and `e`. */
  ghost predicate AltsAdded(g: Graph, h: Graph, kids: Kids, s: nat, e: nat)
    requires s < |g.st|
  {
    && Linked(h) && |h.st| == |g.st| + AllSize(kids) && g.preds <= h.preds
    && (forall i :: 0 <= i < |g.st| && i != s ==> g.st[i] == h.st[i])
    && HasEps(h, s, g.st[s].eps + AllStarts(kids, |g.st|))
    && AltFrag(h, kids, |g.st|, e)
  }

  lemma Kinds(n: Node, lo: nat)
    requires WellFormed(n)
    ensures n.Sym? ==> Start(n, lo) == lo && End(n, lo) == lo + 1
    ensures n.Cat? ==> n.kids.Cons? && AllWellFormed(n.kids) && WellFormed(n.kids.head) && AllWellFormed(n.kids.tail)
                       && Start(n, lo) == Start(n.kids.head, lo) && End(n, lo) == AllEnd(n.kids, lo)
    ensures n.Cat? && n.kids.tail.Nil? ==> End(n, lo) == End(n.kids.head, lo)
    ensures n.Cat? && n.kids.tail.Cons? ==> End(n, lo) == AllEnd(n.kids.tail, lo + Size(n.kids.head))
    ensures n.Alt? ==> AllWellFormed(n.kids) && Start(n, lo) == lo && End(n, lo) == lo + 1
    ensures n.Star? || n.Plus? || n.Opt? ==> WellFormed(n.kid) && Start(n, lo) == lo && End(n, lo) == lo + 1
  {
  }

  lemma KidsOk(kids: Kids)
    requires AllWellFormed(kids) && kids.Cons?
    ensures WellFormed(kids.head) && AllWellFormed(kids.tail)
  {
  }

  lemma BlankParts(g: Graph)
    ensures BLANK.pred == -1 && BLANK.next == -1 && BLANK.eps == []
  {
  }

  lemma AddedParts(g: Graph, h: Graph, n: Node)
    requires WellFormed(n) && Added(g, h, n)
    ensures Linked(h) && g.st <= h.st && g.preds <= h.preds && |h.st| == |g.st| + Size(n)
    ensures |g.st| <= End(n, |g.st|) < |h.st| && h.st[End(n, |g.st|)] == BLANK
    ensures |g.st| <= Start(n, |g.st|) < |h.st| && Start(n, |g.st|) != End(n, |g.st|)
    ensures Frag(h, n, |g.st|)
    ensures forall i :: 0 <= i < |g.st| ==> h.st[i] == g.st[i]
  {
    InRange(n, |g.st|);
  }

  lemma EdgeAdded(g: Graph, h: Graph, p: Pred)
    requires Linked(g) && h == Graph(g.st + [State(|g.preds|, |g.st| + 1, []), BLANK], g.preds + [p])
    ensures Added(g, h, Sym(p))
  {
    forall s | 0 <= s < |h.st| ensures LinkedState(h.st[s], |h.st|, |h.preds|) {
      if s < |g.st| {
        assert LinkedState(g.st[s], |g.st|, |g.preds|);
      }
    }
  }

  lemma NoRest(g: Graph, kids: Kids, e0: nat)
    requires kids.Nil? && Linked(g) && e0 < |g.st| && g.st[e0] == BLANK
    ensures RestAdded(g, g, kids, e0, e0)
  {
  }

  lemma NoAlts(g: Graph, kids: Kids, s: nat, e: nat)
    requires kids.Nil? && Linked(g) && s < |g.st| && g.st[s].pred == -1 && g.st[s].next == -1
    ensures AltsAdded(g, g, kids, s, e)
  {
    assert g.st[s].eps + [] == g.st[s].eps;
  }

  lemma CatAdded(g: Graph, h: Graph, i: Graph, kids: Kids, e: nat)
    requires kids.Cons? && AllWellFormed(kids) && Added(g, h, kids.head)
    requires RestAdded(h, i, kids.tail, End(kids.head, |g.st|), e)
    ensures Added(g, i, Cat(kids)) && e == End(Cat(kids), |g.st|)
  {
    hide Frag, Linked, Start, CatFrag;
    var lo := |g.st|;
    InRange(kids.head, lo);
    FragStays(h, i, kids.head, lo);
    CatDone(i, kids, lo);
    Parts(Cat(kids), lo);
    if kids.tail.Cons? {
      AllInRange(kids.tail, lo + Size(kids.head));
    }
  }

  /** After linking `e0` to the first part the part's own end is still blank. */
  lemma RestBlank(g: Graph, h: Graph, i: Graph, kids: Kids, e0: nat)
    requires kids.Cons? && AllWellFormed(kids) && Added(g, h, kids.head) && e0 < |g.st| && g.st[e0] == BLANK
    requires i.preds == h.preds
    requires i.st == h.st[e0 := h.st[e0].(eps := h.st[e0].eps + [Start(kids.head, |g.st|)])]
    ensures End(kids.head, |g.st|) < |i.st| && i.st[End(kids.head, |g.st|)] == BLANK
    ensures HasEps(i, e0, [Start(kids.head, |g.st|)])
    ensures Frag(i, kids.head, |g.st|)
  {
    hide Frag, Linked, Start, CatFrag;
    InRange(kids.head, |g.st|);
    FragStays(h, i, kids.head, |g.st|);
    assert [] + [Start(kids.head, |g.st|)] == [Start(kids.head, |g.st|)];
  }

  lemma RestGrows(g: Graph, h: Graph, i: Graph, j: Graph, kids: Kids, e0: nat, e: nat)
    requires kids.Cons? && AllWellFormed(kids) && Added(g, h, kids.head) && e0 < |g.st| && g.st[e0] == BLANK
    requires i.preds == h.preds && i.st == h.st[e0 := h.st[e0].(eps := h.st[e0].eps + [Start(kids.head, |g.st|)])]
    requires RestAdded(i, j, kids.tail, End(kids.head, |g.st|), e)
    ensures RestAdded(g, j, kids, e0, e)
  {
    hide Frag, Linked, Start, CatFrag;
    var lo := |g.st|;
    RestBlank(g, h, i, kids, e0);
    InRange(kids.head, lo);
    if kids.tail.Cons? {
      AllInRange(kids.tail, lo + Size(kids.head));
    }
    FragStays(i, j, kids.head, lo);
    CatGrows(j, kids, lo);
  }

  lemma AltsGrow(g: Graph, h: Graph, i: Graph, j: Graph, kids: Kids, s: nat, e: nat)
    requires kids.Cons? && AllWellFormed(kids) && Added(g, h, kids.head)
    requires s < |g.st| && e < |g.st| && s != e && g.st[s].pred == -1 && g.st[s].next == -1
    requires i.preds == h.preds && End(kids.head, |g.st|) < |h.st|
    requires var ke, linked := End(kids.head, |g.st|),
                              h.st[s := h.st[s].(eps := h.st[s].eps + [Start(kids.head, |g.st|)])];
             i.st == linked[ke := linked[ke].(eps := linked[ke].eps + [e])]
    requires AltsAdded(i, j, kids.tail, s, e)
    ensures AltsAdded(g, j, kids, s, e)
  {
    hide Frag, Linked, Start, AltFrag;
    var lo, ke := |g.st|, End(kids.head, |g.st|);
    InRange(kids.head, lo);
    assert [] + [e] == [e];
    assert HasEps(i, ke, [e]);
    FragStays(h, i, kids.head, lo);
    FragStays(i, j, kids.head, lo);
    AltGrows(j, kids, lo, e);
    Joined(g.st[s].eps, Start(kids.head, lo), AllStarts(kids.tail, lo + Size(kids.head)));
  }

  lemma Joined(a: seq<nat>, x: nat, b: seq<nat>)
    ensures (a + [x]) + b == a + ([x] + b)
  {
  }

  lemma AltAdded(g: Graph, h: Graph, i: Graph, kids: Kids)
    requires AllWellFormed(kids) && h == Graph(g.st + [BLANK] + [BLANK], g.preds)
    requires AltsAdded(h, i, kids, |g.st|, |g.st| + 1)
    ensures Added(g, i, Alt(kids))
  {
    hide Frag, Linked, AltFrag;
    AltDone(i, kids, |g.st|);
  }

  lemma LoopAdded(g: Graph, h: Graph, i: Graph, j: Graph, n: Node, k: Node)
    requires (n == Star(k) || n == Plus(k) || n == Opt(k)) && WellFormed(k) && Linked(j)
    requires h == Graph(g.st + [BLANK] + [BLANK], g.preds) && Added(h, i, k) && j.preds == i.preds
    requires var s, e, ks, ke := |g.st|, |g.st| + 1, Start(k, |h.st|), End(k, |h.st|);
             |j.st| == |i.st| && ke < |i.st|
             && (forall x :: 0 <= x < |i.st| && x != s && x != ke ==> j.st[x] == i.st[x])
             && j.st[s] == i.st[s].(eps := i.st[s].eps + if n.Plus? then [ks] else [ks, e])
             && j.st[ke] == i.st[ke].(eps := i.st[ke].eps + if n.Opt? then [e] else [e, ks])
    ensures Added(g, j, n)
  {
    hide Frag, Linked, Start, End, Size;
    InRange(k, |h.st|);
    Parts(n, |g.st|);
    FragStays(i, j, k, |h.st|);
    Prefixed(if n.Plus? then [Start(k, |h.st|)] else [Start(k, |h.st|), |g.st| + 1]);
    Prefixed(if n.Opt? then [|g.st| + 1] else [|g.st| + 1, Start(k, |h.st|)]);
    Parts(n, |g.st|);
    LoopDone(j, n, k, |g.st|);
  }

  lemma Prefixed(l: seq<nat>)
    ensures BLANK.eps + l == l
  {
  }

  lemma CatDone(g: Graph, kids: Kids, lo: nat)
    requires kids.Cons? && lo + AllSize(kids) <= |g.st| && Frag(g, kids.head, lo)
    requires CatFrag(g, kids.tail, lo + Size(kids.head))
    requires kids.tail.Cons? ==> HasEps(g, End(kids.head, lo), [Start(kids.tail.head, lo + Size(kids.head))])
    ensures Frag(g, Cat(kids), lo)
  {
  }

  lemma CatGrows(g: Graph, kids: Kids, lo: nat)
    requires kids.Cons? && lo + AllSize(kids) <= |g.st| && Frag(g, kids.head, lo)
    requires CatFrag(g, kids.tail, lo + Size(kids.head))
    requires kids.tail.Cons? ==> HasEps(g, End(kids.head, lo), [Start(kids.tail.head, lo + Size(kids.head))])
    ensures CatFrag(g, kids, lo)
  {
    hide Frag, Start, End, Size;
  }

  lemma AltDone(g: Graph, kids: Kids, lo: nat)
    requires lo + 2 + AllSize(kids) <= |g.st| && AltFrag(g, kids, lo + 2, lo + 1)
    requires HasEps(g, lo, [] + AllStarts(kids, lo + 2))
    ensures Frag(g, Alt(kids), lo)
  {
    assert [] + AllStarts(kids, lo + 2) == AllStarts(kids, lo + 2);
  }

  lemma AltGrows(g: Graph, kids: Kids, lo: nat, e: nat)
    requires kids.Cons? && lo + AllSize(kids) <= |g.st| && Frag(g, kids.head, lo)
    requires AltFrag(g, kids.tail, lo + Size(kids.head), e) && HasEps(g, End(kids.head, lo), [e])
    ensures AltFrag(g, kids, lo, e)
  {
    hide Frag, Start, End, Size;
  }

  lemma LoopDone(g: Graph, n: Node, k: Node, lo: nat)
    requires (n == Star(k) || n == Plus(k) || n == Opt(k)) && lo + 2 + Size(k) <= |g.st| && Frag(g, k, lo + 2)
    requires lo + 2 <= End(k, lo + 2) < |g.st|
    requires g.st[lo] == State(-1, -1, if n.Plus? then [Start(k, lo + 2)] else [Start(k, lo + 2), lo + 1])
    requires g.st[End(k, lo + 2)] == State(-1, -1, if n.Opt? then [lo + 1] else [lo + 1, Start(k, lo + 2)])
    ensures Frag(g, n, lo)
  {
    assert LoopFrag(g, k, lo, g.st[lo].eps, g.st[End(k, lo + 2)].eps);
  }

  // ---------------------------------------------------------------------------------------------
  // Closure
  // ---------------------------------------------------------------------------------------------

  /** `q` is reached from one of `set` by empty edges. */
  ghost predicate InClosure(g: Graph, set0: set<nat>, q: nat) {
    exists p :: p in set0 && Leads(g, p, [], q)
  }

  ghost function States(g: Graph): (all: set<nat>)
    ensures forall s: nat :: s in all <==> s < |g.st|
  {
    UpTo(|g.st|)
  }

  ghost function UpTo(n: nat): (all: set<nat>)
    ensures forall s: nat :: s in all <==> s < n
  {
    if n == 0 then {} else UpTo(n - 1) + {n - 1}
  }

  lemma {:induction false} ClosedUnderEps(g: Graph, c: set<nat>, p: nat, q: nat, k: nat)
    requires p in c && Reach(g, p, [], q, k)
    requires forall s :: s in c ==> s < |g.st| && forall i :: 0 <= i < |g.st[s].eps| ==> g.st[s].eps[i] in c
    ensures q in c
    decreases k
  {
    if k > 0 {
      var i :| 0 <= i < |g.st[p].eps| && Reach(g, g.st[p].eps[i], [], q, k - 1);
      ClosedUnderEps(g, c, g.st[p].eps[i], q, k - 1);
    }
  }

  /** closure: every state that empty edges lead to from a set of states. */
  method Closure(g: Graph, set0: set<nat>) returns (closed: set<nat>)
    requires Linked(g) && forall s :: s in set0 ==> s < |g.st|
    ensures forall q :: q in closed <==> InClosure(g, set0, q)
    ensures forall s :: s in closed ==> s < |g.st|
  {
    hide *;
    closed := set0;
    var stack := Listed(set0);
    StartClosure(g, set0, stack);
    while stack != []
      invariant Closing(g, set0, closed, stack)
      decreases |States(g) - closed|, |stack|
    {
      closed, stack := Expand(g, set0, closed, stack);
    }
    EndClosure(g, set0, closed);
  }

  /** Every state found is in the closure, and those not on the stack have had their successors found. */
  ghost predicate Closing(g: Graph, set0: set<nat>, closed: set<nat>, stack: seq<nat>) {
    && set0 <= closed && (forall s :: s in closed ==> s < |g.st| && InClosure(g, set0, s))
    && (forall s :: s in stack ==> s in closed)
    && (forall s :: s in closed && s !in stack ==> forall i :: 0 <= i < |g.st[s].eps| ==> g.st[s].eps[i] in closed)
  }

  lemma StartClosure(g: Graph, set0: set<nat>, stack: seq<nat>)
    requires (forall s :: s in set0 ==> s < |g.st|) && forall x :: x in stack <==> x in set0
    ensures Closing(g, set0, set0, stack)
  {
    hide Leads;
    forall s | s in set0 ensures InClosure(g, set0, s) {
      SelfLeads(g, s);
    }
  }

  lemma EndClosure(g: Graph, set0: set<nat>, closed: set<nat>)
    requires Closing(g, set0, closed, [])
    ensures forall q :: q in closed <==> InClosure(g, set0, q)
    ensures forall s :: s in closed ==> s < |g.st|
  {
    hide Leads;
    forall q | InClosure(g, set0, q) ensures q in closed {
      var p :| p in set0 && Leads(g, p, [], q);
      LeadsInside(g, closed, p, q);
    }
  }

  lemma LeadsInside(g: Graph, c: set<nat>, p: nat, q: nat)
    requires p in c && Leads(g, p, [], q)
    requires forall s :: s in c ==> s < |g.st| && forall i :: 0 <= i < |g.st[s].eps| ==> g.st[s].eps[i] in c
    ensures q in c
  {
    var k :| Reach(g, p, [], q, k);
    ClosedUnderEps(g, c, p, q, k);
  }

  lemma SelfLeads(g: Graph, s: nat)
    ensures Leads(g, s, [], s)
  {
    assert Reach(g, s, [], s, 0);
  }

  /** The members of a set, in some order. */
  method Listed(s: set<nat>) returns (l: seq<nat>)
    ensures forall x :: x in l <==> x in s
  {
    l := [];
    var rest := s;
    while rest != {}
      invariant forall x :: x in s <==> x in l || x in rest
      decreases rest
    {
      var x :| x in rest;
      l, rest := l + [x], rest - {x};
    }
  }

  /** Pop a state and push those of its successors that are new. */
  method Expand(g: Graph, ghost set0: set<nat>, closed0: set<nat>, stack0: seq<nat>) returns (closed: set<nat>,
                stack: seq<nat>)
    requires Linked(g) && stack0 != [] && Closing(g, set0, closed0, stack0)
    ensures Closing(g, set0, closed, stack)
    ensures closed0 == closed ==> |stack| < |stack0|
    ensures |States(g) - closed| <= |States(g) - closed0|
    ensures closed0 != closed ==> |States(g) - closed| < |States(g) - closed0|
  {
    hide InClosure, LinkedState;
    closed := closed0;
    var top := stack0[|stack0| - 1];
    assert top in stack0;
    stack := stack0[..|stack0| - 1];
    assert forall s :: s in stack0 <==> s in stack || s == top;
    TargetsExist(g, top);
    for i := 0 to |g.st[top].eps|
      invariant closed0 <= closed && forall s :: s in closed ==> s < |g.st| && InClosure(g, set0, s)
      invariant stack0[..|stack0| - 1] <= stack && forall s :: s in stack ==> s in closed
      invariant forall s :: s in closed && s !in stack ==> s in closed0
      invariant forall j :: 0 <= j < i ==> g.st[top].eps[j] in closed
      invariant closed0 == closed ==> |stack| < |stack0|
    {
      var t := g.st[top].eps[i];
      if t !in closed {
        StepInClosure(g, set0, top, i);
        closed := closed + {t};
        stack := stack + [t];
      }
    }
    forall s | s in closed && s !in stack ensures forall i :: 0 <= i < |g.st[s].eps| ==> g.st[s].eps[i] in closed {
      if s != top {
        assert s !in stack0[..|stack0| - 1];
      }
    }
    Shrinks(States(g), closed0, closed);
  }

  lemma TargetsExist(g: Graph, s: nat)
    requires Linked(g) && s < |g.st|
    ensures forall i :: 0 <= i < |g.st[s].eps| ==> g.st[s].eps[i] < |g.st|
  {
    assert LinkedState(g.st[s], |g.st|, |g.preds|);
  }

  lemma StepInClosure(g: Graph, set0: set<nat>, s: nat, i: nat)
    requires s < |g.st| && i < |g.st[s].eps| && InClosure(g, set0, s)
    ensures InClosure(g, set0, g.st[s].eps[i])
  {
    hide Leads;
    var p :| p in set0 && Leads(g, p, [], s);
    LeadsEps(g, s, i);
    LeadsJoins(g, p, [], s, [], g.st[s].eps[i]);
    Nothing();
  }

  lemma Nothing()
    ensures var w: seq<Mask> := []; w + w == w
  {
  }

  lemma Shrinks(all: set<nat>, a: set<nat>, b: set<nat>)
    requires a <= b && forall s :: s in b ==> s in all
    ensures |all - b| <= |all - a| && (a != b ==> |all - b| < |all - a|)
  {
    SubsetSize(all - b, all - a);
    if a != b {
      var x :| x in b && x !in a;
      SubsetSize(all - b, all - a - {x});
    }
  }
}
