/** The subset construction in the constructor of engine/src/lexical/tokenizer.cc. */
module Dfa {
  import opened Regex
  import opened Nfa
  import opened NfaCompiler
  import opened Sequences

  const MAX_STATES: nat := 32000

  /** Row `d` gives state `d`'s successor for every class of letters, -1 where there is none. */
  datatype Automaton = Automaton(trans: seq<seq<int>>, accept: seq<bool>)

  datatype Result = Ok(a: Automaton) | TooLarge | AcceptsEmpty

  // ---------------------------------------------------------------------------------------------
  // Sets of states
  // ---------------------------------------------------------------------------------------------

  /** States that have an edge on letter `m` from a state of `s`. */
  ghost predicate OneEdge(g: Graph, s: set<nat>, m: Mask, q: nat) {
    exists p :: p in s && Edge(g, p, m, q)
  }

  /** `s` is the set of states that reading `w` leads to. */
  ghost predicate IsReadSet(g: Graph, start: nat, w: seq<Mask>, s: set<nat>) {
    forall q :: q in s <==> Leads(g, start, w, q)
  }

  /** The last letter of a path: an edge, after a path that reads the letters before it and before one
      that reads nothing. */
  lemma {:induction false} LastLetter(g: Graph, p: nat, w: seq<Mask>, m: Mask, q: nat, k: nat) returns (a: nat, b: nat)
    requires Reach(g, p, w + [m], q, k)
    ensures Leads(g, p, w, a) && Edge(g, a, m, b) && Leads(g, b, [], q)
    decreases k
  {
    hide Leads, Edge;
    var v := w + [m];
    if i :| 0 <= i < |g.st[p].eps| && Reach(g, g.st[p].eps[i], v, q, k - 1) {
      a, b := LastLetter(g, g.st[p].eps[i], w, m, q, k - 1);
      LeadsEps(g, p, i);
      After(g, p, [], g.st[p].eps[i], w, a, w);
    } else if w == [] {
      a, b := p, g.st[p].next;
      assert v[0] == m && v[1..] == [];
      SelfLeads(g, p);
      ReachLeads(g, b, [], q, k - 1);
    } else {
      assert v[0] == w[0] && v[1..] == w[1..] + [m];
      a, b := LastLetter(g, g.st[p].next, w[1..], m, q, k - 1);
      EdgeLeads(g, p, w[0], g.st[p].next);
      After(g, p, [w[0]], g.st[p].next, w[1..], a, w);
    }
  }

  lemma After(g: Graph, p: nat, u: seq<Mask>, r: nat, v: seq<Mask>, q: nat, w: seq<Mask>)
    requires Leads(g, p, u, r) && Leads(g, r, v, q) && w == u + v
    ensures Leads(g, p, w, q)
  {
    LeadsJoins(g, p, u, r, v, q);
  }

  lemma ReachLeads(g: Graph, p: nat, w: seq<Mask>, q: nat, k: nat)
    requires Reach(g, p, w, q, k)
    ensures Leads(g, p, w, q)
  {
  }

  lemma EdgeLeads(g: Graph, p: nat, m: Mask, q: nat)
    requires Edge(g, p, m, q)
    ensures Leads(g, p, [m], q)
  {
    assert Reach(g, q, [m][1..], q, 0);
    assert Reach(g, p, [m], q, 1);
  }

  /** One step of the construction: the closure of the edges on `m` out of the set for `w` is the set for
      `w` and `m`. */
  lemma StepSet(g: Graph, start: nat, w: seq<Mask>, m: Mask, s: set<nat>, edges: set<nat>, t: set<nat>)
    requires IsReadSet(g, start, w, s) && (forall q :: q in edges <==> OneEdge(g, s, m, q))
    requires forall q :: q in t <==> InClosure(g, edges, q)
    ensures IsReadSet(g, start, w + [m], t)
  {
    hide Edge, Leads;
    forall q ensures q in t <==> Leads(g, start, w + [m], q) {
      if q in t {
        StepIn(g, start, w, m, s, edges, q);
      }
      if Leads(g, start, w + [m], q) {
        StepOut(g, start, w, m, s, edges, q);
      }
    }
  }

  lemma StepIn(g: Graph, start: nat, w: seq<Mask>, m: Mask, s: set<nat>, edges: set<nat>, q: nat)
    requires IsReadSet(g, start, w, s) && (forall q :: q in edges <==> OneEdge(g, s, m, q)) && InClosure(g, edges, q)
    ensures Leads(g, start, w + [m], q)
  {
    hide Edge, Leads;
    var b :| b in edges && Leads(g, b, [], q);
    var a :| a in s && Edge(g, a, m, b);
    EdgeLeads(g, a, m, b);
    LeadsJoins(g, start, w, a, [m], b);
    LeadsJoins(g, start, w + [m], b, [], q);
    assert w + [m] + [] == w + [m];
  }

  lemma StepOut(g: Graph, start: nat, w: seq<Mask>, m: Mask, s: set<nat>, edges: set<nat>, q: nat)
    requires IsReadSet(g, start, w, s) && (forall q :: q in edges <==> OneEdge(g, s, m, q))
    requires Leads(g, start, w + [m], q)
    ensures InClosure(g, edges, q)
  {
    hide Edge;
    var k :| Reach(g, start, w + [m], q, k);
    var a, b := LastLetter(g, start, w, m, q, k);
    assert OneEdge(g, s, m, b);
  }

  lemma FirstSet(g: Graph, start: nat, s: set<nat>)
    requires forall q :: q in s <==> InClosure(g, {start}, q)
    ensures IsReadSet(g, start, [], s)
  {
    hide Leads;
    forall q ensures q in s <==> Leads(g, start, [], q) {
      assert InClosure(g, {start}, q) <==> Leads(g, start, [], q);
    }
  }

  /** A word leads nowhere if a beginning of it does. */
  lemma {:induction false} DeadStays(g: Graph, start: nat, w: seq<Mask>, v: seq<Mask>)
    requires IsReadSet(g, start, w, {})
    ensures IsReadSet(g, start, w + v, {})
    decreases |v|
  {
    hide Leads;
    if v == [] {
      assert w + v == w;
    } else {
      var n := |v| - 1;
      DeadStays(g, start, w, v[..n]);
      assert w + v == (w + v[..n]) + [v[n]];
      StepSet(g, start, w + v[..n], v[n], {}, {}, {});
    }
  }

  // ---------------------------------------------------------------------------------------------
  // The construction
  // ---------------------------------------------------------------------------------------------

  /** The construction so far: `sets[d]` is what state `d` stands for, and the first `done` rows are filled. */
  ghost predicate Partial(g: Graph, masks: seq<Mask>, accept: nat, sets: seq<set<nat>>, ids: map<set<nat>, nat>,
                          a: Automaton, done: nat)
  {
    && done <= |sets| && |a.trans| == |a.accept| == done
    && (forall d :: 0 <= d < |sets| ==> InGraph(g, sets[d]) && sets[d] in ids && ids[sets[d]] == d)
    && (forall s :: s in ids ==> ids[s] < |sets| && sets[ids[s]] == s)
    && (forall d :: 0 <= d < done ==> a.accept[d] == (accept in sets[d]))
    && (forall d :: 0 <= d < done ==> RowOk(g, masks, sets, d, a.trans[d], |masks|))
  }

  ghost predicate InGraph(g: Graph, s: set<nat>) {
    forall q :: q in s ==> q < |g.st|
  }

  /** The first `n` entries of row `d`. */
  ghost predicate RowOk(g: Graph, masks: seq<Mask>, sets: seq<set<nat>>, d: nat, row: seq<int>, n: nat)
    requires d < |sets|
  {
    |row| == n <= |masks| && forall c :: 0 <= c < n ==> EntryOk(g, masks[c], sets, d, row[c])
  }

  ghost predicate EntryOk(g: Graph, m: Mask, sets: seq<set<nat>>, d: nat, e: int)
    requires d < |sets|
  {
    && -1 <= e < |sets|
    && (e < 0 ==> forall q :: !OneEdge(g, sets[d], m, q))
    && (e >= 0 ==> StepOf(g, sets[d], m, sets[e]))
  }

  /** `t` is the closure of the edges on `m` out of `s`. */
  ghost predicate StepOf(g: Graph, s: set<nat>, m: Mask, t: set<nat>) {
    forall q :: q in t <==> exists b :: OneEdge(g, s, m, b) && Leads(g, b, [], q)
  }

  /** The states that have an edge on `m` from the set. */
  method Edges(g: Graph, s: set<nat>, m: Mask) returns (nxt: set<nat>)
    requires Linked(g) && InGraph(g, s)
    ensures InGraph(g, nxt) && forall q :: q in nxt <==> OneEdge(g, s, m, q)
  {
    hide Linked, LinkedState;
    nxt := {};
    var rest := s;
    ghost var seen: set<nat> := {};
    while rest != {}
      invariant rest + seen == s && InGraph(g, nxt)
      invariant forall q :: q in nxt <==> OneEdge(g, seen, m, q)
      decreases rest
    {
      var p :| p in rest;
      rest := rest - {p};
      EdgeInGraph(g, p);
      var ns := g.st[p];
      ghost var before, old_ := nxt, seen;
      if ns.pred >= 0 && g.preds[ns.pred].Holds(m) {
        nxt := nxt + {ns.next};
      }
      seen := seen + {p};
      forall q: nat ensures q in nxt <==> OneEdge(g, seen, m, q) {
        assert OneEdge(g, seen, m, q) <==> OneEdge(g, old_, m, q) || Edge(g, p, m, q);
      }
    }
    assert seen == s;
  }

  lemma EdgeInGraph(g: Graph, p: nat)
    requires Linked(g) && p < |g.st|
    ensures -1 <= g.st[p].pred < |g.preds| && -1 <= g.st[p].next < |g.st| && (g.st[p].pred >= 0 ==> g.st[p].next >= 0)
  {
    assert LinkedState(g.st[p], |g.st|, |g.preds|);
  }

  /** A word over the classes leads exactly to `s`. */
  ghost predicate HasWord(g: Graph, start: nat, masks: seq<Mask>, w: seq<Mask>, s: set<nat>) {
    (forall i :: 0 <= i < |w| ==> w[i] in masks) && IsReadSet(g, start, w, s)
  }

  ghost predicate Reached(g: Graph, start: nat, masks: seq<Mask>, s: set<nat>) {
    s != {} && exists w :: HasWord(g, start, masks, w, s)
  }

  ghost predicate AllReached(g: Graph, start: nat, masks: seq<Mask>, sets: seq<set<nat>>) {
    forall d :: 0 <= d < |sets| ==> Reached(g, start, masks, sets[d])
  }

  ghost predicate Different(sets: seq<set<nat>>) {
    forall i, j :: 0 <= i < j < |sets| ==> sets[i] != sets[j]
  }

  /** The words over the classes lead to more sets of states than there may be. */
  ghost predicate TooMany(g: Graph, start: nat, masks: seq<Mask>) {
    exists sets :: |sets| == MAX_STATES + 2 && Different(sets) && AllReached(g, start, masks, sets)
  }

  lemma StepReached(g: Graph, start: nat, masks: seq<Mask>, sets: seq<set<nat>>, d: nat, c: nat, nxt: set<nat>,
                    t: set<nat>)
    requires AllReached(g, start, masks, sets) && d < |sets| && c < |masks| && nxt != {}
    requires StepOf(g, sets[d], masks[c], t) && (forall q :: q in t <==> InClosure(g, nxt, q))
    ensures AllReached(g, start, masks, sets + [t])
  {
    hide StepOf, IsReadSet, Leads;
    assert Reached(g, start, masks, sets[d]);
    var w :| HasWord(g, start, masks, w, sets[d]);
    StepEdges(g, start, w, masks[c], sets[d], t);
    assert HasWord(g, start, masks, w + [masks[c]], t);
    var q :| q in nxt;
    SelfLeads(g, q);
    assert InClosure(g, nxt, q);
    forall i | 0 <= i < |sets + [t]| ensures Reached(g, start, masks, (sets + [t])[i]) {
      assert i < |sets| ==> Reached(g, start, masks, sets[i]);
    }
  }

  lemma OneTooMany(g: Graph, start: nat, masks: seq<Mask>, accept: nat, sets: seq<set<nat>>, ids: map<set<nat>, nat>,
                   a: Automaton, d: nat, t: set<nat>)
    requires Partial(g, masks, accept, sets, ids, a, d) && t !in ids && AllReached(g, start, masks, sets + [t])
    ensures |sets| == MAX_STATES + 1 ==> TooMany(g, start, masks)
  {
    hide AllReached, InGraph, RowOk;
    DifferentSets(g, masks, accept, sets, ids, a, d);
    assert Different(sets + [t]);
  }

  lemma DifferentSets(g: Graph, masks: seq<Mask>, accept: nat, sets: seq<set<nat>>, ids: map<set<nat>, nat>,
                      a: Automaton, d: nat)
    requires Partial(g, masks, accept, sets, ids, a, d)
    ensures Different(sets) && forall i :: 0 <= i < |sets| ==> sets[i] in ids
  {
    hide InGraph, RowOk;
  }

  /** Row `d` of the table: a new state for every set not seen before, until there are too many. */
  method Row(g: Graph, ghost start: nat, masks: seq<Mask>, ghost accept: nat, d: nat, sets0: seq<set<nat>>,
             ids0: map<set<nat>, nat>, ghost a: Automaton)
    returns (ok: bool, row: seq<int>, sets: seq<set<nat>>, ids: map<set<nat>, nat>)
    requires Linked(g) && d < |sets0| <= MAX_STATES + 1 && Partial(g, masks, accept, sets0, ids0, a, d)
    requires AllReached(g, start, masks, sets0)
    ensures ok ==> |sets| <= MAX_STATES + 1 && sets0 <= sets && Partial(g, masks, accept, sets, ids, a, d)
                   && RowOk(g, masks, sets, d, row, |masks|)
    ensures ok ==> AllReached(g, start, masks, sets)
    ensures !ok ==> TooMany(g, start, masks)
  {
    hide *;
    row, sets, ids, ok := [], sets0, ids0, true;
    NoEntries(g, masks, sets0, d);
    for c := 0 to |masks|
      invariant sets0 <= sets && |sets| <= MAX_STATES + 1
      invariant Partial(g, masks, accept, sets, ids, a, d) && RowOk(g, masks, sets, d, row, c)
      invariant AllReached(g, start, masks, sets)
    {
      SetInGraph(g, masks, accept, sets, ids, a, d, d);
      var nxt := Edges(g, sets[d], masks[c]);
      if nxt == {} {
        DeadEntry(g, masks, sets, d, row, c, nxt);
        row := row + [-1];
      } else {
        InGraphAll(g, nxt);
        var closed := Closure(g, nxt);
        StepIs(g, sets[d], masks[c], nxt, closed);
        if closed in ids {
          KnownSet(g, masks, accept, sets, ids, a, d, row, c, closed);
          row := row + [ids[closed]];
        } else {
          StepReached(g, start, masks, sets, d, c, nxt, closed);
          OneTooMany(g, start, masks, accept, sets, ids, a, d, closed);
          if |sets| > MAX_STATES {
            return false, [], sets, ids;
          }
          NewSet(g, masks, accept, sets, ids, a, d, row, c, closed);
          row, ids, sets := row + [|sets|], ids[closed := |sets|], sets + [closed];
        }
      }
    }
  }

  lemma NoEntries(g: Graph, masks: seq<Mask>, sets: seq<set<nat>>, d: nat)
    requires d < |sets|
    ensures RowOk(g, masks, sets, d, [], 0)
  {
  }

  lemma SetInGraph(g: Graph, masks: seq<Mask>, accept: nat, sets: seq<set<nat>>, ids: map<set<nat>, nat>, a: Automaton,
                   done: nat, d: nat)
    requires Partial(g, masks, accept, sets, ids, a, done) && d < |sets|
    ensures InGraph(g, sets[d])
  {
  }

  lemma InGraphAll(g: Graph, s: set<nat>)
    requires InGraph(g, s)
    ensures forall q :: q in s ==> q < |g.st|
  {
  }

  lemma StepIs(g: Graph, s: set<nat>, m: Mask, edges: set<nat>, t: set<nat>)
    requires (forall q :: q in edges <==> OneEdge(g, s, m, q)) && (forall q :: q in t <==> InClosure(g, edges, q))
    requires forall q :: q in t ==> q < |g.st|
    ensures StepOf(g, s, m, t) && InGraph(g, t)
  {
    hide OneEdge, Leads;
    forall q ensures q in t <==> exists b :: OneEdge(g, s, m, b) && Leads(g, b, [], q) {
      if q in t {
        var b :| b in edges && Leads(g, b, [], q);
        assert OneEdge(g, s, m, b);
      }
      if b :| OneEdge(g, s, m, b) && Leads(g, b, [], q) {
        assert b in edges;
      }
    }
  }

  lemma DeadEntry(g: Graph, masks: seq<Mask>, sets: seq<set<nat>>, d: nat, row: seq<int>, c: nat, nxt: set<nat>)
    requires d < |sets| && c < |masks| && RowOk(g, masks, sets, d, row, c) && nxt == {}
    requires forall q :: q in nxt <==> OneEdge(g, sets[d], masks[c], q)
    ensures RowOk(g, masks, sets, d, row + [-1], c + 1)
  {
    hide OneEdge, StepOf;
  }

  lemma KnownSet(g: Graph, masks: seq<Mask>, accept: nat, sets: seq<set<nat>>, ids: map<set<nat>, nat>, a: Automaton,
                 d: nat, row: seq<int>, c: nat, t: set<nat>)
    requires Partial(g, masks, accept, sets, ids, a, d) && d < |sets| && c < |masks| && RowOk(g, masks, sets, d, row, c)
    requires t in ids && StepOf(g, sets[d], masks[c], t)
    ensures RowOk(g, masks, sets, d, row + [ids[t]], c + 1)
  {
    hide OneEdge, StepOf;
  }

  lemma NewSet(g: Graph, masks: seq<Mask>, accept: nat, sets: seq<set<nat>>, ids: map<set<nat>, nat>, a: Automaton,
               d: nat, row: seq<int>, c: nat, t: set<nat>)
    requires Partial(g, masks, accept, sets, ids, a, d) && d < |sets| && c < |masks| && RowOk(g, masks, sets, d, row, c)
    requires t !in ids && StepOf(g, sets[d], masks[c], t) && InGraph(g, t)
    ensures Partial(g, masks, accept, sets + [t], ids[t := |sets|], a, d)
    ensures RowOk(g, masks, sets + [t], d, row + [|sets|], c + 1)
  {
    hide OneEdge, StepOf, InGraph;
    var more := sets + [t];
    forall e | 0 <= e < d ensures RowOk(g, masks, more, e, a.trans[e], |masks|) {
      RowStays(g, masks, sets, more, e, a.trans[e], |masks|);
    }
    RowStays(g, masks, sets, more, d, row, c);
  }

  lemma RowStays(g: Graph, masks: seq<Mask>, sets: seq<set<nat>>, more: seq<set<nat>>, d: nat, row: seq<int>, n: nat)
    requires d < |sets| && sets <= more && RowOk(g, masks, sets, d, row, n)
    ensures RowOk(g, masks, more, d, row, n)
  {
    hide OneEdge, StepOf;
    forall c | 0 <= c < n ensures EntryOk(g, masks[c], more, d, row[c]) {
      assert EntryOk(g, masks[c], sets, d, row[c]);
    }
  }

  lemma RowDone(g: Graph, masks: seq<Mask>, accept: nat, sets: seq<set<nat>>, ids: map<set<nat>, nat>, a: Automaton,
                d: nat, row: seq<int>, b: bool)
    requires Partial(g, masks, accept, sets, ids, a, d) && d < |sets| && RowOk(g, masks, sets, d, row, |masks|)
    requires b == (accept in sets[d])
    ensures Partial(g, masks, accept, sets, ids, Automaton(a.trans + [row], a.accept + [b]), d + 1)
  {
    hide RowOk, InGraph;
  }

  /** The automaton of a fragment, over the classes that `masks` lists. */
  method Construct(g: Graph, start: nat, accept: nat, masks: seq<Mask>) returns (r: Result, ghost sets: seq<set<nat>>)
    requires Linked(g) && start < |g.st|
    ensures r.Ok? ==> Built(g, start, accept, masks, r.a, sets) && !(accept in sets[0])
    ensures r.AcceptsEmpty? ==> Leads(g, start, [], accept)
    ensures r.TooLarge? <==> TooMany(g, start, masks)
  {
    hide *;
    var s0 := Closure(g, {start});
    FirstSet(g, start, s0);
    var ss, ids, a := [s0], map[s0 := 0], Automaton([], []);
    StartPartial(g, masks, accept, s0);
    StartReached(g, start, masks, s0);
    var d := 0;
    while d < |ss|
      invariant d <= |ss| <= MAX_STATES + 1 && |ss| > 0 && ss[0] == s0
      invariant Partial(g, masks, accept, ss, ids, a, d) && AllReached(g, start, masks, ss)
      decreases MAX_STATES + 1 - d
    {
      var b := accept in ss[d];
      var ok, row;
      ghost var before := ss;
      ok, row, ss, ids := Row(g, start, masks, accept, d, ss, ids, a);
      if !ok {
        return TooLarge, ss;
      }
      RowDone(g, masks, accept, ss, ids, a, d, row, b);
      a := Automaton(a.trans + [row], a.accept + [b]);
      d := d + 1;
    }
    sets := ss;
    AllBuilt(g, start, masks, accept, ss, ids, a);
    NotTooMany(g, start, accept, masks, a, ss);
    if a.accept[0] {
      ReadSetHas(g, start, [], s0, accept);
      r := AcceptsEmpty;
    } else {
      r := Ok(a);
    }
  }

  lemma StartPartial(g: Graph, masks: seq<Mask>, accept: nat, s0: set<nat>)
    requires forall q :: q in s0 ==> q < |g.st|
    ensures Partial(g, masks, accept, [s0], map[s0 := 0], Automaton([], []), 0)
  {
  }

  lemma ReadSetHas(g: Graph, start: nat, w: seq<Mask>, s: set<nat>, q: nat)
    requires IsReadSet(g, start, w, s)
    ensures q in s <==> Leads(g, start, w, q)
  {
  }

  /** A finished automaton: state 0 stands for the empty word, and every row is filled. */
  ghost predicate Built(g: Graph, start: nat, accept: nat, masks: seq<Mask>, a: Automaton, sets: seq<set<nat>>) {
    && 0 < |sets| == |a.trans| == |a.accept| && IsReadSet(g, start, [], sets[0])
    && (forall d :: 0 <= d < |sets| ==> a.accept[d] == (accept in sets[d]))
    && (forall d :: 0 <= d < |sets| ==> RowOk(g, masks, sets, d, a.trans[d], |masks|))
  }

  lemma AllBuilt(g: Graph, start: nat, masks: seq<Mask>, accept: nat, sets: seq<set<nat>>, ids: map<set<nat>, nat>,
                 a: Automaton)
    requires Partial(g, masks, accept, sets, ids, a, |sets|) && |sets| > 0 && IsReadSet(g, start, [], sets[0])
    ensures Built(g, start, accept, masks, a, sets) && |a.accept| > 0 && a.accept[0] == (accept in sets[0])
  {
    hide RowOk, InGraph, IsReadSet;
  }

  // ---------------------------------------------------------------------------------------------
  // Runs
  // ---------------------------------------------------------------------------------------------

  /** The state after reading letters given by their classes; -1 once there is no transition. */
  function Run(a: Automaton, cs: seq<nat>): int {
    if cs == [] then 0
    else
      var n := |cs| - 1;
      var d := Run(a, cs[..n]);
      if 0 <= d < |a.trans| && cs[n] < |a.trans[d]| then a.trans[d][cs[n]] else -1
  }

  function Word(masks: seq<Mask>, cs: seq<nat>): (w: seq<Mask>)
    requires forall i :: 0 <= i < |cs| ==> cs[i] < |masks|
    ensures |w| == |cs|
  {
    seq(|cs|, i requires 0 <= i < |cs| => masks[cs[i]])
  }

  /** After every word the automaton's state stands for the states that the word leads to. */
  lemma {:induction false} RunReads(g: Graph, start: nat, accept: nat, masks: seq<Mask>, a: Automaton,
                                    sets: seq<set<nat>>, cs: seq<nat>)
    requires Built(g, start, accept, masks, a, sets) && forall i :: 0 <= i < |cs| ==> cs[i] < |masks|
    ensures -1 <= Run(a, cs) < |sets|
    ensures IsReadSet(g, start, Word(masks, cs), if Run(a, cs) < 0 then {} else sets[Run(a, cs)])
    decreases |cs|
  {
    hide IsReadSet, StepOf, OneEdge;
    if cs == [] {
      assert Word(masks, cs) == [];
    } else {
      var n := |cs| - 1;
      RunReads(g, start, accept, masks, a, sets, cs[..n]);
      var w, m := Word(masks, cs[..n]), masks[cs[n]];
      assert Word(masks, cs) == w + [m];
      var d := Run(a, cs[..n]);
      if d < 0 {
        DeadStays(g, start, w, [m]);
      } else {
        assert RowOk(g, masks, sets, d, a.trans[d], |masks|);
        assert EntryOk(g, m, sets, d, a.trans[d][cs[n]]);
        EntryReads(g, start, w, m, sets, d, a.trans[d][cs[n]]);
      }
    }
  }

  lemma EntryReads(g: Graph, start: nat, w: seq<Mask>, m: Mask, sets: seq<set<nat>>, d: nat, e: int)
    requires d < |sets| && EntryOk(g, m, sets, d, e) && IsReadSet(g, start, w, sets[d])
    ensures IsReadSet(g, start, w + [m], if e < 0 then {} else sets[e])
  {
    hide IsReadSet, OneEdge, Leads;
    if e < 0 {
      StepSet(g, start, w, m, sets[d], {}, {});
    } else {
      StepEdges(g, start, w, m, sets[d], sets[e]);
    }
  }

  lemma StepEdges(g: Graph, start: nat, w: seq<Mask>, m: Mask, s: set<nat>, t: set<nat>)
    requires IsReadSet(g, start, w, s) && StepOf(g, s, m, t)
    ensures IsReadSet(g, start, w + [m], t)
  {
    hide Leads;
    var edges := set p | p in s && p < |g.st| && g.st[p].next >= 0 && Edge(g, p, m, g.st[p].next)
                 :: g.st[p].next as nat;
    forall q ensures q in edges <==> OneEdge(g, s, m, q) {
    }
    forall q ensures q in t <==> InClosure(g, edges, q) {
      if q in t {
        var b :| OneEdge(g, s, m, b) && Leads(g, b, [], q);
        assert b in edges;
      }
      if InClosure(g, edges, q) {
        var b :| b in edges && Leads(g, b, [], q);
        assert OneEdge(g, s, m, b);
      }
    }
    StepSet(g, start, w, m, s, edges, t);
  }

  lemma StartReached(g: Graph, start: nat, masks: seq<Mask>, s0: set<nat>)
    requires IsReadSet(g, start, [], s0)
    ensures AllReached(g, start, masks, [s0])
  {
    hide Leads;
    SelfLeads(g, start);
    assert start in s0 && HasWord(g, start, masks, [], s0);
  }

  /** A finished automaton has a state for every set that a word over the classes leads to. */
  lemma ReachedIsState(g: Graph, start: nat, accept: nat, masks: seq<Mask>, a: Automaton, sets: seq<set<nat>>,
                       s: set<nat>)
    requires Built(g, start, accept, masks, a, sets) && Reached(g, start, masks, s)
    ensures s in sets
  {
    hide Built, Leads;
    var w :| HasWord(g, start, masks, w, s);
    var cs := Classes(masks, w);
    assert Word(masks, cs) == w;
    RunReads(g, start, accept, masks, a, sets, cs);
    SameSet(g, start, w, s, if Run(a, cs) < 0 then {} else sets[Run(a, cs)]);
  }

  lemma SameSet(g: Graph, start: nat, w: seq<Mask>, s: set<nat>, t: set<nat>)
    requires IsReadSet(g, start, w, s) && IsReadSet(g, start, w, t)
    ensures s == t
  {
    hide Leads;
  }

  ghost function Classes(masks: seq<Mask>, w: seq<Mask>): (cs: seq<nat>)
    requires forall i :: 0 <= i < |w| ==> w[i] in masks
    ensures |cs| == |w| && forall i :: 0 <= i < |cs| ==> cs[i] < |masks| && masks[cs[i]] == w[i]
  {
    seq(|w|, i requires 0 <= i < |w| => ClassOf(masks, w[i]))
  }

  ghost function ClassOf(masks: seq<Mask>, m: Mask): (c: nat)
    requires m in masks
    ensures c < |masks| && masks[c] == m
  {
    var c: nat :| c < |masks| && masks[c] == m;
    c
  }

  lemma NotTooMany(g: Graph, start: nat, accept: nat, masks: seq<Mask>, a: Automaton, sets: seq<set<nat>>)
    requires Built(g, start, accept, masks, a, sets) && |sets| <= MAX_STATES + 1
    ensures !TooMany(g, start, masks)
  {
    hide Built, Reached;
    forall t | |t| == MAX_STATES + 2 && AllReached(g, start, masks, t) ensures !Different(t) {
      forall x | x in t ensures x in sets {
        var i :| 0 <= i < |t| && t[i] == x;
        ReachedIsState(g, start, accept, masks, a, sets, x);
      }
      MembersSize(t);
      MembersSize(sets);
      SubsetSize(Members(t), Members(sets));
    }
  }
}
