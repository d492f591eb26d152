/** StandardTokenizer of engine/src/lexical/tokenizer.cc: a grammar compiled to a table-driven automaton, and
    the longest-match scan that runs it. */
module Tokenizer {
  import opened Bits
  import opened Utf8
  import opened Regex
  import opened Nfa
  import opened NfaCompiler
  import opened Dfa
  import opened Counting

  const MAX_TOKEN_UNITS: nat := 255
  const BLOCK: nat := 128

  // ---------------------------------------------------------------------------------------------
  // Classes of code points
  // ---------------------------------------------------------------------------------------------

  datatype Classes = Classes(ascii: seq<nat>, stage1: seq<nat>, stage2: seq<nat>)

  /** The two-stage lookup, with a shortcut for ASCII. */
  function ClassOf(t: Classes, cp: nat): (c: nat)
    requires ClassesReady(t) && cp < CODE_POINTS
  {
    if cp < 128 then t.ascii[cp]
    else
      assert t.stage1[cp / BLOCK] * BLOCK + cp % BLOCK < |t.stage2|
        by { Inside(t.stage1[cp / BLOCK], cp % BLOCK, |t.stage2|); }
      t.stage2[t.stage1[cp / BLOCK] * BLOCK + cp % BLOCK]
  }

  predicate ClassesReady(t: Classes) {
    && |t.ascii| == 128 && |t.stage1| == CODE_POINTS / BLOCK
    && forall b :: 0 <= b < |t.stage1| ==> (t.stage1[b] + 1) * BLOCK <= |t.stage2|
  }

  lemma Inside(b: nat, j: nat, n: nat)
    requires (b + 1) * BLOCK <= n && j < BLOCK
    ensures b * BLOCK + j < n
  {
  }

  /** Every code point's class names its property mask. */
  ghost predicate Classifies(t: Classes, masks: seq<Mask>, prop: nat -> Mask) {
    ClassesReady(t)
    && forall cp :: 0 <= cp < CODE_POINTS ==> ClassOf(t, cp) < |masks| && masks[ClassOf(t, cp)] == prop(cp)
  }

  /** A block of the second stage, the classes of 128 code points. */
  ghost predicate BlockIs(block: seq<nat>, masks: seq<Mask>, prop: nat -> Mask, first: nat) {
    |block| == BLOCK && forall j :: 0 <= j < BLOCK ==> block[j] < |masks| && masks[block[j]] == prop(first + j)
  }

  ghost predicate BlockAt(stage2: seq<nat>, id: nat, block: seq<nat>) {
    (id + 1) * BLOCK <= |stage2| && stage2[id * BLOCK..(id + 1) * BLOCK] == block
  }

  /** Every code point of block `i` has its class in the second stage. */
  ghost predicate Stored(stage2: seq<nat>, id: nat, masks: seq<Mask>, prop: nat -> Mask, i: nat) {
    exists block :: BlockAt(stage2, id, block) && BlockIs(block, masks, prop, i * BLOCK)
  }

  ghost predicate Tables(stage1: seq<nat>, stage2: seq<nat>, dedupe: map<seq<nat>, nat>, masks: seq<Mask>,
                         prop: nat -> Mask)
  {
    && |stage2| % BLOCK == 0
    && (forall k :: k in dedupe ==> BlockAt(stage2, dedupe[k], k))
    && (forall i :: 0 <= i < |stage1| ==> Stored(stage2, stage1[i], masks, prop, i))
  }

  ghost predicate Indexed(classOf: map<Mask, nat>, masks: seq<Mask>, n: nat)
    requires n <= |masks|
  {
    && (forall i :: 0 <= i < n ==> masks[i] in classOf)
    && (forall m: Mask :: m in classOf ==> 0 <= classOf[m] < n && masks[classOf[m]] == m)
  }

  /** Build the tables: equal blocks are stored once. */
  method BuildClasses(masks: seq<Mask>, prop: nat -> Mask) returns (t: Classes)
    requires forall cp :: 0 <= cp < CODE_POINTS ==> prop(cp) in masks
    ensures Classifies(t, masks, prop)
  {
    hide Tables, Stored, BlockIs, BlockAt, Indexed, Classifies;
    var classOf := Index(masks);
    var stage1: seq<nat>, stage2: seq<nat>, dedupe: map<seq<nat>, nat> := [], [], map[];
    NoTables(masks, prop);
    for b := 0 to CODE_POINTS / BLOCK
      invariant |stage1| == b && Tables(stage1, stage2, dedupe, masks, prop)
    {
      var block := OneBlock(masks, prop, classOf, b);
      BlockAdded(stage1, stage2, dedupe, block, masks, prop);
      if block !in dedupe {
        dedupe := dedupe[block := |stage2| / BLOCK];
        stage2 := stage2 + block;
      }
      stage1 := stage1 + [dedupe[block]];
    }
    var ascii := Ascii(masks, prop, classOf);
    t := Classes(ascii, stage1, stage2);
    TablesClassify(t, dedupe, masks, prop);
  }

  lemma NoTables(masks: seq<Mask>, prop: nat -> Mask)
    ensures Tables([], [], map[], masks, prop)
  {
  }

  /** A block joins the tables, once. */
  lemma BlockAdded(stage1: seq<nat>, stage2: seq<nat>, dedupe: map<seq<nat>, nat>, block: seq<nat>, masks: seq<Mask>,
                   prop: nat -> Mask)
    requires Tables(stage1, stage2, dedupe, masks, prop) && BlockIs(block, masks, prop, |stage1| * BLOCK)
    ensures block in dedupe ==> Tables(stage1 + [dedupe[block]], stage2, dedupe, masks, prop)
    ensures var id := |stage2| / BLOCK;
            block !in dedupe ==> Tables(stage1 + [id], stage2 + block, dedupe[block := id], masks, prop)
  {
    hide BlockIs;
    if block in dedupe {
      assert Stored(stage2, dedupe[block], masks, prop, |stage1|);
    } else {
      var id, more := |stage2| / BLOCK, stage2 + block;
      BlockLength(block, masks, prop, |stage1| * BLOCK);
      assert BlockAt(more, id, block);
      forall k | k in dedupe ensures BlockAt(more, dedupe[k], k) {
        BlockStays(stage2, block, dedupe[k], k);
      }
      forall i | 0 <= i < |stage1| ensures Stored(more, stage1[i], masks, prop, i) {
        var k :| BlockAt(stage2, stage1[i], k) && BlockIs(k, masks, prop, i * BLOCK);
        BlockStays(stage2, block, stage1[i], k);
      }
    }
  }

  lemma BlockLength(block: seq<nat>, masks: seq<Mask>, prop: nat -> Mask, first: nat)
    requires BlockIs(block, masks, prop, first)
    ensures |block| == BLOCK
  {
  }

  lemma BlockStays(stage2: seq<nat>, block: seq<nat>, id: nat, k: seq<nat>)
    requires BlockAt(stage2, id, k)
    ensures BlockAt(stage2 + block, id, k)
  {
    assert (stage2 + block)[id * BLOCK..(id + 1) * BLOCK] == stage2[id * BLOCK..(id + 1) * BLOCK];
  }

  method Index(masks: seq<Mask>) returns (classOf: map<Mask, nat>)
    ensures Indexed(classOf, masks, |masks|)
  {
    classOf := map[];
    for i := 0 to |masks|
      invariant Indexed(classOf, masks, i)
    {
      classOf := classOf[masks[i] := i];
    }
  }

  lemma Has(classOf: map<Mask, nat>, masks: seq<Mask>, prop: nat -> Mask, cp: nat)
    requires Indexed(classOf, masks, |masks|) && prop(cp) in masks
    ensures prop(cp) in classOf && 0 <= classOf[prop(cp)] < |masks| && masks[classOf[prop(cp)]] == prop(cp)
  {
    var i :| 0 <= i < |masks| && masks[i] == prop(cp);
  }

  method OneBlock(masks: seq<Mask>, prop: nat -> Mask, classOf: map<Mask, nat>, b: nat) returns (block: seq<nat>)
    requires b < CODE_POINTS / BLOCK && Indexed(classOf, masks, |masks|)
    requires forall cp :: 0 <= cp < CODE_POINTS ==> prop(cp) in masks
    ensures BlockIs(block, masks, prop, b * BLOCK)
  {
    hide Indexed;
    block := [];
    for j := 0 to BLOCK
      invariant |block| == j && forall i :: 0 <= i < j ==> block[i] < |masks| && masks[block[i]] == prop(b * BLOCK + i)
    {
      Has(classOf, masks, prop, b * BLOCK + j);
      block := block + [classOf[prop(b * BLOCK + j)]];
    }
  }

  method Ascii(masks: seq<Mask>, prop: nat -> Mask, classOf: map<Mask, nat>) returns (ascii: seq<nat>)
    requires Indexed(classOf, masks, |masks|) && forall cp :: 0 <= cp < CODE_POINTS ==> prop(cp) in masks
    ensures |ascii| == 128 && forall i :: 0 <= i < 128 ==> ascii[i] < |masks| && masks[ascii[i]] == prop(i)
  {
    hide Indexed;
    ascii := [];
    for c := 0 to 128
      invariant |ascii| == c && forall i :: 0 <= i < c ==> ascii[i] < |masks| && masks[ascii[i]] == prop(i)
    {
      Has(classOf, masks, prop, c);
      ascii := ascii + [classOf[prop(c)]];
    }
  }

  lemma TablesClassify(t: Classes, dedupe: map<seq<nat>, nat>, masks: seq<Mask>, prop: nat -> Mask)
    requires |t.ascii| == 128 && |t.stage1| == CODE_POINTS / BLOCK
    requires forall i :: 0 <= i < |t.ascii| ==> t.ascii[i] < |masks| && masks[t.ascii[i]] == prop(i)
    requires Tables(t.stage1, t.stage2, dedupe, masks, prop)
    ensures Classifies(t, masks, prop)
  {
    hide Tables, BlockIs;
    forall b | 0 <= b < |t.stage1| ensures (t.stage1[b] + 1) * BLOCK <= |t.stage2| {
      var _ := StoredAt(t, dedupe, masks, prop, b);
    }
    forall cp | 0 <= cp < CODE_POINTS ensures ClassOf(t, cp) < |masks| && masks[ClassOf(t, cp)] == prop(cp) {
      var b, j := cp / BLOCK, cp % BLOCK;
      var block := StoredAt(t, dedupe, masks, prop, b);
      EntryIs(t.stage2, t.stage1[b], block, masks, prop, b * BLOCK, j);
    }
  }

  lemma StoredAt(t: Classes, dedupe: map<seq<nat>, nat>, masks: seq<Mask>, prop: nat -> Mask,
                 b: nat) returns (block: seq<nat>)
    requires Tables(t.stage1, t.stage2, dedupe, masks, prop) && b < |t.stage1|
    ensures BlockAt(t.stage2, t.stage1[b], block) && BlockIs(block, masks, prop, b * BLOCK)
    ensures (t.stage1[b] + 1) * BLOCK <= |t.stage2|
  {
    hide BlockIs;
    assert Stored(t.stage2, t.stage1[b], masks, prop, b);
    block :| BlockAt(t.stage2, t.stage1[b], block) && BlockIs(block, masks, prop, b * BLOCK);
  }

  lemma EntryIs(stage2: seq<nat>, id: nat, block: seq<nat>, masks: seq<Mask>, prop: nat -> Mask, first: nat, j: nat)
    requires BlockAt(stage2, id, block) && BlockIs(block, masks, prop, first) && j < BLOCK
    ensures id * BLOCK + j < |stage2| && stage2[id * BLOCK + j] < |masks|
    ensures masks[stage2[id * BLOCK + j]] == prop(first + j)
  {
    assert stage2[id * BLOCK..(id + 1) * BLOCK][j] == stage2[id * BLOCK + j];
  }

  // ---------------------------------------------------------------------------------------------
  // Compilation
  // ---------------------------------------------------------------------------------------------

  ghost predicate InClasses(cs: seq<nat>, n: nat) {
    forall i :: 0 <= i < |cs| ==> cs[i] < n
  }

  /** The automaton accepts exactly the grammar's words, and stops only where none can follow. */
  ghost predicate Recognizes(a: Automaton, masks: seq<Mask>, grammar: Node) {
    |a.trans| > 0 && forall cs :: InClasses(cs, |masks|) ==> RunRecognizes(a, masks, grammar, cs)
  }

  ghost predicate RunRecognizes(a: Automaton, masks: seq<Mask>, grammar: Node, cs: seq<nat>)
    requires InClasses(cs, |masks|)
  {
    var d := Run(a, cs);
    if d < 0 then forall v :: !Matches(grammar, Word(masks, cs) + v)
    else d < |a.trans| && d < |a.accept| && |a.trans[d]| == |masks|
         && (a.accept[d] <==> Matches(grammar, Word(masks, cs)))
  }

  /** From any grammar: its automaton, or a report that it is too large or accepts the empty string. */
  method CompileGrammar(grammar: Node, masks: seq<Mask>) returns (r: Result)
    requires WellFormed(grammar)
    ensures r.Ok? ==> Recognizes(r.a, masks, grammar) && !Matches(grammar, [])
    ensures r.AcceptsEmpty? ==> Matches(grammar, [])
    ensures r.TooLarge? ==> exists g :: Added(Graph([], []), g, grammar) && TooMany(g, Start(grammar, 0), masks)
    ensures !r.TooLarge? ==> exists g :: Added(Graph([], []), g, grammar) && !TooMany(g, Start(grammar, 0), masks)
  {
    hide *;
    var c := new Compiler();
    var start, accept := c.Compile(grammar);
    ghost var g := c.View();
    CompiledParts(g, grammar);
    ghost var sets;
    r, sets := Construct(c.View(), start, accept, masks);
    FragmentMeaning(g, grammar, 0, []);
    if r.Ok? {
      AutomatonMeaning(g, grammar, masks, r.a, sets);
      FirstMeaning(g, grammar, masks, r.a, sets);
    }
  }

  lemma CompiledParts(g: Graph, grammar: Node)
    requires WellFormed(grammar) && Added(Graph([], []), g, grammar)
    ensures Linked(g) && Start(grammar, 0) < |g.st| && End(grammar, 0) < |g.st| && g.st[End(grammar, 0)] == BLANK
    ensures Frag(g, grammar, 0)
  {
    hide Frag, Linked;
    InRange(grammar, 0);
  }

  lemma FirstMeaning(g: Graph, grammar: Node, masks: seq<Mask>, a: Automaton, sets: seq<set<nat>>)
    requires Built(g, Start(grammar, 0), End(grammar, 0), masks, a, sets)
    requires Leads(g, Start(grammar, 0), [], End(grammar, 0)) <==> Matches(grammar, [])
    requires !(End(grammar, 0) in sets[0])
    ensures !Matches(grammar, [])
  {
    hide Matches, Leads, RowOk;
  }

  /** Meaning is preserved through both translations. */
  lemma AutomatonMeaning(g: Graph, grammar: Node, masks: seq<Mask>, a: Automaton, sets: seq<set<nat>>)
    requires WellFormed(grammar) && Frag(g, grammar, 0) && End(grammar, 0) < |g.st| && g.st[End(grammar, 0)] == BLANK
    requires Built(g, Start(grammar, 0), End(grammar, 0), masks, a, sets)
    ensures Recognizes(a, masks, grammar)
  {
    hide Frag, Matches, Leads, RowOk, IsReadSet, WellFormed;
    forall cs | InClasses(cs, |masks|) ensures RunRecognizes(a, masks, grammar, cs) {
      RunMeaning(g, grammar, masks, a, sets, cs);
    }
  }

  lemma RunMeaning(g: Graph, grammar: Node, masks: seq<Mask>, a: Automaton, sets: seq<set<nat>>, cs: seq<nat>)
    requires WellFormed(grammar) && Frag(g, grammar, 0) && End(grammar, 0) < |g.st| && g.st[End(grammar, 0)] == BLANK
    requires Built(g, Start(grammar, 0), End(grammar, 0), masks, a, sets) && InClasses(cs, |masks|)
    ensures RunRecognizes(a, masks, grammar, cs)
  {
    hide Frag, Matches, Leads, WellFormed, Start, End, EntryOk;
    var s, e, w := Start(grammar, 0), End(grammar, 0), Word(masks, cs);
    RunReads(g, s, e, masks, a, sets, cs);
    var d := Run(a, cs);
    if d < 0 {
      forall v ensures !Matches(grammar, w + v) {
        DeadStays(g, s, w, v);
        FragmentMeaning(g, grammar, 0, w + v);
      }
    } else {
      FragmentMeaning(g, grammar, 0, w);
      assert RowOk(g, masks, sets, d, a.trans[d], |masks|);
    }
  }

  // ---------------------------------------------------------------------------------------------
  // Tokens
  // ---------------------------------------------------------------------------------------------

  datatype RawToken = RawToken(start: nat, end: nat)

  function Units(cp: nat): nat {
    if cp >= 0x10000 then 2 else 1
  }

  /** The position `n` code points after `p`, or the end of the text. */
  function Pos(text: seq<byte>, p: nat, n: nat): (q: nat)
    requires p <= |text|
    ensures p <= q <= |text|
  {
    if n == 0 then p
    else
      var q := Pos(text, p, n - 1);
      if q < |text| then q + Decode(text, q).len else q
  }

  /** The UTF-16 length of `n` code points. */
  function UnitsOf(text: seq<byte>, p: nat, n: nat): nat
    requires p <= |text|
  {
    if n == 0 then 0
    else
      var q := Pos(text, p, n - 1);
      UnitsOf(text, p, n - 1) + if q < |text| then Units(Decode(text, q).cp) else 0
  }

  /** The property masks of `n` code points. */
  function Letters(text: seq<byte>, p: nat, n: nat, prop: nat -> Mask): seq<Mask>
    requires p <= |text|
  {
    if n == 0 then []
    else
      var q := Pos(text, p, n - 1);
      Letters(text, p, n - 1, prop) + if q < |text| then [prop(Decode(text, q).cp)] else []
  }

  /** The grammar matches the `n` code points at `p`, and they fit a token. */
  ghost predicate MatchAt(text: seq<byte>, p: nat, n: nat, grammar: Node, prop: nat -> Mask)
    requires p <= |text|
  {
    && n > 0 && Pos(text, p, n - 1) < |text| && UnitsOf(text, p, n) <= MAX_TOKEN_UNITS
    && Matches(grammar, Letters(text, p, n, prop))
  }

  /** The `n` code points at `p`, or as many as there are. */
  ghost function CodePoints(text: seq<byte>, p: nat, n: nat): (cps: seq<nat>)
    requires p <= |text|
    ensures |cps| <= n
  {
    if n == 0 then []
    else
      var q := Pos(text, p, n - 1);
      CodePoints(text, p, n - 1) + if q < |text| then [Decode(text, q).cp] else []
  }

  ghost function Supplementary(): nat -> bool {
    cp => cp >= 0x10000
  }

  /** What a match is: so many code points, at most 255 UTF-16 units, of which those from U+10000 on have two, whose
      properties spell a word of the grammar. */
  lemma MatchMeaning(text: seq<byte>, p: nat, n: nat, grammar: Node, prop: nat -> Mask)
    requires p <= |text|
    ensures var cps := CodePoints(text, p, n);
            MatchAt(text, p, n, grammar, prop) <==>
              && n > 0 && |cps| == n && n + Count(cps, Supplementary()) <= 255
              && Matches(grammar, seq(|cps|, i requires 0 <= i < |cps| => prop(cps[i])))
  {
    hide Decode, Matches, Count;
    PointsMeaning(text, p, n, prop);
  }

  lemma {:induction false} PointsMeaning(text: seq<byte>, p: nat, n: nat, prop: nat -> Mask)
    requires p <= |text|
    ensures var cps := CodePoints(text, p, n);
            && Letters(text, p, n, prop) == seq(|cps|, i requires 0 <= i < |cps| => prop(cps[i]))
            && UnitsOf(text, p, n) == |cps| + Count(cps, Supplementary())
            && (n > 0 ==> (|cps| == n <==> Pos(text, p, n - 1) < |text|))
            && (|cps| < n ==> Pos(text, p, n) == |text|)
  {
    hide Decode, Count;
    if n == 0 {
      CountNone<nat>([], Supplementary());
    } else {
      PointsMeaning(text, p, n - 1, prop);
      var q := Pos(text, p, n - 1);
      if q < |text| {
        CountNext(CodePoints(text, p, n - 1), Decode(text, q).cp, Supplementary());
      } else {
        assert CodePoints(text, p, n) == CodePoints(text, p, n - 1);
      }
    }
  }

  ghost predicate Longest(text: seq<byte>, p: nat, n: nat, grammar: Node, prop: nat -> Mask)
    requires p <= |text|
  {
    MatchAt(text, p, n, grammar, prop) && forall m :: m > n ==> !MatchAt(text, p, m, grammar, prop)
  }

  /** What tokenizing from `p` gives: where something matches, its longest match, and otherwise one code
      point is skipped. */
  ghost predicate TokensFrom(text: seq<byte>, p: nat, toks: seq<RawToken>, grammar: Node, prop: nat -> Mask)
    requires p <= |text|
    decreases |text| - p
  {
    if p == |text| then toks == []
    else if exists n :: MatchAt(text, p, n, grammar, prop) then
      toks != []
      && (exists n :: LongestTo(text, p, n, toks[0], grammar, prop)
                      && TokensFrom(text, Pos(text, p, n), toks[1..], grammar, prop))
    else TokensFrom(text, p + Decode(text, p).len, toks, grammar, prop)
  }

  ghost predicate LongestTo(text: seq<byte>, p: nat, n: nat, t: RawToken, grammar: Node, prop: nat -> Mask)
    requires p <= |text|
    ensures LongestTo(text, p, n, t, grammar, prop) ==> p < Pos(text, p, n)
  {
    PosRises(text, p, n);
    Longest(text, p, n, grammar, prop) && t == RawToken(p, Pos(text, p, n))
  }

  lemma {:induction false} PosRises(text: seq<byte>, p: nat, n: nat)
    requires p <= |text|
    ensures n > 0 && p < |text| ==> p < Pos(text, p, n)
  {
    if n > 0 {
      PosRises(text, p, n - 1);
    }
  }

  /** Tokens come in order, do not overlap, and hold a match of at most 255 UTF-16 units each. */
  lemma {:induction false} TokensDisjoint(text: seq<byte>, p: nat, toks: seq<RawToken>, grammar: Node,
                                          prop: nat -> Mask)
    requires p <= |text| && TokensFrom(text, p, toks, grammar, prop)
    ensures forall i :: 0 <= i < |toks| ==> p <= toks[i].start < toks[i].end <= |text|
    ensures forall i, j :: 0 <= i < j < |toks| ==> toks[i].end <= toks[j].start
    ensures forall i :: 0 <= i < |toks| ==> IsMatch(text, toks[i], grammar, prop)
    decreases |text| - p
  {
    hide MatchAt, Pos;
    if p < |text| {
      if exists n :: MatchAt(text, p, n, grammar, prop) {
        var n :| LongestTo(text, p, n, toks[0], grammar, prop)
                 && TokensFrom(text, Pos(text, p, n), toks[1..], grammar, prop);
        TokensDisjoint(text, Pos(text, p, n), toks[1..], grammar, prop);
        assert forall i :: 0 < i < |toks| ==> toks[i] == toks[1..][i - 1];
        assert MatchAt(text, p, n, grammar, prop);
      } else {
        TokensDisjoint(text, p + Decode(text, p).len, toks, grammar, prop);
      }
    }
  }

  ghost predicate IsMatch(text: seq<byte>, t: RawToken, grammar: Node, prop: nat -> Mask) {
    t.start <= |text| && exists n :: MatchAt(text, t.start, n, grammar, prop) && t.end == Pos(text, t.start, n)
  }

  /** The scan at `p` after `i` code points: the automaton's state, the units read, and the best match. */
  ghost predicate Scanning(text: seq<byte>, p: nat, i: nat, cs: seq<nat>, masks: seq<Mask>, units: nat, last: int,
                           n: nat, grammar: Node, prop: nat -> Mask)
    requires p <= |text|
  {
    && |cs| == i && InClasses(cs, |masks|) && Word(masks, cs) == Letters(text, p, i, prop)
    && (i > 0 ==> Pos(text, p, i - 1) < |text|)
    && units == UnitsOf(text, p, i) && units <= MAX_TOKEN_UNITS
    && (if n == 0 then last == -1 else n <= i && MatchAt(text, p, n, grammar, prop) && last == Pos(text, p, n))
    && (forall m :: n < m <= i ==> !MatchAt(text, p, m, grammar, prop))
  }

  /** No longer match is possible. */
  ghost predicate Finished(text: seq<byte>, p: nat, i: nat, grammar: Node, prop: nat -> Mask)
    requires p <= |text|
  {
    forall m :: m > i ==> !MatchAt(text, p, m, grammar, prop)
  }

  lemma {:induction false} PosMonotone(text: seq<byte>, p: nat, i: nat, m: nat)
    requires p <= |text| && i <= m
    ensures Pos(text, p, i) <= Pos(text, p, m) && UnitsOf(text, p, i) <= UnitsOf(text, p, m)
    decreases m
  {
    if i < m {
      PosMonotone(text, p, i, m - 1);
    }
  }

  lemma {:induction false} LettersExtend(text: seq<byte>, p: nat, i: nat, m: nat, prop: nat -> Mask)
    requires p <= |text| && i <= m
    ensures Letters(text, p, i, prop) <= Letters(text, p, m, prop)
    decreases m
  {
    if i < m {
      LettersExtend(text, p, i, m - 1, prop);
    }
  }

  lemma TextEnds(text: seq<byte>, p: nat, i: nat, grammar: Node, prop: nat -> Mask)
    requires p <= |text| && Pos(text, p, i) == |text|
    ensures Finished(text, p, i, grammar, prop)
  {
    hide Matches;
    forall m | m > i ensures !MatchAt(text, p, m, grammar, prop) {
      PosMonotone(text, p, i, m - 1);
    }
  }

  lemma TooLong(text: seq<byte>, p: nat, i: nat, grammar: Node, prop: nat -> Mask)
    requires p <= |text| && UnitsOf(text, p, i + 1) > MAX_TOKEN_UNITS
    ensures Finished(text, p, i, grammar, prop)
  {
    hide Matches;
    forall m | m > i ensures !MatchAt(text, p, m, grammar, prop) {
      PosMonotone(text, p, i + 1, m);
    }
  }

  lemma NoTransition(text: seq<byte>, p: nat, i: nat, a: Automaton, masks: seq<Mask>, cs: seq<nat>, grammar: Node,
                     prop: nat -> Mask)
    requires p <= |text| && Recognizes(a, masks, grammar) && InClasses(cs, |masks|) && Run(a, cs) < 0
    requires Word(masks, cs) == Letters(text, p, i + 1, prop)
    ensures Finished(text, p, i, grammar, prop)
  {
    hide Matches, Run, Pos, UnitsOf;
    assert RunRecognizes(a, masks, grammar, cs);
    forall m | m > i ensures !MatchAt(text, p, m, grammar, prop) {
      LettersExtend(text, p, i + 1, m, prop);
      var w, l := Letters(text, p, i + 1, prop), Letters(text, p, m, prop);
      assert l == w + l[|w|..];
    }
  }

  /** One more code point. */
  lemma NextLetter(text: seq<byte>, p: nat, i: nat, masks: seq<Mask>, cs: seq<nat>, c: nat, prop: nat -> Mask)
    requires p <= |text| && |cs| == i && InClasses(cs, |masks|) && Word(masks, cs) == Letters(text, p, i, prop)
    requires Pos(text, p, i) < |text| && c < |masks| && masks[c] == prop(Decode(text, Pos(text, p, i)).cp)
    ensures InClasses(cs + [c], |masks|) && Word(masks, cs + [c]) == Letters(text, p, i + 1, prop)
    ensures UnitsOf(text, p, i + 1) == UnitsOf(text, p, i) + Units(Decode(text, Pos(text, p, i)).cp)
    ensures Pos(text, p, i + 1) == Pos(text, p, i) + Decode(text, Pos(text, p, i)).len
  {
    assert Word(masks, cs + [c]) == Word(masks, cs) + [masks[c]];
  }

  lemma RunSnoc(a: Automaton, masks: seq<Mask>, grammar: Node, cs: seq<nat>, c: nat)
    requires Recognizes(a, masks, grammar) && InClasses(cs, |masks|) && Run(a, cs) >= 0 && c < |masks|
    ensures Run(a, cs) < |a.trans| && c < |a.trans[Run(a, cs)]| && Run(a, cs + [c]) == a.trans[Run(a, cs)][c]
    ensures InClasses(cs + [c], |masks|)
    ensures Run(a, cs + [c]) >= 0 ==> Run(a, cs + [c]) < |a.accept|
    ensures Run(a, cs + [c]) >= 0 ==> (a.accept[Run(a, cs + [c])] <==> Matches(grammar, Word(masks, cs + [c])))
  {
    hide Matches;
    assert RunRecognizes(a, masks, grammar, cs);
    assert (cs + [c])[..|cs|] == cs;
    assert InClasses(cs + [c], |masks|);
    assert RunRecognizes(a, masks, grammar, cs + [c]);
  }

  lemma FirstRun(a: Automaton)
    ensures Run(a, []) == 0
  {
  }

  lemma ScanStarts(text: seq<byte>, p: nat, masks: seq<Mask>, grammar: Node, prop: nat -> Mask)
    requires p <= |text|
    ensures Scanning(text, p, 0, [], masks, 0, -1, 0, grammar, prop) && Pos(text, p, 0) == p
  {
  }

  /** Reading one more code point, accepting or not. */
  lemma ScanNext(text: seq<byte>, p: nat, i: nat, cs: seq<nat>, c: nat, masks: seq<Mask>, units: nat, last: int, n: nat,
                 accepted: bool, grammar: Node, prop: nat -> Mask)
    requires p <= |text| && Scanning(text, p, i, cs, masks, units, last, n, grammar, prop)
    requires Pos(text, p, i) < |text| && c < |masks| && masks[c] == prop(Decode(text, Pos(text, p, i)).cp)
    requires units + Units(Decode(text, Pos(text, p, i)).cp) <= MAX_TOKEN_UNITS && InClasses(cs + [c], |masks|)
    requires accepted <==> Matches(grammar, Word(masks, cs + [c]))
    ensures Scanning(text, p, i + 1, cs + [c], masks, units + Units(Decode(text, Pos(text, p, i)).cp),
                     if accepted then Pos(text, p, i + 1) else last, if accepted then i + 1 else n, grammar, prop)
  {
    hide Matches, Letters, Pos, UnitsOf;
    NextLetter(text, p, i, masks, cs, c, prop);
  }

  /** The inner loop of tokenize: the longest match at `p`, or -1. */
  method Scan(text: seq<byte>, p0: nat, t: Classes, a: Automaton, ghost masks: seq<Mask>, ghost grammar: Node,
              ghost prop: nat -> Mask) returns (last: int, ghost n: nat)
    requires p0 < |text| && Classifies(t, masks, prop) && Recognizes(a, masks, grammar)
    ensures if last < 0 then forall m :: !MatchAt(text, p0, m, grammar, prop)
            else Longest(text, p0, n, grammar, prop) && last == Pos(text, p0, n)
  {
    hide *;
    var state, p, units: nat := 0, p0, 0;
    last, n := -1, 0;
    ghost var i: nat, cs: seq<nat> := 0, [];
    ScanStarts(text, p0, masks, grammar, prop);
    FirstRun(a);
    ghost var finished := false;
    while p < |text|
      invariant p == Pos(text, p0, i) && state == Run(a, cs) >= 0 && InClasses(cs, |masks|) && 0 <= p <= |text|
      invariant Scanning(text, p0, i, cs, masks, units, last, n, grammar, prop)
      decreases |text| - p
    {
      var d := Decode(text, p);
      var u := Units(d.cp);
      ScanParts(text, p0, i, cs, masks, units, last, n, grammar, prop);
      ClassIs(t, masks, prop, d.cp);
      var c := ClassOf(t, d.cp);
      NextLetter(text, p0, i, masks, cs, c, prop);
      if units + u > MAX_TOKEN_UNITS {
        TooLong(text, p0, i, grammar, prop);
        finished := true;
        break;
      }
      RunSnoc(a, masks, grammar, cs, c);
      var ns := a.trans[state][c];
      if ns < 0 {
        NoTransition(text, p0, i, a, masks, cs + [c], grammar, prop);
        finished := true;
        break;
      }
      ScanNext(text, p0, i, cs, c, masks, units, last, n, a.accept[ns], grammar, prop);
      state := ns;
      p := p + d.len;
      units := units + u;
      i, cs := i + 1, cs + [c];
      if a.accept[state] {
        last, n := p, i;
      }
    }
    if !finished {
      TextEnds(text, p0, i, grammar, prop);
    }
    ScanEnds(text, p0, i, cs, masks, units, last, n, grammar, prop);
  }

  lemma ScanParts(text: seq<byte>, p: nat, i: nat, cs: seq<nat>, masks: seq<Mask>, units: nat, last: int, n: nat,
                  grammar: Node, prop: nat -> Mask)
    requires p <= |text| && Scanning(text, p, i, cs, masks, units, last, n, grammar, prop)
    ensures |cs| == i && InClasses(cs, |masks|) && Word(masks, cs) == Letters(text, p, i, prop)
    ensures units == UnitsOf(text, p, i)
  {
  }

  lemma ClassIs(t: Classes, masks: seq<Mask>, prop: nat -> Mask, cp: nat)
    requires Classifies(t, masks, prop) && cp < CODE_POINTS
    ensures ClassesReady(t) && ClassOf(t, cp) < |masks| && masks[ClassOf(t, cp)] == prop(cp)
  {
  }

  lemma ScanEnds(text: seq<byte>, p: nat, i: nat, cs: seq<nat>, masks: seq<Mask>, units: nat, last: int, n: nat,
                 grammar: Node, prop: nat -> Mask)
    requires p <= |text| && Scanning(text, p, i, cs, masks, units, last, n, grammar, prop)
    requires Finished(text, p, i, grammar, prop)
    ensures if last < 0 then forall m :: !MatchAt(text, p, m, grammar, prop)
            else Longest(text, p, n, grammar, prop) && last == Pos(text, p, n)
  {
    hide Matches, Letters, UnitsOf;
  }

  /** tokenize. */
  method Tokenize(text: seq<byte>, t: Classes, a: Automaton, ghost masks: seq<Mask>, ghost grammar: Node,
                  ghost prop: nat -> Mask) returns (out: seq<RawToken>)
    requires Classifies(t, masks, prop) && Recognizes(a, masks, grammar)
    ensures TokensFrom(text, 0, out, grammar, prop)
  {
    hide *;
    out := [];
    var pos := 0;
    SplitsNone(text, grammar, prop);
    while pos < |text|
      invariant 0 <= pos <= |text| && Splits(text, pos, out, grammar, prop)
      decreases |text| - pos
    {
      var last;
      ghost var n;
      last, n := Scan(text, pos, t, a, masks, grammar, prop);
      if last >= 0 {
        SplitsToken(text, pos, n, out, grammar, prop);
        out := out + [RawToken(pos, last)];
        pos := last;
      } else {
        SplitsSkip(text, pos, out, grammar, prop);
        var d := Decode(text, pos);
        pos := pos + d.len;
      }
    }
    SplitsAll(text, out, grammar, prop);
  }

  /** Tokens `out` lead to position `p`: whatever tokens follow from there complete them. */
  ghost predicate Splits(text: seq<byte>, p: nat, out: seq<RawToken>, grammar: Node, prop: nat -> Mask)
    requires p <= |text|
  {
    forall rest :: TokensFrom(text, p, rest, grammar, prop) ==> TokensFrom(text, 0, out + rest, grammar, prop)
  }

  lemma SplitsNone(text: seq<byte>, grammar: Node, prop: nat -> Mask)
    ensures Splits(text, 0, [], grammar, prop)
  {
    hide TokensFrom;
    forall rest | TokensFrom(text, 0, rest, grammar, prop) ensures TokensFrom(text, 0, [] + rest, grammar, prop) {
      assert [] + rest == rest;
    }
  }

  lemma SplitsToken(text: seq<byte>, p: nat, n: nat, out: seq<RawToken>, grammar: Node, prop: nat -> Mask)
    requires p < |text| && Splits(text, p, out, grammar, prop) && Longest(text, p, n, grammar, prop)
    ensures p < Pos(text, p, n) && Splits(text, Pos(text, p, n), out + [RawToken(p, Pos(text, p, n))], grammar, prop)
  {
    PosRises(text, p, n);
    hide MatchAt, Pos, TokensFrom;
    LongestPositive(text, p, n, grammar, prop);
    var q := Pos(text, p, n);
    forall rest | TokensFrom(text, q, rest, grammar, prop)
      ensures TokensFrom(text, 0, (out + [RawToken(p, q)]) + rest, grammar, prop)
    {
      var more := [RawToken(p, q)] + rest;
      TokenFirst(text, p, n, rest, grammar, prop);
      assert (out + [RawToken(p, q)]) + rest == out + more;
    }
  }

  lemma LongestPositive(text: seq<byte>, p: nat, n: nat, grammar: Node, prop: nat -> Mask)
    requires p <= |text| && Longest(text, p, n, grammar, prop)
    ensures n > 0
  {
  }

  lemma TokenFirst(text: seq<byte>, p: nat, n: nat, rest: seq<RawToken>, grammar: Node, prop: nat -> Mask)
    requires p < |text| && Longest(text, p, n, grammar, prop) && TokensFrom(text, Pos(text, p, n), rest, grammar, prop)
    ensures TokensFrom(text, p, [RawToken(p, Pos(text, p, n))] + rest, grammar, prop)
  {
    hide MatchAt, Pos;
    var more := [RawToken(p, Pos(text, p, n))] + rest;
    assert LongestTo(text, p, n, more[0], grammar, prop) && more[1..] == rest;
  }

  lemma SplitsSkip(text: seq<byte>, p: nat, out: seq<RawToken>, grammar: Node, prop: nat -> Mask)
    requires p < |text| && Splits(text, p, out, grammar, prop) && forall m :: !MatchAt(text, p, m, grammar, prop)
    ensures Splits(text, p + Decode(text, p).len, out, grammar, prop)
  {
    hide MatchAt, Pos;
    forall rest | TokensFrom(text, p + Decode(text, p).len, rest, grammar, prop)
      ensures TokensFrom(text, 0, out + rest, grammar, prop)
    {
      assert TokensFrom(text, p, rest, grammar, prop);
    }
  }

  lemma SplitsAll(text: seq<byte>, out: seq<RawToken>, grammar: Node, prop: nat -> Mask)
    requires Splits(text, |text|, out, grammar, prop)
    ensures TokensFrom(text, 0, out, grammar, prop)
  {
    assert TokensFrom(text, |text|, [], grammar, prop);
    assert out + [] == out;
  }
}
