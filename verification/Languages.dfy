/** The languages of regular expressions, by cutting words into parts. */
module Languages {
  import opened Regex

  function Joined(parts: seq<seq<Mask>>): seq<Mask> {
    if parts == [] then [] else parts[0] + Joined(parts[1..])
  }

  /** `parts` cut `w` into words of `k`. */
  ghost predicate Cuts(k: Node, w: seq<Mask>, parts: seq<seq<Mask>>) {
    Joined(parts) == w && forall i :: 0 <= i < |parts| ==> Matches(k, parts[i])
  }

  lemma CutsMore(k: Node, w: seq<Mask>, head: seq<Mask>, parts: seq<seq<Mask>>)
    ensures Matches(k, head) && Cuts(k, w, parts) ==> Cuts(k, head + w, [head] + parts)
    ensures parts != [] && Cuts(k, w, parts) ==>
              Matches(k, parts[0]) && w == parts[0] + Joined(parts[1..]) && Cuts(k, Joined(parts[1..]), parts[1..])
  {
    hide Matches;
    assert ([head] + parts)[1..] == parts;
  }

  lemma {:induction false} ManyAreCut(k: Node, w: seq<Mask>) returns (parts: seq<seq<Mask>>)
    requires MatchesMany(k, w)
    ensures Cuts(k, w, parts)
    decreases |w|
  {
    hide Matches;
    parts := [];
    if w != [] {
      var i :| 0 < i <= |w| && Matches(k, w[..i]) && MatchesMany(k, w[i..]);
      parts := ManyAreCut(k, w[i..]);
      CutsMore(k, w[i..], w[..i], parts);
      assert w == w[..i] + w[i..];
      parts := [w[..i]] + parts;
    }
  }

  lemma {:induction false} CutsAreMany(k: Node, w: seq<Mask>, parts: seq<seq<Mask>>)
    requires Cuts(k, w, parts)
    ensures MatchesMany(k, w)
    decreases |parts|
  {
    hide Matches;
    if parts != [] {
      var head, rest := parts[0], Joined(parts[1..]);
      CutsMore(k, w, [], parts);
      CutsAreMany(k, rest, parts[1..]);
      if head == [] {
        assert w == rest;
      } else {
        assert w[..|head|] == head && w[|head|..] == rest;
      }
    }
  }

  /** Star: any number of words, one after another. */
  lemma StarMeaning(k: Node, w: seq<Mask>)
    ensures Matches(Star(k), w) <==> exists parts :: Cuts(k, w, parts)
  {
    hide Cuts;
    if MatchesMany(k, w) {
      var parts := ManyAreCut(k, w);
    }
    forall parts | Cuts(k, w, parts) ensures MatchesMany(k, w) {
      CutsAreMany(k, w, parts);
    }
  }

  /** Plus: one word or more. */
  lemma PlusMeaning(k: Node, w: seq<Mask>)
    ensures Matches(Plus(k), w) <==> exists parts :: parts != [] && Cuts(k, w, parts)
  {
    if Matches(Plus(k), w) {
      var i :| 0 <= i <= |w| && Matches(k, w[..i]) && MatchesMany(k, w[i..]);
      PlusIsCut(k, w, i);
    }
    forall parts | parts != [] && Cuts(k, w, parts) ensures Matches(Plus(k), w) {
      CutIsPlus(k, w, parts);
    }
  }

  lemma PlusIsCut(k: Node, w: seq<Mask>, i: nat)
    requires i <= |w| && Matches(k, w[..i]) && MatchesMany(k, w[i..])
    ensures exists parts :: parts != [] && Cuts(k, w, parts)
  {
    hide Matches;
    var parts := ManyAreCut(k, w[i..]);
    CutsMore(k, w[i..], w[..i], parts);
    assert w == w[..i] + w[i..];
    assert [w[..i]] + parts != [] && Cuts(k, w, [w[..i]] + parts);
  }

  lemma CutIsPlus(k: Node, w: seq<Mask>, parts: seq<seq<Mask>>)
    requires parts != [] && Cuts(k, w, parts)
    ensures Matches(Plus(k), w)
  {
    var head, rest := parts[0], Joined(parts[1..]);
    CutsMore(k, w, [], parts);
    CutsAreMany(k, rest, parts[1..]);
    assert w[..|head|] == head && w[|head|..] == rest;
  }

  function Listed(kids: Kids): (ks: seq<Node>) {
    if kids.Nil? then [] else [kids.head] + Listed(kids.tail)
  }

  /** `parts` cut `w` into a word of each part of a concatenation. */
  ghost predicate CutsEach(ks: seq<Node>, w: seq<Mask>, parts: seq<seq<Mask>>) {
    Joined(parts) == w && |parts| == |ks| && forall i :: 0 <= i < |parts| ==> Matches(ks[i], parts[i])
  }

  /** Concatenation: a word of each part, in order. */
  lemma CatMeaning(kids: Kids, w: seq<Mask>)
    ensures Matches(Cat(kids), w) <==> exists parts :: CutsEach(Listed(kids), w, parts)
  {
    hide CutsEach;
    if MatchesAll(kids, w) {
      var parts := CatIsCut(kids, w);
    }
    forall parts | CutsEach(Listed(kids), w, parts) ensures MatchesAll(kids, w) {
      CutIsCat(kids, w, parts);
    }
  }

  lemma {:induction false} CatIsCut(kids: Kids, w: seq<Mask>) returns (parts: seq<seq<Mask>>)
    requires MatchesAll(kids, w)
    ensures CutsEach(Listed(kids), w, parts)
    decreases kids
  {
    hide Matches;
    parts := [];
    if kids.Cons? {
      var i :| 0 <= i <= |w| && Matches(kids.head, w[..i]) && MatchesAll(kids.tail, w[i..]);
      parts := CatIsCut(kids.tail, w[i..]);
      assert Listed(kids)[1..] == Listed(kids.tail);
      EachMore(Listed(kids), w[i..], w[..i], parts);
      assert w == w[..i] + w[i..];
      parts := [w[..i]] + parts;
    }
  }

  lemma {:induction false} CutIsCat(kids: Kids, w: seq<Mask>, parts: seq<seq<Mask>>)
    requires CutsEach(Listed(kids), w, parts)
    ensures MatchesAll(kids, w)
    decreases kids
  {
    hide Matches;
    if kids.Cons? {
      var head, rest := parts[0], Joined(parts[1..]);
      EachLess(Listed(kids), w, parts);
      assert Listed(kids)[1..] == Listed(kids.tail);
      CutIsCat(kids.tail, rest, parts[1..]);
      assert w[..|head|] == head && w[|head|..] == rest;
    }
  }

  lemma EachMore(ks: seq<Node>, w: seq<Mask>, head: seq<Mask>, parts: seq<seq<Mask>>)
    requires ks != [] && Matches(ks[0], head) && CutsEach(ks[1..], w, parts)
    ensures CutsEach(ks, head + w, [head] + parts)
  {
    hide Matches;
    assert ([head] + parts)[1..] == parts;
    forall i | 0 <= i < |[head] + parts| ensures Matches(ks[i], ([head] + parts)[i]) {
      assert i > 0 ==> ks[1..][i - 1] == ks[i];
    }
  }

  lemma EachLess(ks: seq<Node>, w: seq<Mask>, parts: seq<seq<Mask>>)
    requires ks != [] && CutsEach(ks, w, parts)
    ensures Matches(ks[0], parts[0]) && w == parts[0] + Joined(parts[1..])
    ensures CutsEach(ks[1..], Joined(parts[1..]), parts[1..])
  {
    hide Matches;
  }

  /** Alternatives: a word of one of them. */
  lemma {:induction false} AltMeaning(kids: Kids, w: seq<Mask>)
    ensures Matches(Alt(kids), w) <==> exists k :: k in Listed(kids) && Matches(k, w)
    decreases kids
  {
    if kids.Cons? {
      AltMeaning(kids.tail, w);
      assert kids.head in Listed(kids);
    }
  }

  /** One letter, and at most one word. */
  lemma SymbolMeaning(p: Pred, k: Node, w: seq<Mask>)
    ensures Matches(Sym(p), w) <==> exists m: Mask :: w == [m] && p.Holds(m)
    ensures Matches(Opt(k), w) <==> w == [] || Matches(k, w)
  {
    if |w| == 1 {
      assert w == [w[0]];
    }
  }
}
