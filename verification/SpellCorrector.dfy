/** broker/HybridSearch.Broker/Autocomplete/SpellCorrector.cs: correction by symmetric deletes. */
module SpellCorrector {
  import opened Wrappers
  import opened EditDistance

  const MAX_DISTANCE: nat := 2
  const PREFIX_LENGTH: nat := 7

  /** What the runtime supplies: which characters are letters, and a hash of strings. */
  datatype Runtime = Runtime(isLetter: char -> bool, hash: string -> nat)

  predicate IsCorrectable(rt: Runtime, w: string) {
    3 <= |w| <= 30 && forall i :: 0 <= i < |w| ==> rt.isLetter(w[i])
  }

  function Key(w: string): string {
    if |w| > PREFIX_LENGTH then w[..PREFIX_LENGTH] else w
  }

  // ---------------------------------------------------------------------------------------------
  // Delete sets
  // ---------------------------------------------------------------------------------------------

  /** Deleting at most two characters of `key` can leave `c`. */
  ghost predicate IsDelete(c: string, key: string) {
    Subseq(c, key) && |key| - |c| <= MAX_DISTANCE
  }

  /** The single deletions of `t` are in the set, where deletions stop at length `floor` and at one
      character. */
  ghost predicate Closed(t: string, items: set<string>, floor: int) {
    |t| > floor && |t| > 1 ==> forall i :: 0 <= i < |t| ==> Remove(t, i) in items
  }

  ghost predicate ClosedBelow(items: set<string>, n: nat, floor: int) {
    forall t :: t in items && |t| < n ==> Closed(t, items, floor)
  }

  lemma ClosedStays(t: string, items: set<string>, more: set<string>, floor: int)
    requires Closed(t, items, floor) && items <= more
    ensures Closed(t, more, floor)
  {
  }

  lemma RemoveIsSubseq(s: string, i: nat)
    requires i < |s|
    ensures |Remove(s, i)| == |s| - 1 && Subseq(Remove(s, i), s)
  {
    var t, x := s[..|s| - 1], s[|s| - 1];
    assert s == t + [x];
    SubseqSelf(t);
    if i == |s| - 1 {
      assert Remove(s, i) == t;
      SubseqSnoc(t, t, x);
    } else {
      RemoveIsSubseq(t, i);
      SubseqSnoc(Remove(t, i), t, x);
      assert Remove(s, i) == Remove(t, i) + [x];
    }
  }

  lemma {:induction false} SubseqSelf(s: string)
    ensures Subseq(s, s)
  {
    if s != "" {
      SubseqSelf(s[..|s| - 1]);
    }
  }

  lemma {:induction false} SubseqTransitive(a: string, b: string, c: string)
    requires Subseq(a, b) && Subseq(b, c)
    ensures Subseq(a, c)
    decreases |c|
  {
    if a != "" {
      var b', c' := b[..|b| - 1], c[..|c| - 1];
      if Subseq(b, c') {
        SubseqTransitive(a, b, c');
      } else if Subseq(a, b') {
        SubseqTransitive(a, b', c');
      } else {
        SubseqTransitive(a[..|a| - 1], b', c');
      }
    }
  }

  class DeleteSet {
    var items: set<string>

    constructor (key: string)
      ensures items == {key}
    {
      items := {key};
    }

    /** Add the deletions of `s`, not expanding a string again once it is in the set.  Since the depth
        left depends only on a string's length, a string found in the set has been expanded fully. */
    method AddDeletes(s: string, depth: nat, ghost floor: int)
      requires depth == |s| - floor && s in items && ClosedBelow(items, |s|, floor)
      modifies this
      ensures old(items) <= items && ClosedBelow(items, |s|, floor) && Closed(s, items, floor)
      ensures forall t :: t in items && t !in old(items) ==> floor <= |t| < |s| && Subseq(t, s)
      decreases depth
    {
      hide Subseq;
      if depth == 0 || |s| <= 1 {
        return;
      }
      for i := 0 to |s|
        invariant old(items) <= items && ClosedBelow(items, |s|, floor)
        invariant forall j :: 0 <= j < i ==> Remove(s, j) in items
        invariant forall t :: t in items && t !in old(items) ==> floor <= |t| < |s| && Subseq(t, s)
      {
        var d := Remove(s, i);
        RemoveIsSubseq(s, i);
        if d !in items {
          AddNew(s, i, d, depth, floor);
        }
      }
    }

    method AddNew(s: string, i: nat, d: string, depth: nat, ghost floor: int)
      requires 0 < depth == |s| - floor && |s| > 1 && i < |s| && d == Remove(s, i) && d !in items && Subseq(d, s)
      requires ClosedBelow(items, |s|, floor)
      modifies this
      ensures old(items) <= items && d in items && ClosedBelow(items, |s|, floor)
      ensures forall t :: t in items && t !in old(items) ==> floor <= |t| < |s| && Subseq(t, s)
      decreases depth, 0
    {
      hide Subseq;
      ghost var before := items;
      items := items + {d};
      forall t | t in items && |t| < |d| ensures Closed(t, items, floor) {
        ClosedStays(t, before, items, floor);
      }
      ghost var between := items;
      AddDeletes(d, depth - 1, floor);
      forall t | t in items && |t| < |s| ensures Closed(t, items, floor) {
        if t in before {
          ClosedStays(t, before, items, floor);
        }
      }
      forall t | t in items && t !in before ensures floor <= |t| < |s| && Subseq(t, s) {
        if t != d {
          SubseqTransitive(t, d, s);
        }
      }
    }
  }

  /** Whatever the shared set cut short, every deletion was reached. */
  lemma {:induction false} ClosedHasAll(items: set<string>, n: nat, floor: int, t: string, c: string)
    requires ClosedBelow(items, n, floor) && t in items && |t| < n
    requires Subseq(c, t) && |c| >= floor && c != ""
    ensures c in items
    decreases |t|
  {
    SubseqLength(c, t);
    if |c| < |t| {
      var i := SubseqOfRemoved(c, t);
      assert Closed(t, items, floor);
      ClosedHasAll(items, n, floor, Remove(t, i), c);
    }
  }

  /** The deletions of a word's key: exactly the strings that at most two deletions leave. */
  method Deletes(word: string) returns (items: set<string>)
    requires |word| >= 3
    ensures forall c :: c in items <==> IsDelete(c, Key(word))
  {
    var key := Key(word);
    var into := new DeleteSet(key);
    ghost var floor := |key| - MAX_DISTANCE;
    into.AddDeletes(key, MAX_DISTANCE, floor);
    items := into.items;
    SubseqSelf(key);
    forall t | t in items && |t| < |key| + 1 ensures Closed(t, items, floor) {
      if |t| == |key| {
        assert t == key;
      }
    }
    forall c ensures c in items <==> IsDelete(c, key) {
      if IsDelete(c, key) {
        ClosedHasAll(items, |key| + 1, floor, key, c);
      }
    }
  }

  /** Words within distance two of each other share a deletion of their seven-character keys. */
  lemma DeletesMeet(a: string, b: string) returns (c: string)
    requires Distance(a, b) <= MAX_DISTANCE
    ensures IsDelete(c, Key(a)) && IsDelete(c, Key(b))
  {
    c := CommonPart(a, b, |a|, |b|, PREFIX_LENGTH);
    assert Cut(a, |a|, PREFIX_LENGTH) == Key(a) && Cut(b, |b|, PREFIX_LENGTH) == Key(b);
  }

  // ---------------------------------------------------------------------------------------------
  // The delete index
  // ---------------------------------------------------------------------------------------------

  datatype Entry = Entry(hash: nat, word: nat)

  predicate EntryLeq(a: Entry, b: Entry) {
    a.hash < b.hash || (a.hash == b.hash && a.word <= b.word)
  }

  predicate EntriesSorted(s: seq<Entry>) {
    forall i, j :: 0 <= i < j < |s| ==> EntryLeq(s[i], s[j])
  }

  function InsertEntry(s: seq<Entry>, e: Entry): (r: seq<Entry>)
    ensures |r| == |s| + 1 && forall x :: x in r <==> x in s || x == e
  {
    if s == [] || EntryLeq(e, s[0]) then [e] + s else [s[0]] + InsertEntry(s[1..], e)
  }

  lemma {:induction false} InsertSorted(s: seq<Entry>, e: Entry)
    requires EntriesSorted(s)
    ensures EntriesSorted(InsertEntry(s, e))
  {
    if s != [] && !EntryLeq(e, s[0]) {
      var t := InsertEntry(s[1..], e);
      InsertSorted(s[1..], e);
      forall i | 0 <= i < |t| ensures EntryLeq(s[0], t[i]) {
        assert t[i] in t;
      }
    } else if s != [] {
      forall i | 0 <= i < |s| ensures EntryLeq(e, s[i]) {
        assert i == 0 || EntryLeq(s[0], s[i]);
      }
    }
  }

  /** pairs.Sort: by hash, then by word. */
  function SortEntries(s: seq<Entry>): (r: seq<Entry>)
    ensures |r| == |s| && forall x :: x in r <==> x in s
  {
    if s == [] then [] else InsertEntry(SortEntries(s[..|s| - 1]), s[|s| - 1])
  }

  lemma {:induction false} SortsEntries(s: seq<Entry>)
    ensures EntriesSorted(SortEntries(s))
  {
    if s != [] {
      SortsEntries(s[..|s| - 1]);
      InsertSorted(SortEntries(s[..|s| - 1]), s[|s| - 1]);
    }
  }

  /** The corrector's arrays. */
  datatype Corrector = Corrector(words: seq<string>, freq: seq<int>, deletes: seq<Entry>)

  /** Entry (h, w) is in the index exactly if h is the hash of a deletion of word w. */
  ghost predicate Indexed(rt: Runtime, c: Corrector) {
    && |c.words| == |c.freq| && EntriesSorted(c.deletes)
    && (forall w :: 0 <= w < |c.words| ==> IsCorrectable(rt, c.words[w]))
    && (forall i :: 0 <= i < |c.deletes| ==> c.deletes[i].word < |c.words|)
    && (forall w, d :: 0 <= w < |c.words| && IsDelete(d, Key(c.words[w])) ==> Entry(rt.hash(d), w) in c.deletes)
    && (forall i :: 0 <= i < |c.deletes| ==> FromDelete(rt, c.words, c.deletes[i]))
  }

  ghost predicate FromDelete(rt: Runtime, words: seq<string>, e: Entry) {
    e.word < |words| && exists d :: IsDelete(d, Key(words[e.word])) && e.hash == rt.hash(d)
  }

  datatype WordCount = WordCount(word: string, count: int)

  /** The correction targets: correctable words that are frequent enough. */
  function Targets(rt: Runtime, counts: seq<WordCount>, minFrequency: int): seq<WordCount> {
    if counts == [] then []
    else
      var rest, x := Targets(rt, counts[..|counts| - 1], minFrequency), counts[|counts| - 1];
      if x.count < minFrequency || !IsCorrectable(rt, x.word) then rest else rest + [x]
  }

  /** The targets are the words counted at least `minFrequency` times that have 3 to 30 characters, all letters. */
  lemma {:induction false} TargetsMeaning(rt: Runtime, counts: seq<WordCount>, minFrequency: int, x: WordCount)
    ensures multiset(Targets(rt, counts, minFrequency))[x]
         == if && x.count >= minFrequency && 3 <= |x.word| <= 30
               && (forall i :: 0 <= i < |x.word| ==> rt.isLetter(x.word[i]))
            then multiset(counts)[x] else 0
  {
    if counts != [] {
      var n := |counts| - 1;
      TargetsMeaning(rt, counts[..n], minFrequency, x);
      assert counts == counts[..n] + [counts[n]];
    }
  }

  method Build(rt: Runtime, counts: seq<WordCount>, minFrequency: int) returns (c: Corrector)
    ensures Indexed(rt, c)
    ensures var ts := Targets(rt, counts, minFrequency);
            |c.words| == |ts| && forall i :: 0 <= i < |ts| ==> WordCount(c.words[i], c.freq[i]) == ts[i]
  {
    hide IsCorrectable, IsDelete;
    var words, freq := [], [];
    for i := 0 to |counts|
      invariant var ts := Targets(rt, counts[..i], minFrequency);
                |words| == |freq| == |ts| && forall j :: 0 <= j < |ts| ==> WordCount(words[j], freq[j]) == ts[j]
      invariant forall w :: 0 <= w < |words| ==> IsCorrectable(rt, words[w])
    {
      assert counts[..i + 1][..i] == counts[..i];
      if counts[i].count >= minFrequency && IsCorrectable(rt, counts[i].word) {
        words, freq := words + [counts[i].word], freq + [counts[i].count];
      }
    }
    assert counts[..|counts|] == counts;
    var pairs := [];
    for w := 0 to |words|
      invariant PairsTo(rt, words, w, pairs)
    {
      pairs := AddWord(rt, words, w, pairs);
    }
    c := Corrector(words, freq, SortEntries(pairs));
    SortedIndex(rt, c, pairs);
  }

  /** Entries of the first `n` words. */
  ghost predicate PairsTo(rt: Runtime, words: seq<string>, n: nat, pairs: seq<Entry>)
    requires n <= |words|
  {
    && (forall i :: 0 <= i < |pairs| ==> pairs[i].word < n && FromDelete(rt, words, pairs[i]))
    && (forall w, d :: 0 <= w < n && IsDelete(d, Key(words[w])) ==> Entry(rt.hash(d), w) in pairs)
  }

  method AddWord(rt: Runtime, words: seq<string>, w: nat, pairs0: seq<Entry>) returns (pairs: seq<Entry>)
    requires w < |words| && IsCorrectable(rt, words[w]) && PairsTo(rt, words, w, pairs0)
    ensures PairsTo(rt, words, w + 1, pairs)
  {
    hide IsDelete;
    pairs := pairs0;
    var rest := Deletes(words[w]);
    ghost var done: set<string> := {};
    ghost var all := rest;
    while rest != {}
      invariant rest + done == all
      invariant forall i :: 0 <= i < |pairs| ==> pairs[i].word <= w && FromDelete(rt, words, pairs[i])
      invariant forall v, d :: 0 <= v < w && IsDelete(d, Key(words[v])) ==> Entry(rt.hash(d), v) in pairs
      invariant forall d :: d in done ==> Entry(rt.hash(d), w) in pairs
      decreases rest
    {
      var d :| d in rest;
      rest, done := rest - {d}, done + {d};
      assert FromDelete(rt, words, Entry(rt.hash(d), w));
      pairs := pairs + [Entry(rt.hash(d), w)];
    }
  }

  lemma SortedIndex(rt: Runtime, c: Corrector, pairs: seq<Entry>)
    requires |c.words| == |c.freq| && PairsTo(rt, c.words, |c.words|, pairs) && c.deletes == SortEntries(pairs)
    requires forall w :: 0 <= w < |c.words| ==> IsCorrectable(rt, c.words[w])
    ensures Indexed(rt, c)
  {
    hide IsDelete, IsCorrectable, EntriesSorted, FromDelete, SortEntries;
    SortsEntries(pairs);
    forall i | 0 <= i < |c.deletes| ensures c.deletes[i].word < |c.words| && FromDelete(rt, c.words, c.deletes[i]) {
      assert c.deletes[i] in pairs;
    }
  }

  /** The first entry at or after hash `h`. */
  method LowerBound(deletes: seq<Entry>, h: nat) returns (lo: nat)
    requires EntriesSorted(deletes)
    ensures lo <= |deletes|
    ensures forall i :: 0 <= i < lo ==> deletes[i].hash < h
    ensures forall i :: lo <= i < |deletes| ==> deletes[i].hash >= h
  {
    lo := 0;
    var hi := |deletes|;
    while lo < hi
      invariant lo <= hi <= |deletes|
      invariant forall i :: 0 <= i < lo ==> deletes[i].hash < h
      invariant forall i :: hi <= i < |deletes| ==> deletes[i].hash >= h
    {
      var mid := (lo + hi) / 2;
      if deletes[mid].hash < h {
        lo := mid + 1;
      } else {
        hi := mid;
      }
    }
  }

  // ---------------------------------------------------------------------------------------------
  // The best correction
  // ---------------------------------------------------------------------------------------------

  /** string.CompareOrdinal(a, b) < 0. */
  predicate OrdinalLess(a: string, b: string) {
    if b == "" then false
    else if a == "" then true
    else if a[0] != b[0] then a[0] < b[0]
    else OrdinalLess(a[1..], b[1..])
  }

  /** `a` ends, or has the smaller character, where the words first differ. */
  ghost predicate FirstDiffer(a: string, b: string, i: nat) {
    i <= |a| && i < |b| && a[..i] == b[..i] && (i == |a| || a[i] < b[i])
  }

  lemma {:induction false} OrdinalMeaning(a: string, b: string)
    ensures OrdinalLess(a, b) <==> exists i :: FirstDiffer(a, b, i)
    decreases |a|
  {
    if a == "" || b == "" || a[0] != b[0] {
      if b != "" {
        assert a == "" || a[0] < b[0] ==> FirstDiffer(a, b, 0);
      }
    } else {
      OrdinalMeaning(a[1..], b[1..]);
      forall i: nat | i > 0 ensures FirstDiffer(a, b, i) <==> FirstDiffer(a[1..], b[1..], i - 1) {
        LaterDiffer(a, b, i);
      }
      if i: nat :| FirstDiffer(a[1..], b[1..], i) {
        assert FirstDiffer(a, b, i + 1);
      }
      if i: nat :| FirstDiffer(a, b, i) {
        assert i != 0;
        assert FirstDiffer(a[1..], b[1..], i - 1);
      }
    }
  }

  lemma LaterDiffer(a: string, b: string, i: nat)
    requires a != "" && b != "" && a[0] == b[0] && i > 0
    ensures FirstDiffer(a, b, i) <==> FirstDiffer(a[1..], b[1..], i - 1)
  {
    if i <= |a| && i <= |b| {
      assert a[..i] == [a[0]] + a[1..][..i - 1] && b[..i] == [b[0]] + b[1..][..i - 1];
      assert a[1..][..i - 1] == a[..i][1..] && b[1..][..i - 1] == b[..i][1..];
    }
  }

  lemma {:induction false} OrdinalTransitive(a: string, b: string, c: string)
    requires OrdinalLess(a, b) && OrdinalLess(b, c)
    ensures OrdinalLess(a, c)
    decreases |a|
  {
    if a != "" && a[0] == b[0] == c[0] {
      OrdinalTransitive(a[1..], b[1..], c[1..]);
    }
  }

  lemma {:induction false} OrdinalTotal(a: string, b: string)
    ensures OrdinalLess(a, b) || OrdinalLess(b, a) || a == b
    ensures !(OrdinalLess(a, b) && OrdinalLess(b, a))
    ensures a == b ==> !OrdinalLess(a, b)
    decreases |a|
  {
    if a != "" && b != "" && a[0] == b[0] {
      OrdinalTotal(a[1..], b[1..]);
      assert a == [a[0]] + a[1..] && b == [b[0]] + b[1..];
    }
  }

  /** Word `v` is a better correction than word `w`: closer, or as close and more frequent, or equal
      in both and earlier in ordinal order. */
  predicate Better(c: Corrector, word: string, v: nat, w: nat)
    requires |c.words| == |c.freq| && v < |c.words| && w < |c.words|
  {
    var dv, dw := Distance(word, c.words[v]), Distance(word, c.words[w]);
    dv < dw || (dv == dw && (c.freq[v] > c.freq[w]
                             || (c.freq[v] == c.freq[w] && OrdinalLess(c.words[v], c.words[w]))))
  }

  lemma BetterTransitive(c: Corrector, word: string, u: nat, v: nat, w: nat)
    requires |c.words| == |c.freq| && u < |c.words| && v < |c.words| && w < |c.words|
    requires Better(c, word, u, v) && Better(c, word, v, w)
    ensures Better(c, word, u, w)
  {
    if OrdinalLess(c.words[u], c.words[v]) && OrdinalLess(c.words[v], c.words[w]) {
      OrdinalTransitive(c.words[u], c.words[v], c.words[w]);
    }
  }

  predicate Near(c: Corrector, word: string, w: nat)
    requires w < |c.words|
  {
    Distance(word, c.words[w]) <= MAX_DISTANCE
  }

  /** `best` is the best of the words in `seen`; none if -1. */
  ghost predicate BestOf(c: Corrector, word: string, seen: set<nat>, best: int)
    requires |c.words| == |c.freq|
  {
    && -1 <= best < |c.words|
    && (forall v :: v in seen ==> v < |c.words|)
    && (best >= 0 ==> best in seen && Near(c, word, best))
    && (forall v :: v in seen && Near(c, word, v) ==> best >= 0 && !Better(c, word, v, best))
  }

  /** `r` is the best correction among all words of the vocabulary; None if none is near. */
  ghost predicate IsCorrection(c: Corrector, word: string, r: Option<string>)
    requires |c.words| == |c.freq|
  {
    match r
    case None => forall v :: 0 <= v < |c.words| ==> !Near(c, word, v)
    case Some(s) => exists w :: 0 <= w < |c.words| && IsBestWord(c, word, w) && s == c.words[w]
  }

  ghost predicate IsBestWord(c: Corrector, word: string, w: nat)
    requires |c.words| == |c.freq| && w < |c.words|
  {
    Near(c, word, w) && forall v :: 0 <= v < |c.words| && Near(c, word, v) ==> !Better(c, word, v, w)
  }

  /** Word `w` wins over word `v`: it is closer; or as close and more frequent; or equal in both, and the same
      word or the first in ordinal order. */
  ghost predicate Wins(c: Corrector, word: string, w: nat, v: nat)
    requires |c.words| == |c.freq| && v < |c.words| && w < |c.words|
  {
    var dw, dv := Distance(word, c.words[w]), Distance(word, c.words[v]);
    || dw < dv
    || (dw == dv && c.freq[w] > c.freq[v])
    || (dw == dv && c.freq[w] == c.freq[v]
        && (c.words[w] == c.words[v] || exists i :: FirstDiffer(c.words[w], c.words[v], i)))
  }

  /** What a correction is: a word of the vocabulary at distance two at most that wins over every other such word;
      and there is none only if no word is that near. */
  lemma CorrectionMeaning(c: Corrector, word: string, r: Option<string>)
    requires |c.words| == |c.freq| && IsCorrection(c, word, r)
    ensures r.None? <==> forall v :: 0 <= v < |c.words| ==> Distance(word, c.words[v]) > 2
    ensures r.Some? ==>
              exists w :: 0 <= w < |c.words| && c.words[w] == r.value && Distance(word, c.words[w]) <= 2
                          && forall v :: 0 <= v < |c.words| && Distance(word, c.words[v]) <= 2 ==> Wins(c, word, w, v)
  {
    hide Distance, FirstDiffer;
    if r.Some? {
      var w :| 0 <= w < |c.words| && IsBestWord(c, word, w) && r.value == c.words[w];
      forall v | 0 <= v < |c.words| && Distance(word, c.words[v]) <= 2 ensures Wins(c, word, w, v) {
        assert Near(c, word, v) && !Better(c, word, v, w);
        OrdinalTotal(c.words[v], c.words[w]);
        OrdinalMeaning(c.words[w], c.words[v]);
      }
      assert Near(c, word, w);
    } else {
      forall v | 0 <= v < |c.words| ensures Distance(word, c.words[v]) > 2 {
        assert !Near(c, word, v);
      }
    }
  }

  /** There is one best correction. */
  lemma CorrectionUnique(c: Corrector, word: string, r1: Option<string>, r2: Option<string>)
    requires |c.words| == |c.freq| && IsCorrection(c, word, r1) && IsCorrection(c, word, r2)
    ensures r1 == r2
  {
    if r1.Some? && r2.Some? {
      var v :| 0 <= v < |c.words| && IsBestWord(c, word, v) && r1.value == c.words[v];
      var w :| 0 <= w < |c.words| && IsBestWord(c, word, w) && r2.value == c.words[w];
      assert !Better(c, word, v, w) && !Better(c, word, w, v);
      OrdinalTotal(c.words[v], c.words[w]);
    }
  }

  /** Weigh one candidate. */
  method Consider(c: Corrector, word: string, w: nat, ghost seen: set<nat>, best0: int, dist0: nat)
    returns (best: int, dist: nat)
    requires |c.words| == |c.freq| && w < |c.words| && BestOf(c, word, seen, best0)
    requires best0 >= 0 ==> dist0 == Distance(word, c.words[best0])
    ensures BestOf(c, word, seen + {w}, best)
    ensures best >= 0 ==> dist == Distance(word, c.words[best])
  {
    hide Distance, OrdinalLess;
    best, dist := best0, dist0;
    var cand := c.words[w];
    if |cand| - |word| > MAX_DISTANCE || |word| - |cand| > MAX_DISTANCE {
      FarApart(word, cand);
      return;
    }
    var d := OsaDistance(word, cand, MAX_DISTANCE);
    if d > MAX_DISTANCE {
      return;
    }
    if best < 0 || d < dist || (d == dist && (c.freq[w] > c.freq[best]
                                              || (c.freq[w] == c.freq[best] && OrdinalLess(cand, c.words[best])))) {
      Replaces(c, word, w, seen, best);
      best, dist := w, d;
    } else {
      assert !Better(c, word, w, best);
    }
  }

  lemma FarApart(a: string, b: string)
    requires |a| - |b| > MAX_DISTANCE || |b| - |a| > MAX_DISTANCE
    ensures Distance(a, b) > MAX_DISTANCE
  {
    OsaAtLeast(a, b, |a|, |b|);
  }

  lemma Replaces(c: Corrector, word: string, w: nat, seen: set<nat>, best: int)
    requires |c.words| == |c.freq| && w < |c.words| && BestOf(c, word, seen, best) && Near(c, word, w)
    requires best >= 0 ==> Better(c, word, w, best)
    ensures BestOf(c, word, seen + {w}, w)
  {
    hide Distance;
    OrdinalTotal(c.words[w], c.words[w]);
    forall v | v in seen && Near(c, word, v) ensures !Better(c, word, v, w) {
      if Better(c, word, v, w) {
        BetterTransitive(c, word, v, w, best);
      }
    }
  }

  /** All words that share the hash `h` have been considered. */
  ghost predicate Probed(c: Corrector, h: nat, seen: set<nat>) {
    forall i :: 0 <= i < |c.deletes| && c.deletes[i].hash == h ==> c.deletes[i].word in seen
  }

  /** Consider every word filed under one probe's hash. */
  method Probe(rt: Runtime, c: Corrector, word: string, h: nat, seen0: set<nat>, best0: int, dist0: nat)
    returns (seen: set<nat>, best: int, dist: nat)
    requires Indexed(rt, c) && BestOf(c, word, seen0, best0)
    requires best0 >= 0 ==> dist0 == Distance(word, c.words[best0])
    ensures BestOf(c, word, seen, best) && seen0 <= seen && Probed(c, h, seen)
    ensures best >= 0 ==> dist == Distance(word, c.words[best])
  {
    hide BestOf, Distance, IsDelete, IsCorrectable, FromDelete;
    seen, best, dist := seen0, best0, dist0;
    BestInRange(c, word, seen, best);
    var i := LowerBound(c.deletes, h);
    ghost var lo := i;
    while i < |c.deletes| && c.deletes[i].hash == h
      invariant lo <= i <= |c.deletes| && seen0 <= seen
      invariant forall j :: lo <= j < i ==> c.deletes[j].word in seen
      invariant BestOf(c, word, seen, best) && (best >= 0 ==> best < |c.words| && dist == Distance(word, c.words[best]))
      decreases |c.deletes| - i
    {
      var w := c.deletes[i].word;
      if w !in seen {
        best, dist := Consider(c, word, w, seen, best, dist);
        seen := seen + {w};
        BestInRange(c, word, seen, best);
      }
      i := i + 1;
    }
    assert forall j :: i < j < |c.deletes| ==> EntryLeq(c.deletes[i], c.deletes[j]);
  }

  lemma BestInRange(c: Corrector, word: string, seen: set<nat>, best: int)
    requires |c.words| == |c.freq| && BestOf(c, word, seen, best)
    ensures -1 <= best < |c.words|
  {
  }

  /** CorrectWord: the best correction over the whole vocabulary, unless the word is known or not
      correctable.  Neither the prefix index, nor hash collisions, nor the order of the probes
      matters. */
  method CorrectWord(rt: Runtime, c: Corrector, word: string) returns (r: Option<string>)
    requires Indexed(rt, c)
    ensures |word| < 3 || |word| > 30 || word in c.words ==> r == None
    ensures (exists i :: 0 <= i < |word| && !rt.isLetter(word[i])) ==> r == None
    ensures 3 <= |word| <= 30 && (forall i :: 0 <= i < |word| ==> rt.isLetter(word[i])) && word !in c.words ==>
              IsCorrection(c, word, r)
  {
    if !IsCorrectable(rt, word) || word in c.words {
      return None;
    }
    hide BestOf, Probed, IsDelete, Distance;
    var rest := Deletes(word);
    ghost var all, done: set<string> := rest, {};
    var seen: set<nat>, best, dist := {}, -1, 0;
    NothingSeen(c, word);
    while rest != {}
      invariant rest + done == all && BestOf(c, word, seen, best)
      invariant best >= 0 ==> best < |c.words| && dist == Distance(word, c.words[best])
      invariant forall p :: p in done ==> Probed(c, rt.hash(p), seen)
      decreases rest
    {
      var p :| p in rest;
      rest := rest - {p};
      ghost var before := seen;
      seen, best, dist := Probe(rt, c, word, rt.hash(p), seen, best, dist);
      BestInRange(c, word, seen, best);
      forall x | x in done ensures Probed(c, rt.hash(x), seen) {
        ProbedStays(c, rt.hash(x), before, seen);
      }
      done := done + {p};
    }
    AllNearSeen(rt, c, word, all, seen);
    r := if best >= 0 then Some(c.words[best]) else None;
    BestIsCorrection(c, word, seen, best);
  }

  lemma NothingSeen(c: Corrector, word: string)
    requires |c.words| == |c.freq|
    ensures BestOf(c, word, {}, -1)
  {
  }

  lemma ProbedStays(c: Corrector, h: nat, seen: set<nat>, more: set<nat>)
    requires Probed(c, h, seen) && seen <= more
    ensures Probed(c, h, more)
  {
  }

  /** No near word is missed. */
  lemma AllNearSeen(rt: Runtime, c: Corrector, word: string, probes: set<string>, seen: set<nat>)
    requires Indexed(rt, c) && forall p :: IsDelete(p, Key(word)) ==> p in probes
    requires forall p :: p in probes ==> Probed(c, rt.hash(p), seen)
    ensures forall w :: 0 <= w < |c.words| && Near(c, word, w) ==> w in seen
  {
    hide IsDelete, IsCorrectable, Distance, FromDelete;
    forall w | 0 <= w < |c.words| && Near(c, word, w) ensures w in seen {
      var p := DeletesMeet(word, c.words[w]);
      assert p in probes && Probed(c, rt.hash(p), seen);
      var i :| 0 <= i < |c.deletes| && c.deletes[i] == Entry(rt.hash(p), w);
    }
  }

  lemma BestIsCorrection(c: Corrector, word: string, seen: set<nat>, best: int)
    requires |c.words| == |c.freq| && BestOf(c, word, seen, best)
    requires forall w :: 0 <= w < |c.words| && Near(c, word, w) ==> w in seen
    ensures IsCorrection(c, word, if best >= 0 then Some(c.words[best]) else None)
  {
    hide Distance;
    if best >= 0 {
      assert IsBestWord(c, word, best);
    }
  }
}
