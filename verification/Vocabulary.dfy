/** Vocab of engine/src/lexical/index_builder.cc: an open-addressing table from strings to dense ids, over an
    append-only arena. */
module Vocabulary {
  import opened Bits
  import opened Rings
  import opened Sequences
  import opened ByteStrings

  const EMPTY: int := -1
  const INITIAL_SLOTS: nat := 1048576

  /** Id `id` is found by probing for hash `h` after `k` other ids. */
  ghost predicate FoundAfter(table: seq<int>, h: nat, id: nat, k: nat)
    requires |table| > 0
  {
    table[Slot(|table|, h, k)] == id && forall j :: 0 <= j < k ==> table[Slot(|table|, h, j)] != EMPTY
  }

  ghost predicate Findable(table: seq<int>, h: nat, id: nat)
    requires |table| > 0
  {
    exists k :: 0 <= k < |table| && FoundAfter(table, h, id, k)
  }

  /** The table holds the ids of `strs[..n]`, each once and where probing finds it. */
  ghost predicate TableOk(table: seq<int>, strs: seq<Bytes>, n: nat, hash: Bytes -> nat) {
    && n <= |strs| && n < |table|
    && (forall i :: 0 <= i < |table| ==> EMPTY <= table[i] < n)
    && (forall i, j :: 0 <= i < j < |table| && table[i] != EMPTY ==> table[i] != table[j])
    && (forall id :: 0 <= id < n ==> Findable(table, hash(strs[id]), id))
  }

  ghost predicate AllDistinct(strs: seq<Bytes>) {
    forall i, j :: 0 <= i < j < |strs| ==> strs[i] != strs[j]
  }

  /** A table with fewer ids than slots has an empty one. */
  lemma HasEmpty(table: seq<int>, strs: seq<Bytes>, n: nat, hash: Bytes -> nat) returns (e: nat)
    requires TableOk(table, strs, n, hash)
    ensures e < |table| && table[e] == EMPTY
  {
    if forall i :: 0 <= i < |table| ==> table[i] != EMPTY {
      Pigeons(table, n);
    }
    e :| 0 <= e < |table| && table[e] == EMPTY;
  }

  /** Where probing for a string ends: at its id, or at the empty slot where it belongs. */
  ghost predicate ProbeEnds(table: seq<int>, h: nat, k: nat)
    requires |table| > 0
  {
    k < |table| && table[Slot(|table|, h, k)] == EMPTY
    && forall j :: 0 <= j < k ==> table[Slot(|table|, h, j)] != EMPTY
  }

  lemma EntryRange(table: seq<int>, strs: seq<Bytes>, n: nat, hash: Bytes -> nat, i: nat)
    requires TableOk(table, strs, n, hash) && i < |table|
    ensures n <= |strs| && table[i] < n && (table[i] == EMPTY || 0 <= table[i]) && EMPTY == -1
  {
  }

  lemma EndsHere(table: seq<int>, h: nat, k: nat)
    requires |table| > 0 && k < |table| && table[Slot(|table|, h, k)] == EMPTY
    requires forall j :: 0 <= j < k ==> table[Slot(|table|, h, j)] != EMPTY
    ensures ProbeEnds(table, h, k)
  {
  }

  /** A string that probing did not meet is not in the table. */
  lemma NotMet(table: seq<int>, strs: seq<Bytes>, n: nat, hash: Bytes -> nat, s: Bytes, k: nat)
    requires TableOk(table, strs, n, hash) && ProbeEnds(table, hash(s), k)
    requires forall j :: 0 <= j < k ==> 0 <= table[Slot(|table|, hash(s), j)] < |strs|
    requires forall j :: 0 <= j < k ==> strs[table[Slot(|table|, hash(s), j)]] != s
    ensures forall id :: 0 <= id < n ==> strs[id] != s
    ensures n == |strs| ==> s !in strs
  {
    hide Slot;
    forall id | 0 <= id < n ensures strs[id] != s {
      assert Findable(table, hash(strs[id]), id);
      var m :| 0 <= m < |table| && FoundAfter(table, hash(strs[id]), id, m);
    }
  }

  /** Filling the empty slot where probing ended keeps every id findable and adds one. */
  lemma SlotFilled(table: seq<int>, strs: seq<Bytes>, n: nat, hash: Bytes -> nat, k: nat)
    requires TableOk(table, strs, n, hash) && n < |strs| && n + 1 < |table| && ProbeEnds(table, hash(strs[n]), k)
    ensures TableOk(table[Slot(|table|, hash(strs[n]), k) := n], strs, n + 1, hash)
  {
    hide Slot;
    var i := Slot(|table|, hash(strs[n]), k);
    var t := table[i := n];
    assert FoundAfter(t, hash(strs[n]), n, k) by {
      forall j | 0 <= j < k ensures t[Slot(|t|, hash(strs[n]), j)] != EMPTY {
      }
    }
    forall id | 0 <= id < n ensures Findable(t, hash(strs[id]), id) {
      assert Findable(table, hash(strs[id]), id);
      var m :| 0 <= m < |table| && FoundAfter(table, hash(strs[id]), id, m);
      assert FoundAfter(t, hash(strs[id]), id, m);
    }
  }

  /** The table means the same for more strings. */
  lemma MoreStrings(table: seq<int>, strs: seq<Bytes>, more: seq<Bytes>, n: nat, hash: Bytes -> nat)
    requires TableOk(table, strs, n, hash) && strs <= more
    ensures TableOk(table, more, n, hash)
  {
  }

  lemma EmptyTable(n: nat, strs: seq<Bytes>, hash: Bytes -> nat)
    requires n > 0
    ensures TableOk(seq(n, _ => EMPTY), strs, 0, hash)
  {
  }

  /** The strings lie in the arena one after another. */
  ghost predicate StringsIn(arena: Bytes, off: seq<nat>, strs: seq<Bytes>)
    ensures StringsIn(arena, off, strs) ==> |off| == |strs| + 1
  {
    |off| == |strs| + 1 && off[|strs|] == |arena| && forall i :: 0 <= i < |strs| ==> StringIn(arena, off, i, strs[i])
  }

  ghost predicate StringIn(arena: Bytes, off: seq<nat>, i: nat, s: Bytes)
    requires i + 1 < |off|
  {
    off[i] <= off[i + 1] <= |arena| && arena[off[i]..off[i + 1]] == s
  }

  class Vocab {
    const hash: Bytes -> nat
    var arena: Bytes
    var off: seq<nat>
    var table: seq<int>
    ghost var strs: seq<Bytes>

    ghost predicate Valid()
      reads this
    {
      && StringsOk() && TableOk(table, strs, |strs|, hash) && AllDistinct(strs)
      && |strs| * 10 <= |table| * 7 && |table| >= INITIAL_SLOTS
    }

    ghost predicate StringsOk()
      reads this
      ensures StringsOk() ==> |off| == |strs| + 1
    {
      StringsIn(arena, off, strs)
    }

    constructor (hash: Bytes -> nat)
      ensures Valid() && strs == [] && this.hash == hash
    {
      this.hash := hash;
      arena, off, table, strs := [], [0], seq(INITIAL_SLOTS, _ => EMPTY), [];
      new;
      EmptyTable(INITIAL_SLOTS, [], hash);
    }

    function Size(): nat
      reads this
      requires |off| > 0
    {
      |off| - 1
    }

    function Str(id: nat): (s: Bytes)
      reads this
      requires StringsOk() && id < |strs|
      ensures s == strs[id]
    {
      assert StringIn(arena, off, id, strs[id]);
      arena[off[id]..off[id + 1]]
    }

    /** Probe for a string: its id, or the empty slot where it belongs. */
    method Probe(s: Bytes) returns (id: int, i: nat, ghost k: nat)
      requires StringsOk() && TableOk(table, strs, |strs|, hash)
      ensures id >= 0 ==> id < |strs| && strs[id] == s
      ensures id < 0 ==> ProbeEnds(table, hash(s), k) && i == Slot(|table|, hash(s), k) && s !in strs
    {
      hide *;
      var h, n := hash(s), |table|;
      ghost var e := HasEmpty(table, strs, |strs|, hash);
      ghost var last := SlotReached(n, h, e);
      i, k := h % n, 0;
      FirstSlot(n, h);
      while true
        invariant k <= last && i == Slot(n, h, k)
        invariant forall j :: 0 <= j < k ==> table[Slot(n, h, j)] != EMPTY && 0 <= table[Slot(n, h, j)] < |strs|
        invariant forall j :: 0 <= j < k ==> strs[table[Slot(n, h, j)]] != s
        decreases last - k
      {
        EntryRange(table, strs, |strs|, hash, i);
        id := table[i];
        if id == EMPTY {
          EndsHere(table, h, k);
          NotMet(table, strs, |strs|, hash, s, k);
          return;
        }
        if Str(id) == s {
          return;
        }
        SlotNext(n, h, k);
        i, k := (i + 1) % n, k + 1;
      }
    }

    /** get_or_add: equal strings get equal ids, distinct strings distinct ones, numbered from zero. */
    method GetOrAdd(s: Bytes) returns (id: nat)
      requires Valid()
      modifies this
      ensures Valid() && id < |strs| && strs[id] == s
      ensures strs == if s in old(strs) then old(strs) else old(strs) + [s]
    {
      hide TableOk, ProbeEnds, StringsIn, Slot;
      var found, i;
      ghost var k;
      found, i, k := Probe(s);
      if found >= 0 {
        return found;
      }
      id := Size();
      SlotFree(table, strs, |strs|, hash, s, i, k);
      ArenaGrows(arena, off, strs, s);
      arena := arena + s;
      off := off + [|arena|];
      table := table[i := id];
      strs := strs + [s];
      if Size() * 10 > |table| * 7 {
        Grow();
      }
    }

    /** Twice the slots, filled again in the order of ids. */
    method Grow()
      requires StringsOk() && TableOk(table, strs, |strs|, hash) && AllDistinct(strs)
      requires |table| >= INITIAL_SLOTS && |strs| * 10 <= |table| * 14
      modifies this`table
      ensures Valid() && |table| == 2 * |old(table)|
    {
      hide TableOk, ProbeEnds, Slot;
      var n := |table| * 2;
      var t := seq(n, _ => EMPTY);
      EmptyTable(n, strs, hash);
      for id := 0 to Size()
        invariant |t| == n && TableOk(t, strs, id, hash)
      {
        var i;
        ghost var k;
        i, k := EmptySlot(t, hash(Str(id)), id);
        SlotFilled(t, strs, id, hash, k);
        t := t[i := id];
      }
      table := t;
    }

    method EmptySlot(t: seq<int>, h: nat, ghost n: nat) returns (i: nat, ghost k: nat)
      requires TableOk(t, strs, n, hash)
      ensures ProbeEnds(t, h, k) && i == Slot(|t|, h, k)
    {
      hide Slot;
      ghost var e := HasEmpty(t, strs, n, hash);
      ghost var last := SlotReached(|t|, h, e);
      i, k := h % |t|, 0;
      FirstSlot(|t|, h);
      while t[i] != EMPTY
        invariant k <= last && i == Slot(|t|, h, k)
        invariant forall j :: 0 <= j < k ==> t[Slot(|t|, h, j)] != EMPTY
        decreases last - k
      {
        SlotNext(|t|, h, k);
        i, k := (i + 1) % |t|, k + 1;
      }
    }
  }

  /** The slot where a new string belongs takes its id. */
  lemma SlotFree(table: seq<int>, strs: seq<Bytes>, n: nat, hash: Bytes -> nat, s: Bytes, i: nat, k: nat)
    requires TableOk(table, strs, n, hash) && n == |strs| && n * 10 <= |table| * 7 && |table| >= INITIAL_SLOTS
    requires ProbeEnds(table, hash(s), k) && i == Slot(|table|, hash(s), k)
    ensures i < |table| && TableOk(table[i := n], strs + [s], n + 1, hash)
  {
    hide Slot;
    MoreStrings(table, strs, strs + [s], n, hash);
    SlotFilled(table, strs + [s], n, hash, k);
  }

  lemma ArenaGrows(arena: Bytes, off: seq<nat>, strs: seq<Bytes>, s: Bytes)
    requires StringsIn(arena, off, strs)
    ensures StringsIn(arena + s, off + [|arena + s|], strs + [s])
  {
    var more, o, ss := arena + s, off + [|arena + s|], strs + [s];
    forall i | 0 <= i < |ss| ensures StringIn(more, o, i, ss[i]) {
      if i < |strs| {
        assert StringIn(arena, off, i, strs[i]);
        assert more[off[i]..off[i + 1]] == arena[off[i]..off[i + 1]];
      }
    }
  }
}
