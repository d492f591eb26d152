/** The regular expressions of engine/src/lexical/tokenizer.cc and the languages they stand for.  A letter
    is a property mask. */
module Regex {
  import opened Bits

  type Mask = u32

  /** A set of letters. */
  datatype Pred = Pred(all: u32, any: u32, none: u32) {
    predicate Holds(m: Mask) {
      And(m, all) == all && (any == 0 || And(m, any) != 0) && And(m, none) == 0
    }
  }

  /** Bit by bit: all of `all` are set, one of `any` is if there are any, and none of `none`. */
  lemma HoldsBits(p: Pred, m: Mask)
    ensures p.Holds(m) <==>
              && BitsIn(p.all, m)
              && ((exists i :: 0 <= i < 32 && Bit(p.any, i)) ==> exists i :: 0 <= i < 32 && Bit(p.any, i) && Bit(m, i))
              && (forall i :: 0 <= i < 32 && Bit(p.none, i) ==> !Bit(m, i))
  {
    hide And, Bit, Pow2;
    Pow2At32();
    AndSubset(m, p.all);
    AndMeets(m, p.any);
    AndMeets(m, p.none);
    forall i: nat ensures !Bit(0, i) {
      NoBit(i);
    }
    if p.any > 0 {
      HasBit(p.any, 32);
    }
  }

  /** Every bit of `x` is one of `m`. */
  ghost predicate BitsIn(x: nat, m: nat) {
    forall i :: 0 <= i < 32 && Bit(x, i) ==> Bit(m, i)
  }

  lemma AndSubset(m: u32, x: u32)
    ensures And(m, x) == x <==> BitsIn(x, m)
  {
    hide And, Bit, Pow2;
    Pow2At32();
    AndBelow(m, x);
    if And(m, x) == x {
      forall i | 0 <= i < 32 && Bit(x, i) ensures Bit(m, i) {
        BitOfAnd(m, x, i);
      }
    }
    if BitsIn(x, m) {
      forall i | 0 <= i < 32 ensures Bit(And(m, x), i) <==> Bit(x, i) {
        BitOfAnd(m, x, i);
        assert Bit(x, i) ==> Bit(m, i);
      }
      SameBits(And(m, x), x, 32);
    }
  }

  lemma AndMeets(m: u32, x: u32)
    ensures And(m, x) != 0 <==> exists i :: 0 <= i < 32 && Bit(x, i) && Bit(m, i)
  {
    hide And, Bit, Pow2;
    Pow2At32();
    AndBelow(m, x);
    if And(m, x) != 0 {
      HasBit(And(m, x), 32);
      var i :| 0 <= i < 32 && Bit(And(m, x), i);
      BitOfAnd(m, x, i);
    }
    if i :| 0 <= i < 32 && Bit(x, i) && Bit(m, i) {
      BitOfAnd(m, x, i);
      NoBit(i);
    }
  }

  datatype Node = Sym(pred: Pred) | Cat(kids: Kids) | Alt(kids: Kids)
    | Star(kid: Node) | Plus(kid: Node) | Opt(kid: Node)
  datatype Kids = Nil | Cons(head: Node, tail: Kids)

  /** Every concatenation has a part. */
  predicate WellFormed(n: Node) {
    match n
    case Sym(_) => true
    case Cat(kids) => kids.Cons? && AllWellFormed(kids)
    case Alt(kids) => AllWellFormed(kids)
    case Star(k) => WellFormed(k)
    case Plus(k) => WellFormed(k)
    case Opt(k) => WellFormed(k)
  }

  predicate AllWellFormed(kids: Kids) {
    kids.Cons? ==> WellFormed(kids.head) && AllWellFormed(kids.tail)
  }

  ghost predicate Matches(n: Node, w: seq<Mask>)
    decreases n, 0, |w|
  {
    match n
    case Sym(p) => |w| == 1 && p.Holds(w[0])
    case Cat(kids) => MatchesAll(kids, w)
    case Alt(kids) => MatchesOne(kids, w)
    case Star(k) => MatchesMany(k, w)
    case Plus(k) => exists i :: 0 <= i <= |w| && Matches(k, w[..i]) && MatchesMany(k, w[i..])
    case Opt(k) => w == [] || Matches(k, w)
  }

  ghost predicate MatchesAll(kids: Kids, w: seq<Mask>)
    decreases kids, 0, |w|
  {
    match kids
    case Nil => w == []
    case Cons(head, tail) => exists i :: 0 <= i <= |w| && Matches(head, w[..i]) && MatchesAll(tail, w[i..])
  }

  ghost predicate MatchesOne(kids: Kids, w: seq<Mask>)
    decreases kids, 0, |w|
  {
    kids.Cons? && (Matches(kids.head, w) || MatchesOne(kids.tail, w))
  }

  /** Any number of repetitions. */
  ghost predicate MatchesMany(k: Node, w: seq<Mask>)
    decreases k, 1, |w|
  {
    w == [] || exists i :: 0 < i <= |w| && Matches(k, w[..i]) && MatchesMany(k, w[i..])
  }
}
