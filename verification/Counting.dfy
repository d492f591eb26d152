/** How many members of a sequence have a property. */
module Counting {

  ghost function Count<T(!new)>(s: seq<T>, p: T -> bool): (n: nat)
    ensures n <= |s|
  {
    if s == [] then 0 else Count(s[..|s| - 1], p) + if p(s[|s| - 1]) then 1 else 0
  }

  lemma CountNext<T(!new)>(s: seq<T>, x: T, p: T -> bool)
    ensures Count(s + [x], p) == Count(s, p) + if p(x) then 1 else 0
  {
    assert (s + [x])[..|s|] == s;
  }

  lemma {:induction false} CountSame<T(!new)>(s: seq<T>, p: T -> bool, q: T -> bool)
    requires forall x :: x in s ==> p(x) == q(x)
    ensures Count(s, p) == Count(s, q)
  {
    if s != [] {
      CountSame(s[..|s| - 1], p, q);
    }
  }

  lemma {:induction false} CountMore<T(!new)>(s: seq<T>, p: T -> bool, q: T -> bool)
    requires forall x :: x in s && p(x) ==> q(x)
    ensures Count(s, p) <= Count(s, q)
  {
    if s != [] {
      CountMore(s[..|s| - 1], p, q);
    }
  }

  lemma {:induction false} CountNone<T(!new)>(s: seq<T>, p: T -> bool)
    requires forall x :: x in s ==> !p(x)
    ensures Count(s, p) == 0
  {
    if s != [] {
      CountNone(s[..|s| - 1], p);
    }
  }

  lemma {:induction false} CountZero<T(!new)>(s: seq<T>, p: T -> bool)
    requires Count(s, p) == 0
    ensures forall x :: x in s ==> !p(x)
  {
    if s != [] {
      assert s == s[..|s| - 1] + [s[|s| - 1]];
      CountZero(s[..|s| - 1], p);
    }
  }

  lemma {:induction false} CountHas<T(!new)>(s: seq<T>, p: T -> bool, x: T)
    requires x in s && p(x)
    ensures Count(s, p) > 0
  {
    if s[|s| - 1] != x {
      assert s == s[..|s| - 1] + [s[|s| - 1]];
      CountHas(s[..|s| - 1], p, x);
    }
  }

  lemma {:induction false} CountAll<T(!new)>(s: seq<T>, p: T -> bool)
    requires forall x :: x in s ==> p(x)
    ensures Count(s, p) == |s|
  {
    if s != [] {
      CountAll(s[..|s| - 1], p);
    }
  }

  /** Properties that exclude each other are counted one by one. */
  lemma {:induction false} CountSplit<T(!new)>(s: seq<T>, p: T -> bool, a: T -> bool, b: T -> bool)
    requires forall x :: x in s ==> (p(x) <==> a(x) || b(x)) && !(a(x) && b(x))
    ensures Count(s, p) == Count(s, a) + Count(s, b)
  {
    if s != [] {
      CountSplit(s[..|s| - 1], p, a, b);
    }
  }
}
