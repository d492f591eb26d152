/** The arithmetic of engine/src/lexical/search.cc.

    Scores are real numbers.  Double rounding `rd` is any monotone function that errs by at most one part in
    2^53 on non-negative arguments and leaves its own results alone, and float rounding `rf` is any
    monotone function; IEEE 754 arithmetic without overflow is one instance. */
module Rounding {
  import opened Numbers

  const EPS: real := 1.0 / 9007199254740992.0
  const BOUND_SLACK: real := 1.0 + 1.0 / 1099511627776.0
  const MAX_TERMS: nat := 1024

  datatype Arithmetic = Arithmetic(rd: real -> real, rf: real -> real)

  ghost predicate Ieee(m: Arithmetic) {
    && (forall x: real :: x >= 0.0 ==> (1.0 - EPS) * x <= m.rd(x) <= (1.0 + EPS) * x)
    && (forall x: real, y: real :: 0.0 <= x <= y ==> m.rd(x) <= m.rd(y))
    && (forall x: real :: x >= 0.0 ==> m.rd(m.rd(x)) == m.rd(x))
    && (forall x: real, y: real :: 0.0 <= x <= y ==> m.rf(x) <= m.rf(y))
  }

  /** `v` results from adding non-negative numbers of exact total `x`, each of which passed through
      at most `ops` rounded operations. */
  ghost predicate Near(v: real, x: real, ops: nat) {
    0.0 <= x && (1.0 - ops as real * EPS) * x <= v <= (1.0 + 2.0 * ops as real * EPS) * x
  }

  /** The largest value a rounded sum of at most MAX_TERMS contributions of exact total `x` can take. */
  function Over(x: real): real {
    (1.0 + 2.0 * MAX_TERMS as real * EPS) * x
  }

  lemma NearWeaken(v: real, x: real, i: nat, j: nat)
    requires Near(v, x, i) && i <= j
    ensures Near(v, x, j)
  {
    ScaleMonotone(1.0 - j as real * EPS, 1.0 - i as real * EPS, x);
    ScaleMonotone(1.0 + 2.0 * i as real * EPS, 1.0 + 2.0 * j as real * EPS, x);
  }

  lemma NearNonNegative(v: real, x: real, i: nat)
    requires Near(v, x, i) && i <= 2 * MAX_TERMS
    ensures 0.0 <= v
  {
    var c := 1.0 - i as real * EPS;
    assert 0.0 <= c && c * x <= v;
    ScaleMonotone(0.0, c, x);
  }

  /** Composing two scalings, for a lower bound (`a` over `b * c`) and for an upper one. */
  lemma ScaleTwiceBelow(a: real, b: real, c: real, x: real, s: real)
    requires 0.0 <= x && 0.0 <= b && a <= b * c && c * x <= s
    ensures a * x <= b * s
  {
    ScaleMonotone(a, b * c, x);
    ScaleMonotone(c * x, s, b);
    assert (b * c) * x == b * (c * x);
  }

  lemma ScaleTwiceAbove(a: real, b: real, c: real, x: real, s: real)
    requires 0.0 <= x && 0.0 <= b && b * c <= a && s <= c * x
    ensures b * s <= a * x
  {
    ScaleMonotone(b * c, a, x);
    ScaleMonotone(s, c * x, b);
    assert (b * c) * x == b * (c * x);
  }

  /** One rounded operation turns an error of `i` operations into one of `i + 1`. */
  lemma NearRound(m: Arithmetic, s: real, x: real, i: nat)
    requires Ieee(m) && Near(s, x, i) && i <= 2 * MAX_TERMS
    ensures Near(m.rd(s), x, i + 1)
  {
    NearNonNegative(s, x, i);
    var r, r1 := i as real, (i + 1) as real;
    var lo, hi := 1.0 - r * EPS, 1.0 + 2.0 * r * EPS;
    var lo1, hi1 := 1.0 - r1 * EPS, 1.0 + 2.0 * r1 * EPS;
    assert (1.0 - EPS) * lo >= lo1 && (1.0 + EPS) * hi <= hi1;
    ScaleTwiceBelow(lo1, 1.0 - EPS, lo, x, s);
    ScaleTwiceAbove(hi1, 1.0 + EPS, hi, x, s);
  }

  lemma NearAdd(m: Arithmetic, a: real, x: real, b: real, y: real, i: nat)
    requires Ieee(m) && Near(a, x, i) && Near(b, y, i) && i <= 2 * MAX_TERMS
    ensures Near(m.rd(a + b), x + y, i + 1)
  {
    NearRound(m, a + b, x + y, i);
  }

  lemma NearOver(v: real, x: real, i: nat)
    requires Near(v, x, i) && i <= MAX_TERMS
    ensures v <= Over(x)
  {
    NearWeaken(v, x, i, MAX_TERMS);
  }

  lemma OverMonotone(x: real, y: real)
    requires 0.0 <= x <= y
    ensures 0.0 <= Over(x) <= Over(y)
  {
  }

  /** The pruning test of search.cc lines 13-19: when the rounded, slackened bound does not exceed
      `theta`, no rounded sum of at most MAX_TERMS contributions below the bounds does. */
  lemma PruneSafe(m: Arithmetic, bound: real, upper: real, exact: real, theta: real)
    requires Ieee(m) && Near(bound, upper, MAX_TERMS + 2) && 0.0 <= exact <= upper
    requires m.rf(m.rd(bound * BOUND_SLACK)) <= theta
    ensures m.rf(Over(exact)) <= theta
  {
    var c := 1.0 - (MAX_TERMS + 2) as real * EPS;
    NearNonNegative(bound, upper, MAX_TERMS + 2);
    var s := bound * BOUND_SLACK;
    assert m.rd(s) >= (1.0 - EPS) * s;
    ScaleMonotone(c * upper, bound, BOUND_SLACK * (1.0 - EPS));
    assert (1.0 - EPS) * s == bound * (BOUND_SLACK * (1.0 - EPS));
    var g := c * (BOUND_SLACK * (1.0 - EPS));
    assert c * upper * (BOUND_SLACK * (1.0 - EPS)) == g * upper;
    assert g >= 1.0 + 2.0 * MAX_TERMS as real * EPS;
    ScaleMonotone(1.0 + 2.0 * MAX_TERMS as real * EPS, g, exact);
    assert g * exact <= g * upper by { assert g * (upper - exact) >= 0.0; }
    assert 0.0 <= Over(exact) <= m.rd(s);
  }
}
