/** Unsigned 32-bit words as natural numbers, with the C++ operators the codecs use. */
module Bits {
  type byte = x: int | 0 <= x < 256
  type u32 = x: int | 0 <= x < 0x1_0000_0000

  const TWO32: nat := 0x1_0000_0000
  const U32_MAX: u32 := 0xFFFF_FFFF

  function Pow2(n: nat): (p: nat)
    ensures p >= 1
  {
    if n == 0 then 1 else 2 * Pow2(n - 1)
  }

  /** Bitwise `x | y`. */
  function Or(x: nat, y: nat): nat {
    if x == 0 && y == 0 then 0
    else (if x % 2 == 1 || y % 2 == 1 then 1 else 0) + 2 * Or(x / 2, y / 2)
  }

  /** Bitwise `x & y`. */
  function And(x: nat, y: nat): nat {
    if x == 0 || y == 0 then 0
    else (if x % 2 == 1 && y % 2 == 1 then 1 else 0) + 2 * And(x / 2, y / 2)
  }

  function Shl32(x: nat, s: nat): u32 {
    x * Pow2(s) % TWO32
  }

  function Shr(x: nat, s: nat): nat {
    DivMod(x, Pow2(s));
    x / Pow2(s)
  }

  /** 32-bit addition, which wraps around. */
  function Add32(a: u32, b: u32): u32 {
    var s: int := a + b;
    if s < TWO32 then s else s - TWO32
  }

  /** `bits_needed`: the position of the highest set bit, counted from one. */
  function BitsNeeded(v: nat): nat {
    if v == 0 then 0 else 1 + BitsNeeded(v / 2)
  }

  lemma {:induction false} Pow2Add(a: nat, b: nat)
    ensures Pow2(a + b) == Pow2(a) * Pow2(b)
  {
    if a != 0 {
      Pow2Add(a - 1, b);
      assert Pow2(a + b) == 2 * (Pow2(a - 1) * Pow2(b));
    }
  }

  lemma {:induction false} Pow2Monotone(a: nat, b: nat)
    requires a <= b
    ensures Pow2(a) <= Pow2(b)
  {
    if a < b {
      Pow2Monotone(a, b - 1);
    }
  }

  lemma Pow2At32()
    ensures Pow2(32) == TWO32 && Pow2(7) == 128
  {
    assert Pow2(8) == 256;
    Pow2Add(8, 8);
    Pow2Add(16, 16);
  }

  lemma DivMod(n: nat, d: nat)
    requires d > 0
    ensures n == n / d * d + n % d && 0 <= n / d && n % d < d
  {
  }

  lemma MulAtLeast(k: nat, d: nat)
    requires k >= 1
    ensures k * d >= d
  {
    assert k * d == (k - 1) * d + d;
  }

  lemma SplitUnique(lo: nat, hi: nat, r: nat, q: nat, d: nat)
    requires lo < d && r < d && lo + hi * d == r + q * d
    ensures lo == r && hi == q
  {
    assert (hi - q) * d == r - lo;
    assert (q - hi) * d == lo - r;
    if hi > q {
      MulAtLeast(hi - q, d);
    } else if q > hi {
      MulAtLeast(q - hi, d);
    }
  }

  /** Splitting a number into a low part and a high part is unique. */
  lemma DivModUnique(lo: nat, hi: nat, d: nat)
    requires lo < d
    ensures (lo + hi * d) / d == hi && (lo + hi * d) % d == lo
  {
    DivMod(lo + hi * d, d);
    SplitUnique(lo, hi, (lo + hi * d) % d, (lo + hi * d) / d, d);
  }

  lemma Nested(n: nat, q: nat, r: nat, a: nat, q2: nat, r2: nat, b: nat)
    requires n == q * a + r && q == q2 * b + r2 && r < a && r2 < b
    ensures n == (r2 * a + r) + q2 * (a * b) && r2 * a + r < a * b
  {
    assert q * a == (q2 * b) * a + r2 * a;
    assert (q2 * b) * a == q2 * (a * b);
    MulAtLeast(b - r2, a);
    assert (b - r2) * a == b * a - r2 * a;
  }

  lemma DivDiv(n: nat, a: nat, b: nat)
    requires a > 0 && b > 0
    ensures a * b > 0 && n / a / b == n / (a * b)
  {
    DivMod(n, a);
    DivMod(n / a, b);
    Nested(n, n / a, n % a, a, n / a / b, n / a % b, b);
    DivModUnique(n / a % b * a + n % a, n / a / b, a * b);
  }

  lemma OrEven(x: nat, h: nat)
    ensures Or(x, 2 * h) == x % 2 + 2 * Or(x / 2, h)
  {
    assert 2 * h % 2 == 0 && 2 * h / 2 == h;
  }

  /** `|` with a value shifted clear of the other operand is addition. */
  lemma {:induction false} OrDisjoint(x: nat, y: nat, s: nat)
    requires x < Pow2(s)
    ensures Or(x, y * Pow2(s)) == x + y * Pow2(s)
    decreases s
  {
    hide Or;
    if s == 0 {
      OrZero(y);
    } else {
      var h := y * Pow2(s - 1);
      assert y * Pow2(s) == 2 * h by { Doubled(y, Pow2(s - 1)); }
      OrDisjoint(x / 2, y, s - 1);
      OrEven(x, h);
      HalfOf(x);
    }
  }

  lemma Doubled(y: nat, p: nat)
    ensures y * (2 * p) == 2 * (y * p)
  {
  }

  lemma HalfOf(x: nat)
    ensures x % 2 + 2 * (x / 2) == x
  {
  }

  lemma {:induction false} OrZero(y: nat)
    ensures Or(0, y) == y
  {
    if y != 0 {
      OrZero(y / 2);
    }
  }

  lemma {:induction false} OrBounds(x: nat, y: nat)
    ensures x <= Or(x, y) && y <= Or(x, y)
  {
    if x != 0 || y != 0 {
      OrBounds(x / 2, y / 2);
    }
  }

  lemma {:induction false} OrBelow(x: nat, y: nat, s: nat)
    requires x < Pow2(s) && y < Pow2(s)
    ensures Or(x, y) < Pow2(s)
    decreases s
  {
    if s != 0 {
      OrBelow(x / 2, y / 2, s - 1);
    }
  }

  lemma OrBelow32(x: u32, y: u32)
    ensures Or(x, y) < TWO32
  {
    Pow2At32();
    OrBelow(x, y, 32);
  }

  lemma {:induction false} AndBelow(x: nat, y: nat)
    ensures And(x, y) <= y
  {
    if x != 0 && y != 0 {
      AndBelow(x / 2, y / 2);
    }
  }

  lemma ShrBelow(x: nat, s: nat)
    ensures Shr(x, s) <= x
  {
    DivMod(x, Pow2(s));
    QuotientAtMost(x / Pow2(s), Pow2(s));
  }

  lemma QuotientAtMost(q: nat, d: nat)
    requires d > 0
    ensures q <= q * d
  {
    assert q * d == q * (d - 1) + q;
  }

  /** `&` with `(1 << s) - 1` keeps the low `s` bits. */
  lemma {:induction false} AndMask(x: nat, s: nat)
    ensures And(x, Pow2(s) - 1) == x % Pow2(s)
    decreases s
  {
    if s != 0 {
      AndMask(x / 2, s - 1);
      ModHalf(x, Pow2(s - 1));
      assert (Pow2(s) - 1) / 2 == Pow2(s - 1) - 1;
      AndStep(x, Pow2(s) - 1);
    }
  }

  lemma AndStep(x: nat, y: nat)
    requires y % 2 == 1
    ensures And(x, y) == x % 2 + 2 * And(x / 2, y / 2)
  {
  }

  lemma ModHalf(x: nat, p: nat)
    requires p > 0
    ensures x % (2 * p) == x % 2 + 2 * (x / 2 % p)
  {
    var h := x / 2;
    DivMod(h, p);
    Nested(x, h, x % 2, 2, h / p, h % p, p);
    DivModUnique(h % p * 2 + x % 2, h / p, 2 * p);
  }

  lemma {:induction false} BitsNeededBound(v: nat)
    ensures v < Pow2(BitsNeeded(v))
  {
    if v != 0 {
      BitsNeededBound(v / 2);
    }
  }

  lemma {:induction false} BitsNeededLeast(v: nat, s: nat)
    requires v < Pow2(s)
    ensures BitsNeeded(v) <= s
  {
    if v != 0 {
      BitsNeededLeast(v / 2, s - 1);
    }
  }

  // ---------------------------------------------------------------------------------------------
  // Single bits
  // ---------------------------------------------------------------------------------------------

  /** Bit `i` of `x` is set. */
  predicate Bit(x: nat, i: nat) {
    if i == 0 then x % 2 == 1 else Bit(x / 2, i - 1)
  }

  lemma {:induction false} BitOfAnd(x: nat, y: nat, i: nat)
    ensures Bit(And(x, y), i) <==> Bit(x, i) && Bit(y, i)
    decreases i
  {
    if i > 0 {
      BitOfAnd(x / 2, y / 2, i - 1);
    }
    if x == 0 || y == 0 {
      NoBit(i);
    } else {
      AndHalves(x, y);
    }
  }

  lemma AndHalves(x: nat, y: nat)
    requires x > 0 && y > 0
    ensures And(x, y) / 2 == And(x / 2, y / 2) && (And(x, y) % 2 == 1 <==> x % 2 == 1 && y % 2 == 1)
  {
  }

  lemma {:induction false} NoBit(i: nat)
    ensures !Bit(0, i)
  {
    if i > 0 {
      NoBit(i - 1);
    }
  }

  /** Numbers with the same bits are the same. */
  lemma {:induction false} SameBits(x: nat, y: nat, n: nat)
    requires x < Pow2(n) && y < Pow2(n) && forall i :: 0 <= i < n ==> (Bit(x, i) <==> Bit(y, i))
    ensures x == y
    decreases n
  {
    if n > 0 {
      forall i | 0 <= i < n - 1 ensures Bit(x / 2, i) <==> Bit(y / 2, i) {
        assert Bit(x, i + 1) <==> Bit(y, i + 1);
      }
      SameBits(x / 2, y / 2, n - 1);
      assert Bit(x, 0) <==> Bit(y, 0);
    }
  }

  lemma HasBit(x: nat, n: nat)
    requires 0 < x < Pow2(n)
    ensures exists i :: 0 <= i < n && Bit(x, i)
  {
    if forall i :: 0 <= i < n ==> !Bit(x, i) {
      forall i | 0 <= i < n ensures Bit(x, i) <==> Bit(0, i) {
        NoBit(i);
      }
      SameBits(x, 0, n);
    }
  }
}
