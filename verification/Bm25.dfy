/** engine/include/hs/lexical/bm25.hpp: Lucene's one-byte document lengths and the BM25 contribution,
    each float operation rounded. */
module Bm25 {
  import opened Bits
  import opened Numbers

  datatype Model = Lucene | Textbook

  // ---------------------------------------------------------------------------------------------
  // SmallFloat
  // ---------------------------------------------------------------------------------------------

  const INT_MAX: nat := 0x7FFF_FFFF
  const FREE_VALUES: nat := 24

  /** long_to_int4: three bits after the leading one, and a shift. */
  function LongToInt4(i: nat): nat {
    if BitsNeeded(i) < 4 then i
    else var shift := BitsNeeded(i) - 4; Shr(i, shift) % 8 + (shift + 1) * 8
  }

  function Int4ToLong(e: nat): nat {
    if e < 8 then e else (e % 8 + 8) * Pow2(e / 8 - 1)
  }

  function Clamped(i: nat): nat {
    if i > INT_MAX then INT_MAX else i
  }

  function IntToByte4(i: nat): nat {
    var n := Clamped(i);
    if n < FREE_VALUES then n else FREE_VALUES + LongToInt4(n - FREE_VALUES)
  }

  function Byte4ToInt(b: nat): nat {
    if b < FREE_VALUES then b else FREE_VALUES + Int4ToLong(b - FREE_VALUES)
  }

  lemma {:induction false} BitsBracket(i: nat)
    requires BitsNeeded(i) > 0
    ensures Pow2(BitsNeeded(i) - 1) <= i < Pow2(BitsNeeded(i))
  {
    if i > 1 {
      BitsBracket(i / 2);
    }
  }

  lemma {:induction false} BitsMonotone(i: nat, j: nat)
    requires i <= j
    ensures BitsNeeded(i) <= BitsNeeded(j)
  {
    if i > 0 {
      BitsMonotone(i / 2, j / 2);
    }
  }

  /** A number of at least four bits, by its leading four bits and the rest. */
  lemma LeadingBits(i: nat)
    requires BitsNeeded(i) >= 4
    ensures var s := BitsNeeded(i) - 4;
            8 <= Shr(i, s) < 16 && Shr(i, s) * Pow2(s) <= i < (Shr(i, s) + 1) * Pow2(s)
  {
    hide *;
    var s := BitsNeeded(i) - 4;
    BitsBracket(i);
    EightTimes(s);
    DivBracket(i, Pow2(s), 8, 16);
    ShrIs(i, s);
  }

  lemma ShrIs(i: nat, s: nat)
    ensures Shr(i, s) == i / Pow2(s)
  {
  }

  lemma EightTimes(s: nat)
    ensures Pow2(s + 3) == 8 * Pow2(s) && Pow2(s + 4) == 16 * Pow2(s)
  {
    assert Pow2(s + 2) == 4 * Pow2(s);
  }

  lemma DivBracket(i: nat, d: nat, lo: nat, hi: nat)
    requires d > 0 && lo * d <= i < hi * d
    ensures lo <= i / d < hi && i / d * d <= i < (i / d + 1) * d
  {
    DivMod(i, d);
    if i / d >= hi {
      MulMonotone(hi, i / d, d);
    }
    if i / d < lo {
      MulMonotone(i / d + 1, lo, d);
    }
  }

  lemma DivMonotone(a: nat, b: nat, d: nat)
    requires a <= b && d > 0
    ensures a / d <= b / d
  {
    DivMod(a, d);
    DivMod(b, d);
    if a / d > b / d {
      MulMonotone(b / d + 1, a / d, d);
    }
  }

  lemma Int4Value(i: nat)
    ensures if BitsNeeded(i) < 4 then LongToInt4(i) == i
            else var s := BitsNeeded(i) - 4; 8 <= Shr(i, s) < 16 && LongToInt4(i) == Shr(i, s) + s * 8
  {
    hide BitsNeeded, Shr, Pow2;
    if BitsNeeded(i) >= 4 {
      LeadingBits(i);
    }
  }

  lemma Int4Monotone(i: nat, j: nat)
    requires i <= j
    ensures LongToInt4(i) <= LongToInt4(j)
  {
    hide LongToInt4, BitsNeeded;
    BitsMonotone(i, j);
    Int4Value(i);
    Int4Value(j);
    if BitsNeeded(i) < 4 {
      SmallBits(i);
    } else if BitsNeeded(i) == BitsNeeded(j) {
      DivMonotone(i, j, Pow2(BitsNeeded(i) - 4));
    }
  }

  lemma SmallBits(i: nat)
    ensures BitsNeeded(i) < 4 <==> i < 8
  {
    if i >= 8 {
      BitsMonotone(8, i);
    } else {
      BitsMonotone(i, 7);
    }
    assert BitsNeeded(8) == 4 && BitsNeeded(7) == 3;
  }

  /** Encoding loses precision downwards only. */
  lemma Int4Floor(i: nat)
    ensures Int4ToLong(LongToInt4(i)) <= i && (i > 0 ==> Int4ToLong(LongToInt4(i)) > 0)
  {
    SmallBits(i);
    if i >= 8 {
      LeadingBits(i);
      var s := BitsNeeded(i) - 4;
      hide BitsNeeded, Shr;
      Int4Parts(Shr(i, s), s);
      MulAtLeast(Shr(i, s), Pow2(s));
    }
  }

  lemma Int4Parts(lead: nat, s: nat)
    requires 8 <= lead < 16
    ensures Int4ToLong(lead % 8 + (s + 1) * 8) == lead * Pow2(s)
  {
    DivModUnique(lead - 8, s + 1, 8);
    Int4LongOf(lead % 8 + (s + 1) * 8, lead, s);
  }

  lemma Int4LongOf(e: nat, lead: nat, s: nat)
    requires e / 8 == s + 1 && e % 8 == lead - 8
    ensures Int4ToLong(e) == lead * Pow2(s)
  {
  }

  lemma Int4LongMonotone(a: nat, b: nat)
    requires a <= b
    ensures Int4ToLong(a) <= Int4ToLong(b)
  {
    if b >= 8 {
      var s := b / 8 - 1;
      MulAtLeast(Pow2(s), b % 8 + 8);
      if a >= 8 {
        var r := a / 8 - 1;
        Pow2Monotone(r, s);
        if r < s {
          Pow2Monotone(r + 1, s);
          MulMonotone(a % 8 + 8, 16, Pow2(r));
          MulMonotone(8, b % 8 + 8, Pow2(s));
        } else {
          MulMonotone(a % 8 + 8, b % 8 + 8, Pow2(s));
        }
      }
    }
  }

  /** The norm byte and the length that it stands for grow with the length. */
  lemma NormMonotone(i: nat, j: nat)
    requires i <= j
    ensures IntToByte4(i) <= IntToByte4(j)
    ensures Byte4ToInt(IntToByte4(i)) <= Byte4ToInt(IntToByte4(j))
  {
    hide LongToInt4, Int4ToLong;
    var n, k := Clamped(i), Clamped(j);
    if n >= FREE_VALUES {
      Int4Monotone(n - FREE_VALUES, k - FREE_VALUES);
    }
    Byte4Monotone(IntToByte4(i), IntToByte4(j));
  }

  lemma Byte4Monotone(a: nat, b: nat)
    requires a <= b
    ensures Byte4ToInt(a) <= Byte4ToInt(b)
  {
    hide Int4ToLong;
    if a >= FREE_VALUES {
      Int4LongMonotone(a - FREE_VALUES, b - FREE_VALUES);
    }
  }

  /** A length is quantised downwards, to a positive length if it was positive, and stands for itself
      once quantised. */
  lemma NormFloor(i: nat)
    ensures Byte4ToInt(IntToByte4(i)) <= i && (i > 0 ==> Byte4ToInt(IntToByte4(i)) > 0)
  {
    if FREE_VALUES <= i <= INT_MAX {
      Int4Floor(i - FREE_VALUES);
    } else if i > INT_MAX {
      Int4Floor(INT_MAX - FREE_VALUES);
    }
  }

  /** The length that Lucene's norm stands for: exact below 40, and beyond 24 the rest keeps its four leading bits
      and loses the others, so that no more than an eighth of it is lost. */
  lemma NormExact(len: nat, s: nat)
    requires len <= 0x7FFF_FFFF
    ensures len < 40 ==> Byte4ToInt(IntToByte4(len)) == len
    ensures 24 + 8 * Pow2(s) <= len < 24 + 16 * Pow2(s) ==>
              Byte4ToInt(IntToByte4(len)) == 24 + (len - 24) / Pow2(s) * Pow2(s)
    ensures Byte4ToInt(IntToByte4(len)) <= len && 8 * (len - Byte4ToInt(IntToByte4(len))) <= len
  {
    hide LongToInt4, Int4ToLong;
    if len >= 24 {
      Int4Exact(len - 24);
      if 24 + 8 * Pow2(s) <= len < 24 + 16 * Pow2(s) {
        LeadingShift(len - 24, s);
      }
    }
  }

  lemma Int4Exact(i: nat)
    ensures i < 16 ==> Int4ToLong(LongToInt4(i)) == i
    ensures i >= 8 ==> BitsNeeded(i) >= 4
                       && Int4ToLong(LongToInt4(i)) == i / Pow2(BitsNeeded(i) - 4) * Pow2(BitsNeeded(i) - 4)
    ensures Int4ToLong(LongToInt4(i)) <= i && 8 * (i - Int4ToLong(LongToInt4(i))) <= i
  {
    hide *;
    SmallBits(i);
    if i < 8 {
      SmallIsItself(i);
    } else {
      LargeKeepsLead(i);
      LeadingBits(i);
      var s := BitsNeeded(i) - 4;
      ShrIs(i, s);
      LosesAnEighth(i, Pow2(s), Shr(i, s));
      if i < 16 {
        OneIsPow2();
        LeadingShift(i, 0);
      }
    }
  }

  lemma SmallIsItself(i: nat)
    requires i < 8 && BitsNeeded(i) < 4
    ensures Int4ToLong(LongToInt4(i)) == i
  {
    hide BitsNeeded, Shr, Pow2;
  }

  lemma LargeKeepsLead(i: nat)
    requires BitsNeeded(i) >= 4
    ensures Int4ToLong(LongToInt4(i)) == Shr(i, BitsNeeded(i) - 4) * Pow2(BitsNeeded(i) - 4)
  {
    hide BitsNeeded, Shr, Pow2, Int4ToLong;
    LeadingBits(i);
    var s := BitsNeeded(i) - 4;
    Int4Parts(Shr(i, s), s);
  }

  lemma OneIsPow2()
    ensures Pow2(0) == 1
  {
  }

  lemma LosesAnEighth(i: nat, d: nat, lead: nat)
    requires lead >= 8 && lead * d <= i < (lead + 1) * d
    ensures 8 * (i - lead * d) <= i
  {
    assert (lead + 1) * d == lead * d + d;
    MulMonotone(8, lead, d);
  }

  lemma LeadingShift(i: nat, s: nat)
    requires 8 * Pow2(s) <= i < 16 * Pow2(s)
    ensures BitsNeeded(i) == s + 4
  {
    EightTimes(s);
    BitsExact(i, s + 4);
  }

  /** Lucene's cached norms fit one byte. */
  lemma NormIsByte(i: nat)
    ensures IntToByte4(i) < 256
  {
    NormMonotone(if i > INT_MAX then INT_MAX else i, INT_MAX);
    BitsOfMax();
  }

  lemma BitsOfMax()
    ensures IntToByte4(INT_MAX) == 255
  {
    var n := INT_MAX - FREE_VALUES;
    Pow2At32();
    Pow2Add(16, 15);
    Pow2Add(16, 14);
    assert Pow2(8) == 256;
    Pow2Add(8, 8);
    assert Pow2(16) == 65536;
    Pow2Add(8, 7);
    Pow2Add(8, 6);
    assert Pow2(7) == 128 && Pow2(6) == 64;
    BitsExact(n, 31);
    LeadingBits(n);
    Pow2Add(16, 11);
    Pow2Add(8, 3);
    assert Pow2(3) == 8;
    assert Shr(n, 27) == 15;
  }

  lemma BitsExact(n: nat, k: nat)
    requires k > 0 && Pow2(k - 1) <= n < Pow2(k)
    ensures BitsNeeded(n) == k
  {
    BitsBracket(n);
    if BitsNeeded(n) < k {
      Pow2Monotone(BitsNeeded(n), k - 1);
    } else if BitsNeeded(n) > k {
      Pow2Monotone(k, BitsNeeded(n) - 1);
    }
  }

  // ---------------------------------------------------------------------------------------------
  // Contributions
  // ---------------------------------------------------------------------------------------------

  /** Float rounding without underflow or overflow. */
  ghost predicate FloatRounding(rf: real -> real) {
    && (forall x: real, y: real :: x <= y ==> rf(x) <= rf(y))
    && (forall x: real :: x > 0.0 ==> rf(x) > 0.0)
    && rf(0.0) == 0.0 && rf(1.0) == 1.0
  }

  function Mul(rf: real -> real, a: real, b: real): real {
    rf(a * b)
  }

  function Div(rf: real -> real, a: real, b: real): real
    requires b != 0.0
  {
    rf(a / b)
  }

  function Add(rf: real -> real, a: real, b: real): real {
    rf(a + b)
  }

  function Sub(rf: real -> real, a: real, b: real): real {
    rf(a - b)
  }

  /** Query parameters and the collection's average length: Bm25Norms::init's arguments. */
  datatype Norms = Norms(model: Model, k1: real, b: real, avgdl: real)

  /** k1 * ((1 - b) + b * len / avgdl), the K of the BM25 formula. */
  function Denominator(rf: real -> real, n: Norms, len: nat): real
    requires n.avgdl > 0.0
  {
    Mul(rf, n.k1, Add(rf, Sub(rf, 1.0, n.b), Div(rf, Mul(rf, n.b, rf(len as real)), n.avgdl)))
  }

  /** The length that a model scores a document of length `dl` with. */
  function ModelLength(model: Model, dl: nat): nat {
    if model == Lucene then Byte4ToInt(IntToByte4(dl)) else dl
  }

  /** bm25_inv_norm for a document of length `dl`: inv_for_len.  The reciprocal of zero is infinite, which
      TermScore takes care of. */
  function Inv(rf: real -> real, n: Norms, dl: nat): real
    requires n.avgdl > 0.0
  {
    var k := Denominator(rf, n, ModelLength(n.model, dl));
    if k == 0.0 then 0.0 else Div(rf, 1.0, k)
  }

  function ScaledTf(rf: real -> real, tf: nat, inv: real): real {
    Mul(rf, rf(tf as real), inv)
  }

  function ScoreScaled(rf: real -> real, w: real, x: real): real {
    var d := Add(rf, 1.0, x);
    if d == 0.0 then 0.0 else Sub(rf, w, Div(rf, w, d))
  }

  /** The contribution to a document of length `dl` of a term of weight `w` occurring `tf` times.  With K zero
      the scaled frequency is infinite, and nothing is taken off the weight. */
  function TermScore(rf: real -> real, n: Norms, w: real, tf: nat, dl: nat): real
    requires n.avgdl > 0.0
  {
    if Denominator(rf, n, ModelLength(n.model, dl)) == 0.0 then w
    else ScoreScaled(rf, w, ScaledTf(rf, tf, Inv(rf, n, dl)))
  }

  lemma OverMonotone(x: real, y: real, d: real)
    requires x <= y && d > 0.0
    ensures x / d <= y / d
  {
    ScaleMonotone(x, y, 1.0 / d);
  }

  lemma UnderMonotone(w: real, d: real, e: real)
    requires 0.0 <= w && 0.0 < d <= e
    ensures 0.0 <= w / e <= w / d
  {
    var q := w / d;
    ScaleMonotone(d, e, q);
    assert w == q * d <= q * e;
    OverMonotone(w, q * e, e);
    assert q * e / e == q;
  }

  lemma Rounds(rf: real -> real, x: real, y: real)
    requires FloatRounding(rf) && x <= y
    ensures rf(x) <= rf(y)
    ensures x > 0.0 ==> rf(x) > 0.0
    ensures x >= 0.0 ==> rf(x) >= 0.0
    ensures x >= 1.0 ==> rf(x) >= 1.0
  {
  }

  lemma MulRounds(rf: real -> real, a: real, x: real, y: real)
    requires FloatRounding(rf) && 0.0 <= a && x <= y
    ensures Mul(rf, a, x) <= Mul(rf, a, y) && Mul(rf, x, a) <= Mul(rf, y, a)
    ensures x >= 0.0 ==> Mul(rf, a, x) >= 0.0
    ensures a > 0.0 && x > 0.0 ==> Mul(rf, a, x) > 0.0
  {
    ScaleMonotone(x, y, a);
    if x >= 0.0 {
      ScaleMonotone(0.0, a, x);
    }
    assert a * x == x * a && a * y == y * a;
  }

  lemma DivRounds(rf: real -> real, x: real, y: real, d: real)
    requires FloatRounding(rf) && x <= y && d > 0.0
    ensures Div(rf, x, d) <= Div(rf, y, d)
    ensures x >= 0.0 ==> Div(rf, x, d) >= 0.0
    ensures x > 0.0 ==> Div(rf, x, d) > 0.0
  {
    OverMonotone(x, y, d);
    if x >= 0.0 {
      OverMonotone(0.0, x, d);
    }
    if x > 0.0 {
      assert x / d > 0.0;
    }
  }

  lemma DivAntitone(rf: real -> real, w: real, d: real, e: real)
    requires FloatRounding(rf) && 0.0 <= w && 0.0 < d <= e
    ensures 0.0 <= Div(rf, w, e) <= Div(rf, w, d)
  {
    UnderMonotone(w, d, e);
  }

  lemma AddRounds(rf: real -> real, a: real, x: real, y: real)
    requires FloatRounding(rf) && x <= y
    ensures Add(rf, a, x) <= Add(rf, a, y) && Sub(rf, a, y) <= Sub(rf, a, x)
    ensures a + x > 0.0 ==> Add(rf, a, x) > 0.0
    ensures a + x >= 1.0 ==> Add(rf, a, x) >= 1.0
    ensures a - y >= 0.0 ==> Sub(rf, a, y) >= 0.0
    ensures a - y > 0.0 ==> Sub(rf, a, y) > 0.0
  {
  }

  /** K grows with the length. */
  lemma DenominatorMonotone(rf: real -> real, n: Norms, i: nat, j: nat)
    requires FloatRounding(rf) && n.avgdl > 0.0 && n.k1 > 0.0 && n.b >= 0.0 && i <= j
    ensures Denominator(rf, n, i) <= Denominator(rf, n, j)
  {
    hide FloatRounding, Mul, Div, Add, Sub;
    Rounds(rf, i as real, j as real);
    var x, y := rf(i as real), rf(j as real);
    MulRounds(rf, n.b, x, y);
    var p, q := Mul(rf, n.b, x), Mul(rf, n.b, y);
    DivRounds(rf, p, q, n.avgdl);
    var s := Sub(rf, 1.0, n.b);
    AddRounds(rf, s, Div(rf, p, n.avgdl), Div(rf, q, n.avgdl));
    MulRounds(rf, n.k1, Add(rf, s, Div(rf, p, n.avgdl)), Add(rf, s, Div(rf, q, n.avgdl)));
  }

  /** With b between 0 and 1 every document of positive length has a positive K. */
  lemma DenominatorPositive(rf: real -> real, n: Norms, i: nat)
    requires FloatRounding(rf) && n.avgdl > 0.0 && n.k1 > 0.0 && 0.0 <= n.b <= 1.0 && i > 0
    ensures Denominator(rf, n, i) > 0.0
  {
    hide FloatRounding, Mul, Div, Add, Sub;
    Rounds(rf, i as real, i as real);
    AddRounds(rf, 1.0, n.b, n.b);
    var x, s := rf(i as real), Sub(rf, 1.0, n.b);
    MulRounds(rf, n.b, x, x);
    var y := Mul(rf, n.b, x);
    DivRounds(rf, y, y, n.avgdl);
    var p := Div(rf, y, n.avgdl);
    AddRounds(rf, s, p, p);
    MulRounds(rf, n.k1, Add(rf, s, p), Add(rf, s, p));
  }

  /** A document of length `shortest`, and so every longer one, has a positive K. */
  ghost predicate PositiveNorms(rf: real -> real, n: Norms, shortest: nat) {
    && FloatRounding(rf) && n.avgdl > 0.0 && n.k1 > 0.0 && n.b >= 0.0
    && Denominator(rf, n, ModelLength(n.model, shortest)) > 0.0
  }

  /** A document of length `shortest`, and so every longer one, has a K that is not negative. */
  ghost predicate SafeNorms(rf: real -> real, n: Norms, shortest: nat) {
    && FloatRounding(rf) && n.avgdl > 0.0 && n.k1 > 0.0 && n.b >= 0.0
    && Denominator(rf, n, ModelLength(n.model, shortest)) >= 0.0
  }

  lemma UsualNormsSafe(rf: real -> real, n: Norms, shortest: nat)
    requires FloatRounding(rf) && n.avgdl > 0.0 && n.k1 > 0.0 && 0.0 <= n.b <= 1.0 && shortest > 0
    ensures PositiveNorms(rf, n, shortest) && SafeNorms(rf, n, shortest)
  {
    NormFloor(shortest);
    DenominatorPositive(rf, n, ModelLength(n.model, shortest));
  }

  /** inv falls with the length. */
  lemma InvAntitone(rf: real -> real, n: Norms, i: nat, j: nat)
    requires PositiveNorms(rf, n, i) && i <= j
    ensures PositiveNorms(rf, n, j) && 0.0 < Inv(rf, n, j) <= Inv(rf, n, i)
  {
    hide Denominator, Byte4ToInt, IntToByte4, FloatRounding;
    NormMonotone(i, j);
    var a, b := Denominator(rf, n, ModelLength(n.model, i)), Denominator(rf, n, ModelLength(n.model, j));
    DenominatorMonotone(rf, n, ModelLength(n.model, i), ModelLength(n.model, j));
    DivAntitone(rf, 1.0, a, b);
    DivRounds(rf, 1.0, 1.0, b);
  }

  lemma SafeLonger(rf: real -> real, n: Norms, i: nat, j: nat)
    requires SafeNorms(rf, n, i) && i <= j
    ensures SafeNorms(rf, n, j) && (PositiveNorms(rf, n, i) ==> PositiveNorms(rf, n, j))
  {
    hide Denominator, Byte4ToInt, IntToByte4, FloatRounding;
    NormMonotone(i, j);
    DenominatorMonotone(rf, n, ModelLength(n.model, i), ModelLength(n.model, j));
  }

  lemma ScaledMonotone(rf: real -> real, tf: nat, inv: real, tf': nat, inv': real)
    requires FloatRounding(rf) && tf <= tf' && 0.0 <= inv <= inv'
    ensures 0.0 <= ScaledTf(rf, tf, inv) <= ScaledTf(rf, tf', inv')
  {
    hide FloatRounding, Mul;
    Rounds(rf, tf as real, tf' as real);
    MulRounds(rf, rf(tf as real), inv, inv');
    MulRounds(rf, inv', rf(tf as real), rf(tf' as real));
  }

  /** A contribution grows with the scaled frequency, from zero. */
  lemma ScoreMonotone(rf: real -> real, w: real, x: real, y: real)
    requires FloatRounding(rf) && w >= 0.0 && rf(w) == w && 0.0 <= x <= y
    ensures 0.0 <= ScoreScaled(rf, w, x) <= ScoreScaled(rf, w, y)
  {
    hide Add, Sub, Div;
    var d, e := Add(rf, 1.0, x), Add(rf, 1.0, y);
    AddRounds(rf, 1.0, x, y);
    DivAntitone(rf, w, d, e);
    DivAntitone(rf, w, 1.0, d);
    assert Div(rf, w, 1.0) == rf(w / 1.0) == w by { DivByOne(rf, w); }
    AddRounds(rf, w, Div(rf, w, e), Div(rf, w, d));
  }

  lemma DivByOne(rf: real -> real, w: real)
    ensures Div(rf, w, 1.0) == rf(w / 1.0) == rf(w)
  {
  }

  /** A contribution is at most the weight. */
  lemma ScoreBelowWeight(rf: real -> real, w: real, x: real)
    requires FloatRounding(rf) && w >= 0.0 && rf(w) == w && 0.0 <= x
    ensures 0.0 <= ScoreScaled(rf, w, x) <= w
  {
    hide Add, Sub, Div;
    ScoreMonotone(rf, w, x, x);
    var d := Add(rf, 1.0, x);
    AddRounds(rf, 1.0, x, x);
    DivAntitone(rf, w, d, d);
    AddRounds(rf, w, 0.0, Div(rf, w, d));
    assert Sub(rf, w, 0.0) == w by { SubZero(rf, w); }
  }

  lemma SubZero(rf: real -> real, w: real)
    ensures Sub(rf, w, 0.0) == rf(w)
  {
  }

  /** As long as no K is negative, a contribution grows with the frequency and falls with the length. */
  lemma TermMonotone(rf: real -> real, n: Norms, w: real, tf: nat, dl: nat, tf': nat, dl': nat)
    requires SafeNorms(rf, n, dl') && dl' <= dl && tf <= tf' && w >= 0.0 && rf(w) == w
    ensures 0.0 <= TermScore(rf, n, w, tf, dl) <= TermScore(rf, n, w, tf', dl')
  {
    hide Denominator, Inv, ScoreScaled, ScaledTf, Byte4ToInt, IntToByte4, FloatRounding;
    SafeLonger(rf, n, dl', dl);
    if Denominator(rf, n, ModelLength(n.model, dl)) > 0.0 {
      InvAntitone(rf, n, dl, dl);
      var x := ScaledTf(rf, tf, Inv(rf, n, dl));
      ScaledMonotone(rf, tf, Inv(rf, n, dl), tf, Inv(rf, n, dl));
      ScoreBelowWeight(rf, w, x);
      if Denominator(rf, n, ModelLength(n.model, dl')) > 0.0 {
        InvAntitone(rf, n, dl', dl);
        ScaledMonotone(rf, tf, Inv(rf, n, dl), tf', Inv(rf, n, dl'));
        ScoreMonotone(rf, w, x, ScaledTf(rf, tf', Inv(rf, n, dl')));
      }
    } else {
      DenominatorOrder(rf, n, dl', dl);
    }
  }

  lemma DenominatorOrder(rf: real -> real, n: Norms, i: nat, j: nat)
    requires SafeNorms(rf, n, i) && i <= j
    ensures 0.0 <= Denominator(rf, n, ModelLength(n.model, i)) <= Denominator(rf, n, ModelLength(n.model, j))
  {
    hide Denominator, Byte4ToInt, IntToByte4, FloatRounding;
    NormMonotone(i, j);
    DenominatorMonotone(rf, n, ModelLength(n.model, i), ModelLength(n.model, j));
  }

  // ---------------------------------------------------------------------------------------------
  // Negative K
  // ---------------------------------------------------------------------------------------------

  ghost predicate ExactRounding(rf: real -> real)
    ensures ExactRounding(rf) ==> FloatRounding(rf)
  {
    forall x: real :: rf(x) == x
  }

  /** The pair (largest frequency, shortest length `len`) bounds every posting it stands for. */
  ghost predicate PairBounds(rf: real -> real, n: Norms, len: nat)
    requires n.avgdl > 0.0
  {
    forall w: real, tf: nat, maxTf: nat, dl: nat :: w > 0.0 && 0 < tf <= maxTf && len <= dl ==>
      TermScore(rf, n, w, tf, dl) <= TermScore(rf, n, w, maxTf, len)
  }

  /** On the same side of -1 a smaller scaled frequency, further below zero, scores less. */
  lemma NegativeScores(rf: real -> real, w: real, x: real, y: real)
    requires ExactRounding(rf) && w > 0.0 && y < x < 0.0 && (1.0 + y > 0.0 || 1.0 + x < 0.0)
    ensures ScoreScaled(rf, w, y) < ScoreScaled(rf, w, x)
  {
    hide ExactRounding;
    var d, e := 1.0 + x, 1.0 + y;
    Quotients(w, d, e);
    ExactScore(rf, w, x);
    ExactScore(rf, w, y);
  }

  lemma ExactScore(rf: real -> real, w: real, x: real)
    requires ExactRounding(rf) && 1.0 + x != 0.0
    ensures ScoreScaled(rf, w, x) == w - w / (1.0 + x)
  {
    assert Add(rf, 1.0, x) == 1.0 + x;
  }

  lemma Quotients(w: real, d: real, e: real)
    requires w > 0.0 && e < d && (e > 0.0 || d < 0.0)
    ensures w / d < w / e
  {
    var p, q := w / d, w / e;
    SameSign(d, e);
    Regrouped(p, d, e);
    Regrouped(q, e, d);
    TimesStrict(w, e, d);
    LessByProduct(p, q, d * e);
  }

  lemma SameSign(d: real, e: real)
    requires e < d && (e > 0.0 || d < 0.0)
    ensures d * e > 0.0 && d * e == e * d
  {
  }

  lemma Regrouped(p: real, d: real, e: real)
    ensures p * (d * e) == (p * d) * e
  {
  }

  lemma TimesStrict(w: real, x: real, y: real)
    requires w > 0.0 && x < y
    ensures w * x < w * y
  {
  }

  lemma LessByProduct(p: real, q: real, c: real)
    requires c > 0.0 && p * c < q * c
    ensures p < q
  {
    if q <= p {
      ScaleMonotone(q, p, c);
    }
  }

  /** Where K is negative, one of the first four frequencies scores more than the next one. */
  lemma NegativeK(rf: real -> real, n: Norms, len: nat) returns (t: nat)
    requires ExactRounding(rf) && n.avgdl > 0.0 && Denominator(rf, n, ModelLength(n.model, len)) < 0.0
    ensures 1 <= t <= 3
    ensures forall w: real :: w > 0.0 ==> TermScore(rf, n, w, t, len) > TermScore(rf, n, w, t + 1, len)
  {
    hide Denominator, ScoreScaled;
    var i := Inv(rf, n, len);
    assert i < 0.0 by {
      NegativeReciprocal(Denominator(rf, n, ModelLength(n.model, len)));
    }
    t := if 2.0 * i > -1.0 then 1 else if 2.0 * i < -1.0 then 2 else 3;
    forall w: real | w > 0.0 ensures TermScore(rf, n, w, t, len) > TermScore(rf, n, w, t + 1, len) {
      NegativeScores(rf, w, (t as real) * i, ((t + 1) as real) * i);
    }
  }

  lemma NegativeReciprocal(k: real)
    requires k < 0.0
    ensures 1.0 / k < 0.0
  {
    assert (1.0 / k) * k == 1.0;
  }

  /** In exact arithmetic the pair bounds its postings if and only if K is not negative at the shortest length,
      which the query's parameters and the index's shortest document tell beforehand. */
  lemma PairBoundsIff(rf: real -> real, n: Norms, len: nat)
    requires ExactRounding(rf) && n.avgdl > 0.0 && n.k1 > 0.0 && n.b >= 0.0
    ensures PairBounds(rf, n, len) <==> Denominator(rf, n, ModelLength(n.model, len)) >= 0.0
  {
    hide Denominator, TermScore, Byte4ToInt, IntToByte4;
    if Denominator(rf, n, ModelLength(n.model, len)) >= 0.0 {
      forall w: real, tf: nat, maxTf: nat, dl: nat | w > 0.0 && 0 < tf <= maxTf && len <= dl
        ensures TermScore(rf, n, w, tf, dl) <= TermScore(rf, n, w, maxTf, len)
      {
        TermMonotone(rf, n, w, tf, dl, maxTf, len);
      }
    } else {
      var t := NegativeK(rf, n, len);
      assert TermScore(rf, n, 1.0, t, len) > TermScore(rf, n, 1.0, t + 1, len);
    }
  }
}
