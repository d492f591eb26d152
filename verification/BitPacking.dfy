/** The vertical four-lane packing of engine/src/lexical/codec.cc: 128 values of `bw` bits each in
    4 * bw words, value `4 * r + lane` in row `r` of its lane. */
module BitPacking {
  import opened Bits
  import opened Neon

  const ROWS: nat := 32
  const VALUES: nat := 128

  // ---------------------------------------------------------------------------------------------
  // What the format means
  // ---------------------------------------------------------------------------------------------

  /** The first `rows` values of a lane as one number: row `r` fills bits [r * bw, (r + 1) * bw). */
  function LaneStream(v: seq<u32>, bw: nat, lane: nat, rows: nat): nat
    requires |v| == VALUES && lane < 4 && rows <= ROWS
  {
    if rows == 0 then 0
    else LaneStream(v, bw, lane, rows - 1) + v[(rows - 1) * 4 + lane] * Pow2((rows - 1) * bw)
  }

  /** Word `k` of a number cut into 32-bit words, lowest first. */
  function Digit(n: nat, k: nat): u32 {
    n / Pow2(32 * k) % TWO32
  }

  /** The `width` bits of a number from bit `at`. */
  function Field(n: nat, at: nat, width: nat): nat {
    n / Pow2(at) % Pow2(width)
  }

  function Packed(v: seq<u32>, bw: nat): (w: seq<u32>)
    requires |v| == VALUES
    ensures |w| == 4 * bw
  {
    seq(4 * bw, i requires 0 <= i < 4 * bw => Digit(LaneStream(v, bw, i % 4, ROWS), i / 4))
  }

  /** The number that the first `n` words of a lane spell. */
  function LaneNumber(w: seq<u32>, lane: nat, n: nat): nat
    requires lane < 4 && 4 * n <= |w|
  {
    if n == 0 then 0 else LaneNumber(w, lane, n - 1) + w[(n - 1) * 4 + lane] * Pow2(32 * (n - 1))
  }

  function Unpacked(w: seq<u32>, bw: nat): (v: seq<nat>)
    requires |w| == 4 * bw
    ensures |v| == VALUES
  {
    seq(VALUES, i requires 0 <= i < VALUES => Field(LaneNumber(w, i % 4, bw), i / 4 * bw, bw))
  }

  ghost predicate Fits(v: seq<u32>, bw: nat) {
    forall i :: 0 <= i < |v| ==> v[i] < Pow2(bw)
  }

  // ---------------------------------------------------------------------------------------------
  // Arithmetic on numbers cut at a bit
  // ---------------------------------------------------------------------------------------------

  lemma AddMultiple(a: nat, m: nat, d: nat)
    requires d > 0
    ensures (a + m * d) / d == a / d + m && (a + m * d) % d == a % d
  {
    DivMod(a, d);
    assert a + m * d == a % d + (a / d + m) * d;
    DivModUnique(a % d, a / d + m, d);
  }

  lemma MulAssoc(a: nat, b: nat, c: nat)
    ensures a * (b * c) == (a * b) * c && a * (b * c) == b * (a * c)
  {
  }

  lemma MulLess(a: nat, b: nat, c: nat)
    requires a < b && c > 0
    ensures a * c + c <= b * c
  {
    assert b * c == a * c + (b - a) * c;
    MulAtLeast(b - a, c);
  }

  lemma CutMultiple(a: nat, m: nat, big: nat, small: nat)
    requires small <= big
    ensures (a + m * Pow2(big)) % Pow2(small) == a % Pow2(small)
    ensures (a + m * Pow2(big)) / Pow2(small) == a / Pow2(small) + m * Pow2(big - small)
  {
    var d, q := Pow2(small), m * Pow2(big - small);
    Pow2Add(big - small, small);
    MulAssoc(m, Pow2(big - small), d);
    AddMultiple(a, q, d);
  }

  lemma CutNumber(x: nat, a: nat, m: nat, big: nat, small: nat)
    requires small <= big && x == a + m * Pow2(big)
    ensures x / Pow2(small) == a / Pow2(small) + m * Pow2(big - small)
  {
    CutMultiple(a, m, big, small);
  }

  lemma QuotientBelow(n: nat, q: nat, r: nat, p: nat, b: nat)
    requires n == q * p + r && n < p * b && p > 0
    ensures q < b
  {
    assert (q + 1) * p == q * p + p;
    if b <= q {
      MulLess(b, q + 1, p);
    }
  }

  lemma DivBelow(n: nat, a: nat, b: nat)
    requires n < Pow2(a + b)
    ensures n / Pow2(a) < Pow2(b)
  {
    Pow2Add(a, b);
    DivMod(n, Pow2(a));
    QuotientBelow(n, n / Pow2(a), n % Pow2(a), Pow2(a), Pow2(b));
  }

  lemma DigitBelow(l: nat, y: nat, k0: nat, k: nat)
    requires k < k0
    ensures Digit(l + y * Pow2(32 * k0), k) == Digit(l, k)
  {
    Pow2At32();
    CutMultiple(l, y, 32 * k0, 32 * k);
    CutMultiple(l / Pow2(32 * k), y, 32 * k0 - 32 * k, 32);
  }

  lemma DigitAbove(l: nat, y: nat, k0: nat, j: nat)
    requires l < Pow2(32 * k0)
    ensures Digit(l + y * Pow2(32 * k0), k0 + j) == Digit(y, j)
  {
    DivModUnique(l, y, Pow2(32 * k0));
    Pow2Add(32 * k0, 32 * j);
    DivDiv(l + y * Pow2(32 * k0), Pow2(32 * k0), Pow2(32 * j));
    assert 32 * (k0 + j) == 32 * k0 + 32 * j;
  }

  lemma DigitBeyond(n: nat, k: nat)
    requires n < Pow2(32 * k)
    ensures Digit(n, k) == 0
  {
    DivModUnique(n, 0, Pow2(32 * k));
  }

  lemma DigitZero(n: nat)
    requires n < TWO32
    ensures Digit(n, 0) == n
  {
  }

  lemma ShiftSplit(x: nat, p: nat, q: nat, m: nat)
    requires p > 0 && q > 0 && p * q == m
    ensures 0 <= x % q * p < m && x * p == x % q * p + x / q * m
  {
    DivMod(x, q);
    MulLess(x % q, q, p);
    var h, r := x / q, x % q;
    MulAssoc(h, q, p);
    assert x * p == (h * q + r) * p == (h * q) * p + r * p;
  }

  lemma ShlIsLow(x: nat, s: nat, lo: nat, hi: nat)
    requires lo < TWO32 && x * Pow2(s) == lo + hi * TWO32
    ensures Shl32(x, s) == lo
  {
    DivModUnique(lo, hi, TWO32);
  }

  /** `x << s` in 32 bits drops the top `s` bits. */
  lemma ShlSplit(x: nat, s: nat)
    requires s <= 32
    ensures Shl32(x, s) == x % Pow2(32 - s) * Pow2(s)
    ensures x * Pow2(s) == Shl32(x, s) + x / Pow2(32 - s) * TWO32
  {
    Pow2Add(s, 32 - s);
    Pow2At32();
    var q := Pow2(32 - s);
    DivMod(x, q);
    ShiftSplit(x, Pow2(s), q, TWO32);
    ShlIsLow(x, s, x % q * Pow2(s), x / q);
  }

  // ---------------------------------------------------------------------------------------------
  // Packing
  // ---------------------------------------------------------------------------------------------

  lemma Regroup(s: nat, l: nat, x: nat, p: nat, val: nat, q: nat)
    requires s == x * p + l
    ensures s + val * (p * q) == l + (x + val * q) * p
  {
    MulAssoc(val, p, q);
    assert (val * q) * p == val * (p * q);
    assert (x + val * q) * p == x * p + (val * q) * p;
  }

  /** What adding one value above the bits already used does to each word. */
  ghost predicate WordsAdvance(s: nat, s': nat, val: u32, k0: nat, sh: nat, bw: nat, k: nat)
    requires sh < 32
  {
    && (k < k0 || k > k0 + 1 ==> Digit(s', k) == Digit(s, k))
    && (k == k0 ==> Digit(s', k) == Or(Digit(s, k), Shl32(val, sh)))
    && (k == k0 + 1 ==> Digit(s', k) == if sh + bw > 32 then Or(Digit(s, k), Shr(val, 32 - sh)) else Digit(s, k))
  }

  /** One `|=` of pack128 per word: `s'` is `s` with `val` put at bit 32 * k0 + sh. */
  lemma PackStep(s: nat, s': nat, val: u32, k0: nat, sh: nat, bw: nat, k: nat)
    requires sh < 32 && bw <= 32 && s < Pow2(32 * k0 + sh) && val < Pow2(bw)
    requires s' == s + val * Pow2(32 * k0 + sh)
    ensures WordsAdvance(s, s', val, k0, sh, bw, k)
  {
    var p := Pow2(32 * k0);
    var l, x := s % p, s / p;
    DivMod(s, p);
    DivBelow(s, 32 * k0, sh);
    MulNotSmaller(val, Pow2(sh));
    var y: nat := x + val * Pow2(sh);
    Pow2Add(32 * k0, sh);
    Regroup(s, l, x, p, val, Pow2(sh));
    DigitCut(s, l, x, k0, k);
    DigitCut(s', l, y, k0, k);
    if k >= k0 {
      StepAbove(x, y, val, sh, bw, k - k0);
    }
  }

  lemma DigitCut(s: nat, l: nat, y: nat, k0: nat, k: nat)
    requires l < Pow2(32 * k0) && s == l + y * Pow2(32 * k0)
    ensures Digit(s, k) == if k < k0 then Digit(l, k) else Digit(y, k - k0)
  {
    if k < k0 {
      DigitBelow(l, y, k0, k);
    } else {
      DigitAbove(l, y, k0, k - k0);
    }
  }

  /** The word a value starts in, and what is left for the words above it. */
  lemma StepSplit(x: nat, val: u32, sh: nat)
    requires sh < 32 && x < Pow2(sh)
    ensures var low, high := Or(x, Shl32(val, sh)), Shr(val, 32 - sh);
            low < TWO32 && high < TWO32 && x + val * Pow2(sh) == low + high * TWO32
  {
    Pow2At32();
    Pow2Monotone(sh, 32);
    ShlSplit(val, sh);
    OrDisjoint(x, val % Pow2(32 - sh), sh);
    OrBelow(x, Shl32(val, sh), 32);
    DivMod(val, Pow2(32 - sh));
    MulNotSmaller(val / Pow2(32 - sh), Pow2(32 - sh));
  }

  lemma StepAbove(x: nat, y: nat, val: u32, sh: nat, bw: nat, j: nat)
    requires sh < 32 && bw <= 32 && x < Pow2(sh) && val < Pow2(bw) && y == x + val * Pow2(sh)
    ensures j == 0 ==> Digit(y, j) == Or(Digit(x, j), Shl32(val, sh))
    ensures j == 1 ==> Digit(y, j) == if sh + bw > 32 then Or(Digit(x, j), Shr(val, 32 - sh)) else Digit(x, j)
    ensures j > 1 ==> Digit(y, j) == Digit(x, j)
  {
    StepSplit(x, val, sh);
    TwoWords(Or(x, Shl32(val, sh)), Shr(val, 32 - sh), j);
    SmallDigit(x, sh, j);
    StepHigh(val, sh, bw);
  }

  lemma SmallDigit(x: nat, sh: nat, j: nat)
    requires sh <= 32 && x < Pow2(sh)
    ensures Digit(x, j) == if j == 0 then x else 0
  {
    Pow2At32();
    Pow2Monotone(sh, 32);
    if j == 0 {
      DigitZero(x);
    } else {
      Pow2Monotone(32, 32 * j);
      DigitBeyond(x, j);
    }
  }

  lemma TwoWords(low: u32, high: u32, j: nat)
    ensures Digit(low + high * TWO32, j) == if j == 0 then low else if j == 1 then high else 0
  {
    Pow2At32();
    if j == 0 {
      DivModUnique(low, high, TWO32);
      DivMod(low + high * TWO32, 1);
    } else {
      DigitAbove(low, high, 1, j - 1);
      if j == 1 {
        DigitZero(high);
      } else {
        Pow2Monotone(32, 32 * (j - 1));
        DigitBeyond(high, j - 1);
      }
    }
  }

  lemma StepHigh(val: u32, sh: nat, bw: nat)
    requires sh < 32 && bw <= 32 && val < Pow2(bw)
    ensures Shr(val, 32 - sh) == if sh + bw > 32 then Or(0, Shr(val, 32 - sh)) else 0
  {
    OrZero(Shr(val, 32 - sh));
    if sh + bw <= 32 {
      Pow2Monotone(bw, 32 - sh);
      DivModUnique(val, 0, Pow2(32 - sh));
    }
  }

  lemma MulNotSmaller(a: nat, b: nat)
    requires b >= 1
    ensures a <= a * b
  {
    assert a * b == a + a * (b - 1);
  }

  lemma {:induction false} StreamBelow(v: seq<u32>, bw: nat, lane: nat, rows: nat)
    requires |v| == VALUES && lane < 4 && rows <= ROWS && Fits(v, bw)
    ensures LaneStream(v, bw, lane, rows) < Pow2(rows * bw)
  {
    if rows > 0 {
      var r: nat := rows - 1;
      StreamBelow(v, bw, lane, r);
      RowPower(r, bw);
      TopFits(LaneStream(v, bw, lane, r), v[r * 4 + lane], Pow2(r * bw), Pow2(bw));
    }
  }

  lemma TopFits(below: nat, val: nat, p: nat, q: nat)
    requires below < p && val < q
    ensures below + val * p < q * p
  {
    MulLess(val, q, p);
  }

  lemma RowPower(r: nat, bw: nat)
    ensures Pow2((r + 1) * bw) == Pow2(bw) * Pow2(r * bw)
  {
    Pow2Add(bw, r * bw);
    assert bw + r * bw == (r + 1) * bw;
  }

  ghost predicate LaneHolds(w: seq<u32>, bw: nat, lane: nat, n: nat)
    requires lane < 4 && 4 * bw <= |w|
  {
    forall k :: 0 <= k < bw ==> w[k * 4 + lane] == Digit(n, k)
  }

  lemma LaneOf(k: nat, lane: nat)
    requires lane < 4
    ensures (k * 4 + lane) % 4 == lane && (k * 4 + lane) / 4 == k
  {
  }

  /** The body of pack128's inner loop: or one value into its lane's words `k` and `k + 1`. */
  method OrValue(w: array<u32>, val: u32, bw: nat, lane: nat, k: nat, sh: nat, ghost s: nat, ghost s': nat)
    requires w.Length == VALUES && 0 < bw <= 32 && lane < 4 && sh < 32 && 32 * k + sh + bw <= 32 * bw
    requires val < Pow2(bw) && s < Pow2(32 * k + sh) && LaneHolds(w[..], bw, lane, s)
    requires s' == s + val * Pow2(32 * k + sh)
    modifies w
    ensures LaneHolds(w[..], bw, lane, s')
    ensures forall j :: 0 <= j < VALUES && j % 4 != lane ==> w[j] == old(w[j])
  {
    forall i: nat ensures WordsAdvance(s, s', val, k, sh, bw, i) {
      PackStep(s, s', val, k, sh, bw, i);
    }
    OrWords(w, val, bw, lane, k, sh, s, s');
  }

  method OrWords(w: array<u32>, val: u32, bw: nat, lane: nat, k: nat, sh: nat, ghost s: nat, ghost s': nat)
    requires w.Length == VALUES && 0 < bw <= 32 && lane < 4 && sh < 32 && 32 * k + sh + bw <= 32 * bw
    requires LaneHolds(w[..], bw, lane, s)
    requires forall i: nat :: WordsAdvance(s, s', val, k, sh, bw, i)
    modifies w
    ensures LaneHolds(w[..], bw, lane, s')
    ensures forall j :: 0 <= j < VALUES && j % 4 != lane ==> w[j] == old(w[j])
  {
    LaneOf(k, lane);
    LaneOf(k + 1, lane);
    assert WordsAdvance(s, s', val, k, sh, bw, k) && WordsAdvance(s, s', val, k, sh, bw, k + 1);
    assert w[k * 4 + lane] == w[..][k * 4 + lane] == Digit(s, k);
    w[k * 4 + lane] := Or(w[k * 4 + lane], Shl32(val, sh));
    if sh + bw > 32 {
      assert w[(k + 1) * 4 + lane] == old(w[..])[(k + 1) * 4 + lane] == Digit(s, k + 1);
      w[(k + 1) * 4 + lane] := Or(w[(k + 1) * 4 + lane], Shr(val, 32 - sh));
    }
    forall i | 0 <= i < bw ensures w[i * 4 + lane] == Digit(s', i) {
      assert WordsAdvance(s, s', val, k, sh, bw, i);
      assert old(w[..])[i * 4 + lane] == Digit(s, i);
    }
  }

  /** pack128: each lane's values are or-ed into its words row by row. */
  method Pack128(v: seq<u32>, bw: nat, w: array<u32>)
    requires |v| == VALUES && bw <= 32 && Fits(v, bw) && w.Length == VALUES
    modifies w
    ensures w[..4 * bw] == Packed(v, bw)
  {
    for i := 0 to 4 * bw
      invariant forall j :: 0 <= j < i ==> w[j] == 0
    {
      w[i] := 0;
    }
    if bw == 0 {
      return;
    }
    ZeroDigits();
    for lane := 0 to 4
      invariant forall l :: 0 <= l < lane ==> LaneHolds(w[..], bw, l, LaneStream(v, bw, l, ROWS))
      invariant forall l :: lane <= l < 4 ==> LaneHolds(w[..], bw, l, 0)
    {
      ghost var before := w[..];
      PackLane(v, bw, lane, w);
      forall l | 0 <= l < 4 && l != lane ensures SameLane(before, w[..], bw, l) {
        forall k | 0 <= k < bw ensures w[k * 4 + l] == before[k * 4 + l] {
          LaneOf(k, l);
        }
      }
      forall l | 0 <= l < lane ensures LaneHolds(w[..], bw, l, LaneStream(v, bw, l, ROWS)) {
        assert SameLane(before, w[..], bw, l) && LaneHolds(before, bw, l, LaneStream(v, bw, l, ROWS));
      }
      forall l | lane < l < 4 ensures LaneHolds(w[..], bw, l, 0) {
        assert SameLane(before, w[..], bw, l) && LaneHolds(before, bw, l, 0);
      }
    }
    forall i | 0 <= i < 4 * bw ensures w[i] == Packed(v, bw)[i] {
      assert LaneHolds(w[..], bw, i % 4, LaneStream(v, bw, i % 4, ROWS));
      assert w[..][i / 4 * 4 + i % 4] == Digit(LaneStream(v, bw, i % 4, ROWS), i / 4);
    }
  }

  ghost predicate SameLane(a: seq<u32>, b: seq<u32>, bw: nat, l: nat)
    requires |a| == |b| == VALUES && bw <= 32 && l < 4
  {
    forall k :: 0 <= k < bw ==> b[k * 4 + l] == a[k * 4 + l]
  }

  method PackLane(v: seq<u32>, bw: nat, lane: nat, w: array<u32>)
    requires |v| == VALUES && 0 < bw <= 32 && Fits(v, bw) && w.Length == VALUES && lane < 4
    requires LaneHolds(w[..], bw, lane, 0)
    modifies w
    ensures LaneHolds(w[..], bw, lane, LaneStream(v, bw, lane, ROWS))
    ensures forall j :: 0 <= j < VALUES && j % 4 != lane ==> w[j] == old(w[j])
  {
    var bitpos := 0;
    for r := 0 to ROWS
      invariant bitpos == r * bw
      invariant LaneHolds(w[..], bw, lane, LaneStream(v, bw, lane, r))
      invariant forall j :: 0 <= j < VALUES && j % 4 != lane ==> w[j] == old(w[j])
    {
      StreamBelow(v, bw, lane, r);
      RowInside(r, bw);
      OrValue(w, v[r * 4 + lane], bw, lane, bitpos / 32, bitpos % 32,
        LaneStream(v, bw, lane, r), LaneStream(v, bw, lane, r + 1));
      bitpos := bitpos + bw;
    }
  }

  lemma ZeroDigits()
    ensures forall k: nat :: Digit(0, k) == 0
  {
    forall k: nat ensures Digit(0, k) == 0 {
      DigitBeyond(0, k);
    }
  }

  lemma RowInside(r: nat, bw: nat)
    requires r < ROWS && 0 < bw <= 32
    ensures (r + 1) * bw == r * bw + bw <= 32 * bw
  {
    MulLess(r, ROWS, bw);
  }

  // ---------------------------------------------------------------------------------------------
  // Unpacking
  // ---------------------------------------------------------------------------------------------

  lemma {:induction false} NumberBelow(w: seq<u32>, lane: nat, n: nat)
    requires lane < 4 && 4 * n <= |w|
    ensures LaneNumber(w, lane, n) < Pow2(32 * n)
  {
    if n > 0 {
      NumberBelow(w, lane, n - 1);
      Pow2Add(32, 32 * (n - 1));
      Pow2At32();
      MulLess(w[(n - 1) * 4 + lane], TWO32, Pow2(32 * (n - 1)));
    }
  }

  lemma {:induction false} NumberDigits(w: seq<u32>, lane: nat, n: nat, k: nat)
    requires lane < 4 && 4 * n <= |w|
    ensures Digit(LaneNumber(w, lane, n), k) == if k < n then w[k * 4 + lane] else 0
  {
    if n == 0 {
      DigitBeyond(0, k);
    } else {
      var l, y := LaneNumber(w, lane, n - 1), w[(n - 1) * 4 + lane];
      NumberBelow(w, lane, n - 1);
      DigitCut(LaneNumber(w, lane, n), l, y, n - 1, k);
      NumberDigits(w, lane, n - 1, k);
      if k >= n - 1 {
        TwoWords(y, 0, k - (n - 1));
      }
    }
  }

  /** The part of a field that lies in its first word, and the part in the next. */
  lemma FieldFromDigits(n: nat, k: nat, sh: nat, bw: nat)
    requires sh < 32 && bw <= 32
    ensures sh + bw <= 32 ==> And(Shr(Digit(n, k), sh), Pow2(bw) - 1) == Field(n, 32 * k + sh, bw)
    ensures sh + bw > 32 ==>
      And(Or(Shr(Digit(n, k), sh), Shl32(Digit(n, k + 1), 32 - sh)), Pow2(bw) - 1) == Field(n, 32 * k + sh, bw)
  {
    DivMod(n, Pow2(32 * k));
    var x: nat := n / Pow2(32 * k);
    Pow2Add(32 * k, sh);
    DivDiv(n, Pow2(32 * k), Pow2(sh));
    Pow2Add(32 * k, 32);
    Pow2At32();
    DivDiv(n, Pow2(32 * k), TWO32);
    assert 32 * (k + 1) == 32 * k + 32;
    DivMod(x, TWO32);
    if sh + bw <= 32 {
      FieldOfOneWord(x, x % TWO32, x / TWO32, sh, bw);
    } else {
      FieldOfTwoWords(x, x % TWO32, x / TWO32, sh, bw);
    }
  }

  lemma FieldOfOneWord(x: nat, w0: u32, h: nat, sh: nat, bw: nat)
    requires sh < 32 && sh + bw <= 32 && x == w0 + h * Pow2(32)
    ensures And(Shr(w0, sh), Pow2(bw) - 1) == x / Pow2(sh) % Pow2(bw)
  {
    CutNumber(x, w0, h, 32, sh);
    DivMod(x, Pow2(sh));
    var e: nat, low: nat := x / Pow2(sh), Shr(w0, sh);
    assert e == low + h * Pow2(32 - sh);
    FieldInside(e, low, h, sh, bw);
  }

  lemma FieldOfTwoWords(x: nat, w0: u32, h: nat, sh: nat, bw: nat)
    requires sh < 32 && bw <= 32 && sh + bw > 32 && x == w0 + h * Pow2(32)
    ensures And(Or(Shr(w0, sh), Shl32(h % TWO32, 32 - sh)), Pow2(bw) - 1) == x / Pow2(sh) % Pow2(bw)
  {
    hide *;
    FirstWordShifted(x, w0, h, sh);
    FieldAcross(x / Pow2(sh), Shr(w0, sh), h, sh, bw);
  }

  lemma FirstWordShifted(x: nat, w0: u32, h: nat, sh: nat)
    requires sh < 32 && x == w0 + h * Pow2(32)
    ensures Shr(w0, sh) < Pow2(32 - sh) && x / Pow2(sh) == Shr(w0, sh) + h * Pow2(32 - sh) && x / Pow2(sh) >= 0
  {
    hide Pow2, Shr;
    Pow2At32();
    CutNumber(x, w0, h, 32, sh);
    DivBelow(w0, sh, 32 - sh);
    DivMod(x, Pow2(sh));
    ShrIs(w0, sh);
  }

  lemma ShrIs(x: nat, s: nat)
    ensures Shr(x, s) == x / Pow2(s)
  {
  }

  lemma FieldInside(e: nat, low: nat, h: nat, sh: nat, bw: nat)
    requires sh < 32 && sh + bw <= 32 && e == low + h * Pow2(32 - sh)
    ensures And(low, Pow2(bw) - 1) == e % Pow2(bw)
  {
    CutMultiple(low, h, 32 - sh, bw);
    AndMask(low, bw);
  }

  lemma FieldAcross(e: nat, low: nat, h: nat, sh: nat, bw: nat)
    requires sh < 32 && bw <= 32 && sh + bw > 32
    requires low < Pow2(32 - sh) && e == low + h * Pow2(32 - sh)
    ensures And(Or(low, Shl32(h % TWO32, 32 - sh)), Pow2(bw) - 1) == e % Pow2(bw)
  {
    var w1, up := h % TWO32, 32 - sh;
    DivMod(h, TWO32);
    ShlSplit(w1, up);
    OrDisjoint(low, w1 % Pow2(32 - up), up);
    var kept := low + Shl32(w1, up);
    var over := w1 / Pow2(32 - up) + h / TWO32 * Pow2(up);
    Pow2At32();
    DivMod(w1, Pow2(32 - up));
    Spread(h, h / TWO32, w1, Pow2(up), Shl32(w1, up), w1 / Pow2(32 - up));
    assert e == kept + over * Pow2(32);
    CutMultiple(kept, over, 32, bw);
    AndMask(kept, bw);
  }

  lemma Spread(h: nat, h2: nat, w1: nat, p: nat, t: nat, c: nat)
    requires h == h2 * TWO32 + w1 && w1 * p == t + c * TWO32
    ensures h * p == t + (c + h2 * p) * TWO32 && 0 <= h2 * p
  {
    MulAssoc(h2, TWO32, p);
    assert h * p == (h2 * TWO32) * p + w1 * p;
  }

  /** A value, cut out of the word it starts in and, if it crosses into it, the next. */
  function CutWord(w0: u32, w1: u32, sh: nat, bw: nat): u32
    requires sh < 32 && bw <= 32
  {
    var x := Shr(w0, sh);
    var y := if sh + bw > 32 then Or(x, Shl32(w1, 32 - sh)) else x;
    AndBelow(y, Pow2(bw) - 1);
    Pow2Monotone(bw, 32);
    Pow2At32();
    And(y, Pow2(bw) - 1)
  }

  lemma WordInside(r: nat, bw: nat)
    requires r < ROWS && bw <= 32
    ensures 0 <= r * bw && r * bw / 32 < ROWS && (bw > 0 ==> r * bw / 32 < bw)
    ensures r * bw % 32 + bw > 32 ==> r * bw / 32 + 1 < bw
  {
    if bw > 0 {
      RowInside(r, bw);
    }
  }

  /** For any two words: the mask leaves nothing of a value of no bits. */
  lemma CutNothing(w0: u32, w1: u32, sh: nat)
    requires sh < 32
    ensures CutWord(w0, w1, sh, 0) == 0
  {
  }

  /** What the shifts and masks of either kernel cut out. */
  lemma CutIsField(words: seq<u32>, bw: nat, r: nat, lane: nat, w0: u32, w1: u32)
    requires |words| == VALUES && bw <= 32 && r < ROWS && lane < 4 && r * bw / 32 < ROWS
    requires w0 == words[r * bw / 32 * 4 + lane]
    requires r * bw % 32 + bw > 32 ==> r * bw / 32 + 1 < bw && w1 == words[(r * bw / 32 + 1) * 4 + lane]
    ensures CutWord(w0, w1, r * bw % 32, bw) == Field(LaneNumber(words[..4 * bw], lane, bw), r * bw, bw)
  {
    hide Field, LaneNumber, Digit;
    var w := words[..4 * bw];
    var n := LaneNumber(w, lane, bw);
    if bw == 0 {
      CutNothing(w0, w1, 0);
      EmptyField(n, 0);
    } else {
      WordInside(r, bw);
      var k, sh := r * bw / 32, r * bw % 32;
      NumberDigits(w, lane, bw, k);
      NumberDigits(w, lane, bw, k + 1);
      CutOfDigits(n, k, sh, bw, w0, w1);
    }
  }

  lemma CutOfDigits(n: nat, k: nat, sh: nat, bw: nat, w0: u32, w1: u32)
    requires sh < 32 && bw <= 32 && w0 == Digit(n, k) && (sh + bw > 32 ==> w1 == Digit(n, k + 1))
    ensures CutWord(w0, w1, sh, bw) == Field(n, 32 * k + sh, bw)
  {
    hide Field, Digit, And, Or, Shl32, Shr, Pow2;
    FieldFromDigits(n, k, sh, bw);
  }

  /** unpack128_scalar: value by value. */
  method Unpack128(w: array<u32>, bw: nat, out: array<u32>)
    requires w.Length == VALUES && out.Length == VALUES && bw <= 32 && w != out
    modifies out
    ensures out[..] == Unpacked(w[..4 * bw], bw)
  {
    hide CutWord, Field, LaneNumber;
    ghost var words := w[..];
    for r := 0 to ROWS
      invariant forall i :: 0 <= i < 4 * r ==> out[i] == Unpacked(words[..4 * bw], bw)[i]
    {
      WordInside(r, bw);
      var bitpos := r * bw;
      var k, sh := bitpos / 32, bitpos % 32;
      for lane := 0 to 4
        invariant forall i :: 0 <= i < 4 * r + lane ==> out[i] == Unpacked(words[..4 * bw], bw)[i]
      {
        var w1 := if sh + bw > 32 then w[(k + 1) * 4 + lane] else 0;
        CutIsField(words, bw, r, lane, w[k * 4 + lane], w1);
        LaneOf(r, lane);
        out[r * 4 + lane] := CutWord(w[k * 4 + lane], w1, sh, bw);
      }
    }
  }

  /** A row of four values, as they are to be cut. */
  function CutRow(v0: Vector, v1: Vector, sh: nat, bw: nat): Vector
    requires sh < 32 && bw <= 32
  {
    Vector(CutWord(v0.l0, v1.l0, sh, bw), CutWord(v0.l1, v1.l1, sh, bw),
           CutWord(v0.l2, v1.l2, sh, bw), CutWord(v0.l3, v1.l3, sh, bw))
  }

  /** Each lane of the vectors is cut as a word is: a shift by a negative count is one to the right. */
  lemma LaneIsCut(x: u32, y: u32, sh: nat, bw: nat)
    requires sh < 32 && bw <= 32
    ensures Pow2(bw) - 1 < TWO32
    ensures var a := ShlLane(x, -(sh as int));
            AndLane(if sh + bw > 32 then OrLane(a, ShlLane(y, 32 - sh)) else a, Pow2(bw) - 1) == CutWord(x, y, sh, bw)
  {
    hide And, Or, Shl32, Shr, ShlLane;
    Pow2Monotone(bw, 32);
    Pow2At32();
    ShiftRight(x, sh);
    if sh + bw > 32 {
      ShiftLeft(y, 32 - sh);
    }
  }

  lemma ShiftLeft(x: u32, s: nat)
    requires s < 32
    ensures ShlLane(x, s) == Shl32(x, s)
  {
  }

  lemma ShiftRight(x: u32, sh: nat)
    requires sh < 32
    ensures ShlLane(x, -(sh as int)) == Shr(x, sh)
  {
    if sh == 0 {
      DivMod(x, 1);
    }
  }

  /** The vector instructions of unpack128_neon on one row. */
  method CutRowNeon(w: array<u32>, k: nat, sh: nat, bw: nat) returns (v: Vector, ghost v1: Vector)
    requires w.Length == VALUES && sh < 32 && bw <= 32 && k < ROWS && (sh + bw > 32 ==> k + 1 < ROWS)
    ensures v == CutRow(Load(w, k * 4), v1, sh, bw)
    ensures sh + bw > 32 ==> v1 == Load(w, (k + 1) * 4)
  {
    hide CutWord, ShlLane, OrLane, AndLane, Pow2;
    ghost var v0 := Load(w, k * 4);
    v1 := if sh + bw > 32 then Load(w, (k + 1) * 4) else Dup(0);
    LaneIsCut(v0.l0, v1.l0, sh, bw);
    LaneIsCut(v0.l1, v1.l1, sh, bw);
    LaneIsCut(v0.l2, v1.l2, sh, bw);
    LaneIsCut(v0.l3, v1.l3, sh, bw);
    v := Shl(Load(w, k * 4), -(sh as int));
    if sh + bw > 32 {
      v := OrLanes(v, Shl(Load(w, (k + 1) * 4), 32 - sh));
    }
    v := AndLanes(v, Dup(Pow2(bw) - 1));
  }

  /** A row's four values are the next four of the answer. */
  lemma RowIsFields(words: seq<u32>, bw: nat, r: nat, v0: Vector, v1: Vector)
    requires |words| == VALUES && bw <= 32 && r < ROWS && r * bw / 32 < ROWS && AreAt(v0, words, r * bw / 32 * 4)
    requires r * bw % 32 + bw > 32 ==> r * bw / 32 + 1 < bw && AreAt(v1, words, (r * bw / 32 + 1) * 4)
    ensures AreAt(CutRow(v0, v1, r * bw % 32, bw), Unpacked(words[..4 * bw], bw), r * 4)
  {
    hide CutWord, Field, LaneNumber;
    CutIsField(words, bw, r, 0, v0.l0, v1.l0);
    CutIsField(words, bw, r, 1, v0.l1, v1.l1);
    CutIsField(words, bw, r, 2, v0.l2, v1.l2);
    CutIsField(words, bw, r, 3, v0.l3, v1.l3);
    LaneOf(r, 0);
    LaneOf(r, 1);
    LaneOf(r, 2);
    LaneOf(r, 3);
  }

  ghost predicate AreAt(v: Vector, s: seq<nat>, i: nat)
    requires i + 4 <= |s|
  {
    s[i] == v.l0 && s[i + 1] == v.l1 && s[i + 2] == v.l2 && s[i + 3] == v.l3
  }

  /** unpack128_neon: a row of four values at a time. */
  method UnpackNeon(w: array<u32>, bw: nat, out: array<u32>)
    requires w.Length == VALUES && out.Length == VALUES && bw <= 32 && w != out
    modifies out
    ensures out[..] == Unpacked(w[..4 * bw], bw)
  {
    hide CutWord, Field, LaneNumber;
    ghost var words := w[..];
    for r := 0 to ROWS
      invariant forall i :: 0 <= i < 4 * r ==> out[i] == Unpacked(words[..4 * bw], bw)[i]
    {
      WordInside(r, bw);
      var bitpos := r * bw;
      var k, sh := bitpos / 32, bitpos % 32;
      var v;
      ghost var v1;
      v, v1 := CutRowNeon(w, k, sh, bw);
      RowIsFields(words, bw, r, Load(w, k * 4), v1);
      Store(out, r * 4, v);
    }
  }

  lemma EmptyField(n: nat, at: nat)
    ensures Field(n, at, 0) == 0
  {
    DivMod(n, Pow2(at));
    DivMod(n / Pow2(at), 1);
  }

  lemma FieldIsWord(n: nat, at: nat, width: nat)
    requires width <= 32
    ensures 0 <= Field(n, at, width) < Pow2(width) <= TWO32
  {
    DivMod(n, Pow2(at));
    DivMod(n / Pow2(at), Pow2(width));
    Pow2Monotone(width, 32);
    Pow2At32();
  }

  // ---------------------------------------------------------------------------------------------
  // Round trip
  // ---------------------------------------------------------------------------------------------

  lemma {:induction false} FieldOfStream(v: seq<u32>, bw: nat, lane: nat, rows: nat, r: nat)
    requires |v| == VALUES && lane < 4 && r < rows <= ROWS && bw <= 32 && Fits(v, bw)
    ensures Field(LaneStream(v, bw, lane, rows), r * bw, bw) == v[r * 4 + lane]
  {
    var top := rows - 1;
    var below, val := LaneStream(v, bw, lane, top), v[top * 4 + lane];
    StreamBelow(v, bw, lane, top);
    if r == top {
      FieldOnTop(below, val, r * bw, bw);
    } else {
      FieldOfStream(v, bw, lane, top, r);
      FieldKept(below, val, top, r, bw);
    }
  }

  lemma FieldOnTop(below: nat, val: nat, at: nat, bw: nat)
    requires below < Pow2(at) && val < Pow2(bw)
    ensures 0 <= val * Pow2(at) && Field(below + val * Pow2(at), at, bw) == val
  {
    MulNotSmaller(val, Pow2(at));
    DivModUnique(below, val, Pow2(at));
    DivModUnique(val, 0, Pow2(bw));
  }

  lemma FieldKept(below: nat, val: nat, top: nat, r: nat, bw: nat)
    requires r < top
    ensures 0 <= r * bw && 0 <= top * bw && 0 <= val * Pow2(top * bw)
    ensures Field(below + val * Pow2(top * bw), r * bw, bw) == Field(below, r * bw, bw)
  {
    MulNotSmaller(val, Pow2(top * bw));
    var a, b := r * bw, top * bw;
    assert a + bw <= b by {
      if bw > 0 {
        MulLess(r, top, bw);
      }
    }
    CutMultiple(below, val, b, a);
    DivMod(below, Pow2(a));
    CutMultiple(below / Pow2(a), val, b - a, bw);
  }

  lemma {:induction false} NumberOfDigits(w: seq<u32>, lane: nat, n: nat, s: nat)
    requires lane < 4 && 4 * n <= |w|
    requires forall k :: 0 <= k < n ==> w[k * 4 + lane] == Digit(s, k)
    ensures LaneNumber(w, lane, n) == s % Pow2(32 * n)
  {
    if n == 0 {
      DivMod(s, 1);
    } else {
      NumberOfDigits(w, lane, n - 1, s);
      var p := Pow2(32 * (n - 1));
      Pow2Add(32 * (n - 1), 32);
      Pow2At32();
      assert Pow2(32 * n) == p * TWO32 by {
        assert 32 * n == 32 * (n - 1) + 32;
      }
      DivMod(s, p);
      TopDigit(s, p, s / p);
      assert w[(n - 1) * 4 + lane] == Digit(s, n - 1);
    }
  }

  lemma TopDigit(s: nat, p: nat, q: nat)
    requires p > 0 && q == s / p
    ensures 0 < p * TWO32 && s % (p * TWO32) == s % p + q % TWO32 * p
  {
    DivMod(s, p);
    DivMod(q, TWO32);
    Nested(s, q, s % p, p, q / TWO32, q % TWO32, TWO32);
    DivModUnique(q % TWO32 * p + s % p, q / TWO32, p * TWO32);
  }

  lemma UnpackedAt(v: seq<u32>, bw: nat, r: nat, lane: nat)
    requires |v| == VALUES && bw <= 32 && Fits(v, bw) && r < ROWS && lane < 4
    ensures Field(LaneNumber(Packed(v, bw), lane, bw), r * bw, bw) == v[r * 4 + lane]
  {
    var s := LaneStream(v, bw, lane, ROWS);
    forall k | 0 <= k < bw ensures Packed(v, bw)[k * 4 + lane] == Digit(s, k) {
      LaneOf(k, lane);
    }
    NumberOfDigits(Packed(v, bw), lane, bw, s);
    StreamBelow(v, bw, lane, ROWS);
    DivModUnique(s, 0, Pow2(32 * bw));
    FieldOfStream(v, bw, lane, ROWS, r);
  }

  /** Unpacking inverts packing for every width, and so the words written are the words needed. */
  lemma UnpackInvertsPack(v: seq<u32>, bw: nat)
    requires |v| == VALUES && bw <= 32 && Fits(v, bw)
    ensures Unpacked(Packed(v, bw), bw) == v
  {
    hide Packed, Field, LaneNumber, Fits;
    forall i | 0 <= i < VALUES ensures Unpacked(Packed(v, bw), bw)[i] == v[i] {
      UnpackedAt(v, bw, i / 4, i % 4);
    }
  }
}
