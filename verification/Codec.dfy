/** engine/src/lexical/codec.cc: the VByte and BP128 posting codecs. */
module Codec {
  import opened Bits
  import opened Varint
  import opened BitPacking
  import opened Neon

  const BLOCK_SIZE: nat := 128

  datatype CodecKind = VByteCodec | Bp128Codec

  /** A decoded block and the offset of the first byte after it. */
  datatype Decoded = Decoded(docs: seq<u32>, tfs: seq<u32>, next: nat)

  // ---------------------------------------------------------------------------------------------
  // Gaps
  // ---------------------------------------------------------------------------------------------

  /** The document after `prev` across a stored gap, in 32-bit arithmetic. */
  function NextDoc(prev: u32, gap: u32): u32 {
    Add32(Add32(gap, 1), prev)
  }

  function GapOf(doc: u32, prev: u32): u32 {
    var g: int := doc - prev - 1;
    if g < 0 then g + TWO32 else g
  }

  /** Document gaps less one, in 32-bit wrap-around arithmetic; the first list starts from UINT32_MAX. */
  function Gaps(docs: seq<u32>, prev: u32): (g: seq<u32>)
    ensures |g| == |docs|
  {
    if docs == [] then [] else [GapOf(docs[0], prev)] + Gaps(docs[1..], docs[0])
  }

  /** Running sums of `gap + 1` from `prev`. */
  function PrefixDocs(gaps: seq<u32>, prev: u32): (d: seq<u32>)
    ensures |d| == |gaps|
  {
    if gaps == [] then [] else
      var d := NextDoc(prev, gaps[0]);
      [d] + PrefixDocs(gaps[1..], d)
  }

  function Total(gaps: seq<u32>): nat {
    if gaps == [] then 0 else gaps[0] + Total(gaps[1..])
  }

  /** A document is the previous one, the gaps up to its own and one for each of them, in 32 bits. */
  lemma {:induction false} PrefixMeaning(gaps: seq<u32>, prev: u32, i: nat)
    requires i < |gaps|
    ensures PrefixDocs(gaps, prev)[i] == (prev + Total(gaps[..i + 1]) + i + 1) % TWO32
  {
    var d := NextDoc(prev, gaps[0]);
    assert d == (prev + gaps[0] + 1) % TWO32;
    if i == 0 {
      assert gaps[..1] == [gaps[0]] && [gaps[0]][1..] == [];
    } else {
      PrefixMeaning(gaps[1..], d, i - 1);
      assert gaps[..i + 1][1..] == gaps[1..][..i];
      assert Total(gaps[..i + 1]) == gaps[0] + Total(gaps[1..][..i]);
      WrapOnce(prev + gaps[0] + 1, Total(gaps[1..][..i]) + i);
    }
  }

  lemma WrapOnce(a: nat, b: nat)
    ensures (a % TWO32 + b) % TWO32 == (a + b) % TWO32
  {
  }

  /** Of ascending documents the gaps are the differences less one; the first is taken from `prev`, and from -1 if
      that is UINT32_MAX. */
  lemma {:induction false} GapsMeaning(docs: seq<u32>, prev: u32, i: nat)
    requires i < |docs| && forall j :: 0 < j < |docs| ==> docs[j - 1] < docs[j]
    ensures i > 0 ==> Gaps(docs, prev)[i] == docs[i] - docs[i - 1] - 1
    ensures i == 0 && prev == 0xFFFF_FFFF ==> Gaps(docs, prev)[0] == docs[0]
    ensures i == 0 && prev < docs[0] ==> Gaps(docs, prev)[0] == docs[0] - prev - 1
  {
    if i > 0 {
      if i > 1 {
        GapsMeaning(docs[1..], docs[0], i - 1);
      } else {
        assert Gaps(docs[1..], docs[0])[0] == GapOf(docs[1], docs[0]);
      }
    }
  }

  lemma {:induction false} PrefixInvertsGaps(docs: seq<u32>, prev: u32)
    ensures PrefixDocs(Gaps(docs, prev), prev) == docs
  {
    if docs != [] {
      var g := Gaps(docs, prev);
      assert NextDoc(prev, g[0]) == docs[0];
      assert g[1..] == Gaps(docs[1..], docs[0]);
      PrefixInvertsGaps(docs[1..], docs[0]);
    }
  }

  lemma {:induction false} PrefixSnoc(gaps: seq<u32>, prev: u32, g: u32)
    ensures var p := PrefixDocs(gaps, prev);
            PrefixDocs(gaps + [g], prev) == p + [NextDoc(if p == [] then prev else p[|p| - 1], g)]
  {
    if gaps == [] {
    } else {
      var d := NextDoc(prev, gaps[0]);
      PrefixSnoc(gaps[1..], d, g);
      assert (gaps + [g])[1..] == gaps[1..] + [g];
      var p := PrefixDocs(gaps[1..], d);
      assert PrefixDocs(gaps, prev) == [d] + p;
    }
  }

  lemma {:induction false} PrefixTake(gaps: seq<u32>, prev: u32, i: nat)
    requires i < |gaps|
    ensures PrefixDocs(gaps, prev)[i] == NextDoc(if i == 0 then prev else PrefixDocs(gaps, prev)[i - 1], gaps[i])
  {
    if i > 0 {
      var d := NextDoc(prev, gaps[0]);
      PrefixTake(gaps[1..], d, i - 1);
    }
  }

  /** prefix_docs_scalar. */
  method PrefixDocsScalar(d: array<u32>, prev0: u32)
    requires d.Length == BLOCK_SIZE
    modifies d
    ensures d[..] == PrefixDocs(old(d[..]), prev0)
  {
    ghost var gaps := d[..];
    var prev := prev0;
    for i := 0 to BLOCK_SIZE
      invariant d[i..] == gaps[i..]
      invariant d[..i] == PrefixDocs(gaps, prev0)[..i]
      invariant prev == if i == 0 then prev0 else PrefixDocs(gaps, prev0)[i - 1]
    {
      PrefixTake(gaps, prev0, i);
      assert d[i] == d[i..][0] == gaps[i];
      prev := NextDoc(prev, d[i]);
      d[i] := prev;
      assert d[i + 1..] == gaps[i..][1..];
    }
  }

  /** A vector of gaps after the two shifted additions and the carry. */
  function LaneSums(g: Vector, carry: Vector): Vector {
    var v := Add(g, Dup(1));
    var w := Add(v, Ext(Dup(0), v, 3));
    var x := Add(w, Ext(Dup(0), w, 2));
    Add(x, carry)
  }

  lemma LaneSumsAreRunningSums(g0: u32, g1: u32, g2: u32, g3: u32, c: u32)
    ensures var d0 := NextDoc(c, g0);
            var d1 := NextDoc(d0, g1);
            var d2 := NextDoc(d1, g2);
            LaneSums(Vector(g0, g1, g2, g3), Dup(c)) == Vector(d0, d1, d2, NextDoc(d2, g3))
  {
    hide Add32;
    var v0, v1, v2, v3 := Add32(g0, 1), Add32(g1, 1), Add32(g2, 1), Add32(g3, 1);
    var d0, d1 := NextDoc(c, g0), NextDoc(NextDoc(c, g0), g1);
    Add32Assoc(v1, v0, c);
    Add32Assoc(Add32(v2, v1), v0, c);
    Add32Assoc(v2, v1, d0);
    Add32Assoc(Add32(v3, v2), Add32(v1, v0), c);
    Add32Assoc(v3, v2, d1);
    Add32Zero(v0);
    Add32Zero(Add32(v1, v0));
  }

  lemma Add32Zero(a: u32)
    ensures Add32(a, 0) == a
  {
  }

  lemma Add32Assoc(a: u32, b: u32, c: u32)
    ensures Add32(Add32(a, b), c) == Add32(a, Add32(b, c))
  {
  }

  lemma PrefixFour(gaps: seq<u32>, prev: u32, i: nat, carry: u32)
    requires i + 4 <= |gaps|
    requires carry == if i == 0 then prev else PrefixDocs(gaps, prev)[i - 1]
    ensures var p := PrefixDocs(gaps, prev);
            LaneSums(Vector(gaps[i], gaps[i + 1], gaps[i + 2], gaps[i + 3]), Dup(carry))
            == Vector(p[i], p[i + 1], p[i + 2], p[i + 3])
  {
    PrefixTake(gaps, prev, i);
    PrefixTake(gaps, prev, i + 1);
    PrefixTake(gaps, prev, i + 2);
    PrefixTake(gaps, prev, i + 3);
    LaneSumsAreRunningSums(gaps[i], gaps[i + 1], gaps[i + 2], gaps[i + 3], carry);
  }

  /** prefix_docs_neon: four lanes at a time, two shifted vector additions and a carry. */
  method PrefixDocsNeon(d: array<u32>, prev0: u32)
    requires d.Length == BLOCK_SIZE
    modifies d
    ensures d[..] == PrefixDocs(old(d[..]), prev0)
  {
    ghost var gaps := d[..];
    ghost var docs := PrefixDocs(gaps, prev0);
    var carry, i := Dup(prev0), 0;
    while i < BLOCK_SIZE
      invariant 0 <= i <= BLOCK_SIZE && i % 4 == 0
      invariant forall j :: i <= j < BLOCK_SIZE ==> d[j] == gaps[j]
      invariant forall j :: 0 <= j < i ==> d[j] == docs[j]
      invariant carry == Dup(if i == 0 then prev0 else docs[i - 1])
    {
      PrefixFour(gaps, prev0, i, carry.l0);
      var v := LaneSums(Load(d, i), carry);
      assert v == Vector(docs[i], docs[i + 1], docs[i + 2], docs[i + 3]);
      Store(d, i, v);
      carry := Dup(v.l3);
      i := i + 4;
    }
  }

  // ---------------------------------------------------------------------------------------------
  // VByte blocks
  // ---------------------------------------------------------------------------------------------

  datatype Numbers = Numbers(values: seq<u32>, next: nat)

  function VBytes(vs: seq<u32>): seq<byte> {
    if vs == [] then [] else VBytes(vs[..|vs| - 1]) + VByte(vs[|vs| - 1])
  }

  /** `x |= (b & 0x7F) << shift` in 32 bits. */
  function OrByte(x: u32, b: byte, shift: nat): u32 {
    OrBelow32(x, Shl32(b % 0x80, shift));
    Or(x, Shl32(b % 0x80, shift))
  }

  /** get_vbyte, continuing with `x` collected over `shift` bits.  Reading past the end, which the
      program never does on the blocks it writes, is an error here. */
  function GetVByteFrom(bytes: seq<byte>, p: nat, x: u32, shift: nat): (r: Result<Read>)
    ensures r.Ok? ==> r.value.value < TWO32
    decreases |bytes| - p
  {
    if p >= |bytes| then Err(Truncated)
    else
      var x' := OrByte(x, bytes[p], shift);
      if bytes[p] < 0x80 then Ok(Read(x', p + 1)) else GetVByteFrom(bytes, p + 1, x', shift + 7)
  }

  function GetVBytes(bytes: seq<byte>, p: nat, n: nat): (r: Result<Numbers>)
    ensures r.Ok? ==> |r.value.values| == n
  {
    if n == 0 then Ok(Numbers([], p))
    else
      match GetVBytes(bytes, p, n - 1)
      case Err(e) => Err(e)
      case Ok(a) =>
        match GetVByteFrom(bytes, a.next, 0, 0)
        case Err(e) => Err(e)
        case Ok(read) => Ok(Numbers(a.values + [read.value], read.next))
  }

  lemma {:induction false} ErrorsPersist(bytes: seq<byte>, p: nat, i: nat, n: nat)
    requires GetVBytes(bytes, p, i).Err? && i <= n
    ensures GetVBytes(bytes, p, n) == Err(GetVBytes(bytes, p, i).error)
  {
    if i < n {
      ErrorsPersist(bytes, p, i, n - 1);
    }
  }

  method GetVByte(bytes: seq<byte>, p0: nat) returns (r: Result<Read>)
    ensures r == GetVByteFrom(bytes, p0, 0, 0)
  {
    var p, x: u32, shift := p0, 0, 0;
    while true
      invariant GetVByteFrom(bytes, p0, 0, 0) == GetVByteFrom(bytes, p, x, shift)
      decreases |bytes| - p
    {
      if p >= |bytes| {
        return Err(Truncated);
      }
      var b := bytes[p];
      x, p, shift := OrByte(x, b, shift), p + 1, shift + 7;
      if b < 0x80 {
        return Ok(Read(x, p));
      }
    }
  }

  function PlusOne(ts: seq<u32>): (r: seq<u32>)
    ensures |r| == |ts|
  {
    seq(|ts|, i requires 0 <= i < |ts| => Add32(ts[i], 1))
  }

  function VByteBlock(bytes: seq<byte>, p: nat, n: nat, prev: u32): Result<Decoded> {
    match GetVBytes(bytes, p, n)
    case Err(e) => Err(e)
    case Ok(g) =>
      match GetVBytes(bytes, g.next, n)
      case Err(e) => Err(e)
      case Ok(t) => Ok(Decoded(PrefixDocs(g.values, prev), PlusOne(t.values), t.next))
  }

  method DecodeVByteBlock(bytes: seq<byte>, p0: nat, n: nat, prev0: u32) returns (r: Result<Decoded>)
    ensures r == VByteBlock(bytes, p0, n, prev0)
  {
    var p, prev := p0, prev0;
    var docs: seq<u32>, tfs: seq<u32> := [], [];
    ghost var gaps: seq<u32> := [];
    for i := 0 to n
      invariant GetVBytes(bytes, p0, i) == Ok(Numbers(gaps, p))
      invariant docs == PrefixDocs(gaps, prev0)
      invariant prev == if i == 0 then prev0 else docs[i - 1]
    {
      var g := GetVByte(bytes, p);
      if g.Err? {
        ErrorsPersist(bytes, p0, i + 1, n);
        return Err(g.error);
      }
      PrefixSnoc(gaps, prev0, g.value.value);
      p, prev := g.value.next, NextDoc(prev, g.value.value);
      docs := docs + [prev];
      gaps := gaps + [g.value.value];
    }
    ghost var mid, ts: seq<u32> := p, [];
    for i := 0 to n
      invariant GetVBytes(bytes, mid, i) == Ok(Numbers(ts, p))
      invariant tfs == PlusOne(ts)
    {
      var t := GetVByte(bytes, p);
      if t.Err? {
        ErrorsPersist(bytes, mid, i + 1, n);
        return Err(t.error);
      }
      p := t.value.next;
      tfs := tfs + [Add32(t.value.value, 1)];
      ts := ts + [t.value.value];
    }
    return Ok(Decoded(docs, tfs, p));
  }

  lemma OrByteCollects(x: u32, b: byte, low: nat, s: nat, shift: nat)
    requires s == Pow2(shift) && x < s && low == b % 0x80 && x + low * s < TWO32
    ensures OrByte(x, b, shift) == x + low * s
  {
    hide Or, Pow2;
    OrDisjoint(x, low, shift);
    SmallMod(low * s, TWO32);
  }

  /** get_vbyte inverts put_vbyte on every 32-bit value. */
  lemma {:induction false} GetInvertsPutFrom(bytes: seq<byte>, p: nat, v: nat, x: u32, shift: nat)
    requires BytesAt(bytes, p, VByte(v))
    requires x < Pow2(shift) && x + v * Pow2(shift) < TWO32
    ensures GetVByteFrom(bytes, p, x, shift) == Ok(Read(x + v * Pow2(shift), p + |VByte(v)|))
    decreases v
  {
    var s := Pow2(shift);
    VByteParts(bytes, p, v);
    CollectStep(x, v, s, shift);
    OrByteCollects(x, bytes[p], v % 0x80, s, shift);
    if v >= 0x80 {
      GetInvertsPutFrom(bytes, p + 1, v / 0x80, x + v % 0x80 * s, shift + 7);
    }
  }

  lemma GetInvertsPut(bytes: seq<byte>, p: nat, v: u32)
    requires BytesAt(bytes, p, VByte(v))
    ensures GetVByteFrom(bytes, p, 0, 0) == Ok(Read(v, p + |VByte(v)|))
  {
    GetInvertsPutFrom(bytes, p, v, 0, 0);
  }

  lemma GetOneMore(bytes: seq<byte>, p: nat, head: seq<u32>, mid: nat, last: u32, end: nat)
    requires GetVBytes(bytes, p, |head|) == Ok(Numbers(head, mid))
    requires GetVByteFrom(bytes, mid, 0, 0) == Ok(Read(last, end))
    ensures GetVBytes(bytes, p, |head| + 1) == Ok(Numbers(head + [last], end))
  {
  }

  lemma GetNone(bytes: seq<byte>, p: nat)
    ensures VBytes([]) == [] && GetVBytes(bytes, p, 0) == Ok(Numbers([], p))
  {
  }

  lemma VBytesSnoc(head: seq<u32>, last: u32)
    ensures VBytes(head + [last]) == VBytes(head) + VByte(last)
  {
    assert (head + [last])[..|head|] == head;
  }

  lemma {:induction false} GetInvertsPutAll(bytes: seq<byte>, p: nat, vs: seq<u32>)
    requires BytesAt(bytes, p, VBytes(vs))
    ensures GetVBytes(bytes, p, |vs|) == Ok(Numbers(vs, p + |VBytes(vs)|))
    decreases |vs|
  {
    hide *;
    if vs == [] {
      GetNone(bytes, p);
    } else {
      var n := |vs| - 1;
      var head, last := vs[..n], vs[n];
      var mid := p + |VBytes(head)|;
      VBytesSnoc(head, last);
      assert head + [last] == vs;
      BytesAtSplit(bytes, p, VBytes(head), VByte(last));
      GetInvertsPutAll(bytes, p, head);
      GetInvertsPut(bytes, mid, last);
      GetOneMore(bytes, p, head, mid, last, mid + |VByte(last)|);
    }
  }

  // ---------------------------------------------------------------------------------------------
  // BP128 blocks
  // ---------------------------------------------------------------------------------------------

  /** A word in memory, low byte first. */
  function WordBytes(w: u32): (b: seq<byte>)
    ensures |b| == 4
  {
    [w % 256, w / 256 % 256, w / 65536 % 256, w / 16777216]
  }

  function WordsBytes(ws: seq<u32>): (b: seq<byte>)
    ensures |b| == 4 * |ws|
  {
    if ws == [] then [] else WordsBytes(ws[..|ws| - 1]) + WordBytes(ws[|ws| - 1])
  }

  function WordAt(bytes: seq<byte>, p: nat): u32
    requires p + 4 <= |bytes|
  {
    (bytes[p] as int) + 256 * (bytes[p + 1] as int) + 65536 * (bytes[p + 2] as int) + 16777216 * (bytes[p + 3] as int)
  }

  function WordsAt(bytes: seq<byte>, p: nat, n: nat): (ws: seq<u32>)
    requires p + 4 * n <= |bytes|
    ensures |ws| == n
  {
    seq(n, k requires 0 <= k < n => WordAt(bytes, p + 4 * k))
  }

  lemma FourBytes(w: u32)
    ensures var b := WordBytes(w);
            (b[0] as int) + 256 * (b[1] as int) + 65536 * (b[2] as int) + 16777216 * (b[3] as int) == w
  {
  }

  lemma WordAtInverts(bytes: seq<byte>, p: nat, w: u32)
    requires BytesAt(bytes, p, WordBytes(w))
    ensures WordAt(bytes, p) == w
  {
    var b := bytes[p..p + 4];
    assert bytes[p] == b[0] && bytes[p + 1] == b[1] && bytes[p + 2] == b[2] && bytes[p + 3] == b[3];
    FourBytes(w);
  }

  lemma {:induction false} WordsAtInverts(bytes: seq<byte>, p: nat, ws: seq<u32>)
    requires BytesAt(bytes, p, WordsBytes(ws))
    ensures WordsAt(bytes, p, |ws|) == ws
    decreases |ws|
  {
    if ws != [] {
      var n := |ws| - 1;
      var head, last := ws[..n], ws[n];
      BytesAtSplit(bytes, p, WordsBytes(head), WordBytes(last));
      WordsAtInverts(bytes, p, head);
      WordAtInverts(bytes, p + 4 * n, last);
      assert WordsAt(bytes, p, n + 1) == WordsAt(bytes, p, n) + [WordAt(bytes, p + 4 * n)];
      assert head + [last] == ws;
    }
  }

  function OrAll(vs: seq<u32>): u32 {
    if vs == [] then 0
    else
      OrBelow32(OrAll(vs[..|vs| - 1]), vs[|vs| - 1]);
      Or(OrAll(vs[..|vs| - 1]), vs[|vs| - 1])
  }

  lemma {:induction false} OrAllBounds(vs: seq<u32>, i: nat)
    requires i < |vs|
    ensures vs[i] <= OrAll(vs)
    decreases |vs|
  {
    var n := |vs| - 1;
    OrBounds(OrAll(vs[..n]), vs[n]);
    if i < n {
      OrAllBounds(vs[..n], i);
    }
  }

  /** The bit width a block is stored with: enough for its largest value, and at most 32. */
  function WidthOf(vs: seq<u32>): (bw: nat)
    ensures bw <= 32
  {
    Pow2At32();
    BitsNeededLeast(OrAll(vs), 32);
    BitsNeeded(OrAll(vs))
  }

  /** No smaller width would do. */
  lemma {:induction false} WidthIsLeast(vs: seq<u32>, bw: nat)
    requires Fits(vs, bw)
    ensures WidthOf(vs) <= bw
  {
    OrAllFits(vs, bw);
    BitsNeededLeast(OrAll(vs), bw);
  }

  lemma {:induction false} OrAllFits(vs: seq<u32>, bw: nat)
    requires Fits(vs, bw)
    ensures OrAll(vs) < Pow2(bw)
  {
    if vs != [] {
      var n := |vs| - 1;
      OrAllFits(vs[..n], bw);
      OrBelow(OrAll(vs[..n]), vs[n], bw);
    }
  }

  lemma WidthFits(vs: seq<u32>)
    ensures Fits(vs, WidthOf(vs))
  {
    BitsNeededBound(OrAll(vs));
    forall i | 0 <= i < |vs| ensures vs[i] < Pow2(WidthOf(vs)) {
      OrAllBounds(vs, i);
    }
  }

  /** The packed words of one column of a block. */
  function ColumnBytes(vs: seq<u32>): (b: seq<byte>)
    requires |vs| == VALUES
    ensures |b| == 16 * WidthOf(vs)
  {
    WordsBytes(Packed(vs, WidthOf(vs)))
  }

  function ColumnAt(bytes: seq<byte>, q: nat, bw: nat): (vs: seq<u32>)
    requires bw <= 32 && q + 16 * bw <= |bytes|
    ensures |vs| == VALUES
  {
    UnpackedAreWords(WordsAt(bytes, q, 4 * bw), bw);
    Unpacked(WordsAt(bytes, q, 4 * bw), bw)
  }

  lemma ColumnInverts(bytes: seq<byte>, q: nat, vs: seq<u32>)
    requires |vs| == VALUES && BytesAt(bytes, q, ColumnBytes(vs))
    ensures ColumnAt(bytes, q, WidthOf(vs)) == vs
  {
    WordsAtInverts(bytes, q, Packed(vs, WidthOf(vs)));
    WidthFits(vs);
    UnpackInvertsPack(vs, WidthOf(vs));
  }

  function Bp128Block(bytes: seq<byte>, p: nat, prev: u32): Result<Decoded> {
    if p + 2 > |bytes| then Err(Truncated)
    else
      var bwg, bwt := bytes[p] as nat, bytes[p + 1] as nat;
      if bwg > 32 || bwt > 32 then Err(CorruptHeader)
      else
        var mid, end := p + 2 + 16 * bwg, p + 2 + 16 * bwg + 16 * bwt;
        if end > |bytes| then Err(Truncated)
        else Ok(Decoded(PrefixDocs(ColumnAt(bytes, p + 2, bwg), prev), PlusOne(ColumnAt(bytes, mid, bwt)), end))
  }

  lemma UnpackedAreWords(w: seq<u32>, bw: nat)
    requires |w| == 4 * bw && bw <= 32
    ensures forall i :: 0 <= i < VALUES ==> Unpacked(w, bw)[i] < TWO32
  {
    forall i | 0 <= i < VALUES ensures Unpacked(w, bw)[i] < TWO32 {
      FieldIsWord(LaneNumber(w, i % 4, bw), i / 4 * bw, bw);
    }
  }

  /** memcpy of `n` words from the byte stream. */
  method ReadWords(bytes: seq<byte>, p: nat, n: nat, w: array<u32>)
    requires p + 4 * n <= |bytes| && n <= w.Length
    modifies w
    ensures w[..n] == WordsAt(bytes, p, n)
  {
    for k := 0 to n
      invariant forall j :: 0 <= j < k ==> w[j] == WordAt(bytes, p + 4 * j)
    {
      w[k] := WordAt(bytes, p + 4 * k);
    }
  }

  /** One column of a block, by either kernel. */
  method DecodeColumn(neon: bool, bytes: seq<byte>, q: nat, bw: nat, w: array<u32>, out: array<u32>)
    requires bw <= 32 && q + 16 * bw <= |bytes| && w.Length == VALUES && out.Length == VALUES && w != out
    modifies w, out
    ensures out[..] == ColumnAt(bytes, q, bw)
  {
    ReadWords(bytes, q, 4 * bw, w);
    if neon {
      UnpackNeon(w, bw, out);
    } else {
      Unpack128(w, bw, out);
    }
  }

  /** decode_bp128, with the vector kernel or the scalar one. */
  method DecodeBp128(neon: bool, bytes: seq<byte>, p: nat, prev: u32) returns (r: Result<Decoded>)
    ensures r == Bp128Block(bytes, p, prev)
  {
    if p + 2 > |bytes| {
      return Err(Truncated);
    }
    var bwg, bwt := bytes[p] as nat, bytes[p + 1] as nat;
    if bwg > 32 || bwt > 32 {
      return Err(CorruptHeader);
    }
    var mid, end := p + 2 + 16 * bwg, p + 2 + 16 * bwg + 16 * bwt;
    if end > |bytes| {
      return Err(Truncated);
    }
    var w, docs, tfs := new u32[VALUES](_ => 0), new u32[VALUES](_ => 0), new u32[VALUES](_ => 0);
    DecodeColumn(neon, bytes, p + 2, bwg, w, docs);
    if neon {
      PrefixDocsNeon(docs, prev);
    } else {
      PrefixDocsScalar(docs, prev);
    }
    DecodeColumn(neon, bytes, mid, bwt, w, tfs);
    AddOnes(tfs);
    return Ok(Decoded(docs[..], tfs[..], end));
  }

  method AddOnes(tfs: array<u32>)
    modifies tfs
    ensures tfs[..] == PlusOne(old(tfs[..]))
  {
    for i := 0 to tfs.Length
      invariant forall j :: 0 <= j < i ==> tfs[j] == Add32(old(tfs[j]), 1)
      invariant forall j :: i <= j < tfs.Length ==> tfs[j] == old(tfs[j])
    {
      tfs[i] := Add32(tfs[i], 1);
    }
  }

  // ---------------------------------------------------------------------------------------------
  // Blocks
  // ---------------------------------------------------------------------------------------------

  function EncodedBlock(c: CodecKind, gaps: seq<u32>, tfm1: seq<u32>): seq<byte>
    requires |gaps| == |tfm1|
  {
    if c == Bp128Codec && |gaps| == BLOCK_SIZE then
      var bwg, bwt := WidthOf(gaps), WidthOf(tfm1);
      [bwg as byte, bwt as byte] + (ColumnBytes(gaps) + ColumnBytes(tfm1))
    else VBytes(gaps) + VBytes(tfm1)
  }

  function DecodedBlock(c: CodecKind, bytes: seq<byte>, p: nat, n: nat, prev: u32): Result<Decoded> {
    if c == Bp128Codec && n == BLOCK_SIZE then Bp128Block(bytes, p, prev) else VByteBlock(bytes, p, n, prev)
  }

  /** decode_block (`neon`) and decode_block_scalar. */
  method DecodeBlock(neon: bool, c: CodecKind, bytes: seq<byte>, p: nat, n: nat, prev: u32) returns (r: Result<Decoded>)
    ensures r == DecodedBlock(c, bytes, p, n, prev)
  {
    if c == Bp128Codec && n == BLOCK_SIZE {
      r := DecodeBp128(neon, bytes, p, prev);
    } else {
      r := DecodeVByteBlock(bytes, p, n, prev);
    }
  }

  method AppendWords(w: array<u32>, n: nat, out: seq<byte>) returns (r: seq<byte>)
    requires n <= w.Length
    ensures r == out + WordsBytes(w[..n])
  {
    r := out;
    for k := 0 to n
      invariant r == out + WordsBytes(w[..k])
    {
      assert w[..k + 1][..k] == w[..k];
      r := r + WordBytes(w[k]);
    }
  }

  method EncodeColumn(vs: seq<u32>, bw: nat, w: array<u32>, out: seq<byte>) returns (r: seq<byte>)
    requires |vs| == VALUES && bw == WidthOf(vs) && w.Length == VALUES
    modifies w
    ensures r == out + ColumnBytes(vs)
  {
    WidthFits(vs);
    Pack128(vs, bw, w);
    r := AppendWords(w, 4 * bw, out);
  }

  method EncodeVBytes(vs: seq<u32>, out: seq<byte>) returns (r: seq<byte>)
    ensures r == out + VBytes(vs)
  {
    r := out;
    for i := 0 to |vs|
      invariant r == out + VBytes(vs[..i])
    {
      assert vs[..i + 1][..i] == vs[..i];
      r := PutVarint(vs[i], r);
    }
    assert vs[..|vs|] == vs;
  }

  method EncodeColumns(gaps: seq<u32>, tfm1: seq<u32>, bwg: nat, bwt: nat, out: seq<byte>) returns (r: seq<byte>)
    requires |gaps| == |tfm1| == VALUES && bwg == WidthOf(gaps) && bwt == WidthOf(tfm1)
    ensures r == out + ([bwg as byte, bwt as byte] + (ColumnBytes(gaps) + ColumnBytes(tfm1)))
  {
    var w := new u32[VALUES](_ => 0);
    r := out + [bwg as byte, bwt as byte];
    r := EncodeColumn(gaps, bwg, w, r);
    r := EncodeColumn(tfm1, bwt, w, r);
  }

  /** encode_block. */
  method EncodeBlock(c: CodecKind, gaps: seq<u32>, tfm1: seq<u32>, out: seq<byte>) returns (r: seq<byte>)
    requires |gaps| == |tfm1|
    ensures r == out + EncodedBlock(c, gaps, tfm1)
  {
    if c == Bp128Codec && |gaps| == BLOCK_SIZE {
      var og: u32, ot: u32 := 0, 0;
      for i := 0 to BLOCK_SIZE
        invariant og == OrAll(gaps[..i]) && ot == OrAll(tfm1[..i])
      {
        assert gaps[..i + 1][..i] == gaps[..i] && tfm1[..i + 1][..i] == tfm1[..i];
        OrBelow32(og, gaps[i]);
        OrBelow32(ot, tfm1[i]);
        og, ot := Or(og, gaps[i]), Or(ot, tfm1[i]);
      }
      assert gaps[..BLOCK_SIZE] == gaps && tfm1[..BLOCK_SIZE] == tfm1;
      r := EncodeColumns(gaps, tfm1, BitsNeeded(og), BitsNeeded(ot), out);
      return;
    }
    r := EncodeVBytes(gaps, out);
    r := EncodeVBytes(tfm1, r);
  }

  function MinusOne(tfs: seq<u32>): (r: seq<u32>)
    requires forall i :: 0 <= i < |tfs| ==> tfs[i] > 0
    ensures |r| == |tfs|
  {
    seq(|tfs|, i requires 0 <= i < |tfs| => tfs[i] - 1)
  }

  /** A block of postings as it is written. */
  function BlockBytes(c: CodecKind, docs: seq<u32>, tfs: seq<u32>, prev: u32): seq<byte>
    requires |docs| == |tfs| && forall i :: 0 <= i < |tfs| ==> tfs[i] > 0
  {
    EncodedBlock(c, Gaps(docs, prev), MinusOne(tfs))
  }

  /** Decoding inverts encoding for both codecs, every block length, every list of documents and
      frequencies and every previous document, wherever the block lies, and stops at its last byte. */
  lemma DecodeInvertsEncode(c: CodecKind, docs: seq<u32>, tfs: seq<u32>, prev: u32, bytes: seq<byte>, p: nat)
    requires |docs| == |tfs| && forall i :: 0 <= i < |tfs| ==> tfs[i] > 0
    requires BytesAt(bytes, p, BlockBytes(c, docs, tfs, prev))
    ensures DecodedBlock(c, bytes, p, |docs|, prev)
         == Ok(Decoded(docs, tfs, p + |BlockBytes(c, docs, tfs, prev)|))
  {
    hide PrefixDocs, Gaps, VByteBlock, Bp128Block, VBytes, WidthOf, ColumnBytes;
    var gaps, ts := Gaps(docs, prev), MinusOne(tfs);
    PrefixInvertsGaps(docs, prev);
    assert PlusOne(ts) == tfs;
    var end := p + |BlockBytes(c, docs, tfs, prev)|;
    if c == Bp128Codec && |docs| == BLOCK_SIZE {
      Bp128Inverts(gaps, ts, prev, bytes, p, end);
    } else {
      VBytesInvert(gaps, ts, prev, bytes, p, end);
    }
  }

  lemma VByteParts2(bytes: seq<byte>, p: nat, n: nat, prev: u32, gaps: seq<u32>, mid: nat, ts: seq<u32>, end: nat)
    requires GetVBytes(bytes, p, n) == Ok(Numbers(gaps, mid)) && GetVBytes(bytes, mid, n) == Ok(Numbers(ts, end))
    ensures VByteBlock(bytes, p, n, prev) == Ok(Decoded(PrefixDocs(gaps, prev), PlusOne(ts), end))
  {
  }

  lemma VBytesInvert(gaps: seq<u32>, ts: seq<u32>, prev: u32, bytes: seq<byte>, p: nat, end: nat)
    requires |gaps| == |ts| && BytesAt(bytes, p, VBytes(gaps) + VBytes(ts))
    requires end == p + |VBytes(gaps) + VBytes(ts)|
    ensures VByteBlock(bytes, p, |gaps|, prev) == Ok(Decoded(PrefixDocs(gaps, prev), PlusOne(ts), end))
  {
    hide VBytes, GetVBytes, PrefixDocs, PlusOne, VByteBlock;
    var a, b := VBytes(gaps), VBytes(ts);
    BytesAtSplit(bytes, p, a, b);
    GetInvertsPutAll(bytes, p, gaps);
    GetInvertsPutAll(bytes, p + |a|, ts);
    VByteParts2(bytes, p, |gaps|, prev, gaps, p + |a|, ts, end);
  }

  lemma Bp128Parts(bytes: seq<byte>, p: nat, prev: u32, bwg: nat, bwt: nat, gaps: seq<u32>, ts: seq<u32>)
    requires bwg <= 32 && bwt <= 32 && p + 2 + 16 * bwg + 16 * bwt <= |bytes|
    requires bytes[p] as nat == bwg && bytes[p + 1] as nat == bwt
    requires ColumnAt(bytes, p + 2, bwg) == gaps && ColumnAt(bytes, p + 2 + 16 * bwg, bwt) == ts
    ensures Bp128Block(bytes, p, prev)
         == Ok(Decoded(PrefixDocs(gaps, prev), PlusOne(ts), p + 2 + 16 * bwg + 16 * bwt))
  {
  }

  lemma ColumnsInvert(bytes: seq<byte>, p: nat, head: seq<byte>, gaps: seq<u32>, ts: seq<u32>)
    requires |head| == 2 && |gaps| == |ts| == VALUES
    requires BytesAt(bytes, p, head + (ColumnBytes(gaps) + ColumnBytes(ts)))
    ensures p + 2 + 16 * WidthOf(gaps) + 16 * WidthOf(ts) <= |bytes|
    ensures bytes[p] == head[0] && bytes[p + 1] == head[1]
    ensures ColumnAt(bytes, p + 2, WidthOf(gaps)) == gaps
    ensures ColumnAt(bytes, p + 2 + 16 * WidthOf(gaps), WidthOf(ts)) == ts
  {
    hide WidthOf, ColumnAt, ColumnBytes;
    var a, b := ColumnBytes(gaps), ColumnBytes(ts);
    BytesAtSplit(bytes, p, head, a + b);
    BytesAtSplit(bytes, p + 2, a, b);
    assert bytes[p] == bytes[p..p + 2][0] && bytes[p + 1] == bytes[p..p + 2][1];
    ColumnInverts(bytes, p + 2, gaps);
    ColumnInverts(bytes, p + 2 + |a|, ts);
  }

  lemma Bp128Inverts(gaps: seq<u32>, ts: seq<u32>, prev: u32, bytes: seq<byte>, p: nat, end: nat)
    requires |gaps| == |ts| == BLOCK_SIZE
    requires BytesAt(bytes, p, [WidthOf(gaps) as byte, WidthOf(ts) as byte] + (ColumnBytes(gaps) + ColumnBytes(ts)))
    requires end == p + 2 + 16 * WidthOf(gaps) + 16 * WidthOf(ts)
    ensures Bp128Block(bytes, p, prev) == Ok(Decoded(PrefixDocs(gaps, prev), PlusOne(ts), end))
  {
    hide PrefixDocs, PlusOne, WidthOf, ColumnAt, ColumnBytes;
    ColumnsInvert(bytes, p, [WidthOf(gaps) as byte, WidthOf(ts) as byte], gaps, ts);
    Bp128Parts(bytes, p, prev, WidthOf(gaps), WidthOf(ts), gaps, ts);
  }
}
