/** engine/src/lexical/varint.hpp, and the byte format it shares with the VByte codec: seven bits a
    byte, low bits first, the high bit set on every byte but the last. */
module Varint {
  import opened Bits

  const TWO64: nat := TWO32 * TWO32

  datatype Result<+T> = Ok(value: T) | Err(error: Error)
  {
    predicate IsFailure() {
      Err?
    }

    function PropagateFailure<U>(): Result<U>
      requires Err?
    {
      Err(error)
    }

    function Extract(): T
      requires Ok?
    {
      value
    }
  }

  datatype Error = Truncated | Overlong | TooWide | CorruptHeader | Inconsistent

  /** A decoded number and the offset of the first byte after it. */
  datatype Read = Read(value: nat, next: nat)

  function VByte(v: nat): (bytes: seq<byte>)
    ensures bytes != []
  {
    if v >= 0x80 then [v % 0x80 + 0x80] + VByte(v / 0x80) else [v]
  }

  /** The number that groups of seven bits spell, low group first. */
  function Spelled(bytes: seq<byte>): nat {
    if bytes == [] then 0 else bytes[0] % 0x80 + 0x80 * Spelled(bytes[1..])
  }

  /** The format: every byte but the last has its high bit set, the low seven bits spell the number, and no byte
      is spent in vain. */
  lemma {:induction false} VByteMeaning(v: nat)
    ensures var b := VByte(v);
            && Spelled(b) == v && b[|b| - 1] < 0x80 && (forall i :: 0 <= i < |b| - 1 ==> b[i] >= 0x80)
            && (|b| > 1 ==> b[|b| - 1] > 0)
  {
    if v >= 0x80 {
      VByteMeaning(v / 0x80);
      assert VByte(v)[1..] == VByte(v / 0x80);
    } else {
      assert VByte(v)[1..] == [];
    }
  }

  method PutVarint(v: nat, out: seq<byte>) returns (r: seq<byte>)
    ensures r == out + VByte(v)
  {
    var x := v;
    r := out;
    while x >= 0x80
      invariant r + VByte(x) == out + VByte(v)
    {
      ghost var before := r;
      r := r + [x % 0x80 + 0x80];
      assert VByte(x) == [x % 0x80 + 0x80] + VByte(x / 0x80);
      assert before + VByte(x) == r + VByte(x / 0x80);
      x := x / 0x80;
    }
    r := r + [x];
  }

  /** Reading from offset `p` with `shift` bits already collected in `x`. */
  function NextFrom(bytes: seq<byte>, p: nat, end: nat, x: nat, shift: nat): Result<Read>
    requires end <= |bytes|
    decreases end - p
  {
    if p >= end then Err(Truncated)
    else
      var b := bytes[p];
      var x' := Or(x, b % 0x80 * Pow2(shift) % TWO64);
      if b < 0x80 then Ok(Read(x', p + 1))
      else if shift + 7 > 63 then Err(Overlong)
      else NextFrom(bytes, p + 1, end, x', shift + 7)
  }

  /** Reading one number after another from `p` gives `ns` and leads to `q`. */
  ghost predicate Decodes(bytes: seq<byte>, p: nat, end: nat, ns: seq<nat>, q: nat)
    requires end <= |bytes|
  {
    if ns == [] then p == q
    else
      var n := |ns| - 1;
      exists o :: Decodes(bytes, p, end, ns[..n], o) && NextFrom(bytes, o, end, 0, 0) == Ok(Read(ns[n], q))
  }

  lemma DecodesNext(bytes: seq<byte>, p: nat, end: nat, ns: seq<nat>, o: nat, n: nat, q: nat)
    requires end <= |bytes| && Decodes(bytes, p, end, ns, o) && NextFrom(bytes, o, end, 0, 0) == Ok(Read(n, q))
    ensures Decodes(bytes, p, end, ns + [n], q)
  {
    assert (ns + [n])[..|ns|] == ns;
  }

  /** Reading several numbers begins with reading the first. */
  lemma {:induction false} DecodesSplit(bytes: seq<byte>, p: nat, end: nat, n: nat, rest: seq<nat>, q: nat)
    returns (o: nat)
    requires end <= |bytes| && Decodes(bytes, p, end, [n] + rest, q)
    ensures NextFrom(bytes, p, end, 0, 0) == Ok(Read(n, o)) && Decodes(bytes, o, end, rest, q)
    decreases |rest|
  {
    hide NextFrom;
    var ns, k := [n] + rest, |rest|;
    var m: nat :| Decodes(bytes, p, end, ns[..k], m) && NextFrom(bytes, m, end, 0, 0) == Ok(Read(ns[k], q));
    if rest == [] {
      o := q;
    } else {
      assert ns[..k] == [n] + rest[..k - 1];
      o := DecodesSplit(bytes, p, end, n, rest[..k - 1], m);
      DecodesNext(bytes, o, end, rest[..k - 1], m, rest[k - 1], q);
      assert rest[..k - 1] + [rest[k - 1]] == rest;
    }
  }

  lemma {:induction false} DecodesFirst(bytes: seq<byte>, p: nat, end: nat, n: nat, o: nat, rest: seq<nat>, q: nat)
    requires end <= |bytes| && NextFrom(bytes, p, end, 0, 0) == Ok(Read(n, o)) && Decodes(bytes, o, end, rest, q)
    ensures Decodes(bytes, p, end, [n] + rest, q)
    decreases |rest|
  {
    hide NextFrom;
    var k := |rest|;
    if rest == [] {
      DecodesNext(bytes, p, end, [], p, n, q);
      assert [n] + rest == [] + [n];
    } else {
      var m: nat :| Decodes(bytes, o, end, rest[..k - 1], m)
                    && NextFrom(bytes, m, end, 0, 0) == Ok(Read(rest[k - 1], q));
      DecodesFirst(bytes, p, end, n, o, rest[..k - 1], m);
      DecodesNext(bytes, p, end, [n] + rest[..k - 1], m, rest[k - 1], q);
      assert [n] + rest[..k - 1] + [rest[k - 1]] == [n] + rest;
    }
  }

  /** Bytes say one thing. */
  lemma {:induction false} DecodesOnce(bytes: seq<byte>, p: nat, end: nat, a: seq<nat>, q: nat, b: seq<nat>, r: nat)
    requires end <= |bytes| && |a| == |b| && Decodes(bytes, p, end, a, q) && Decodes(bytes, p, end, b, r)
    ensures a == b && q == r
    decreases |a|
  {
    hide NextFrom;
    if a != [] {
      var n := |a| - 1;
      var o: nat :| Decodes(bytes, p, end, a[..n], o) && NextFrom(bytes, o, end, 0, 0) == Ok(Read(a[n], q));
      var m: nat :| Decodes(bytes, p, end, b[..n], m) && NextFrom(bytes, m, end, 0, 0) == Ok(Read(b[n], r));
      DecodesOnce(bytes, p, end, a[..n], o, b[..n], m);
      assert a == a[..n] + [a[n]] && b == b[..n] + [b[n]];
    }
  }

  class VarintReader {
    const bytes: seq<byte>
    const start: nat
    const end: nat
    var p: nat

    /** The numbers read so far. */
    ghost var read: seq<nat>

    ghost predicate Reads()
      reads this
    {
      end <= |bytes| && Decodes(bytes, start, end, read, p)
    }

    constructor (bytes: seq<byte>, start: nat, end: nat)
      requires end <= |bytes|
      ensures this.bytes == bytes && this.start == start && this.end == end && p == start
      ensures read == [] && Reads()
    {
      this.bytes, this.start, this.end := bytes, start, end;
      p, read := start, [];
    }

    method Next() returns (r: Result<nat>)
      requires end <= |bytes|
      modifies this
      ensures match NextFrom(bytes, old(p), end, 0, 0)
              case Ok(read) => r == Ok(read.value) && p == read.next
              case Err(e) => r == Err(e)
      ensures r.Ok? ==> read == old(read) + [r.value] && (old(Reads()) ==> Reads())
    {
      hide Decodes;
      var x, shift := 0, 0;
      ghost var p0, read0, was := p, read, Reads();
      while true
        invariant NextFrom(bytes, p0, end, 0, 0) == NextFrom(bytes, p, end, x, shift)
        invariant read == read0
        decreases end - p
      {
        if p >= end {
          return Err(Truncated);
        }
        var b := bytes[p];
        p := p + 1;
        x := Or(x, b % 0x80 * Pow2(shift) % TWO64);
        if b < 0x80 {
          if was {
            DecodesNext(bytes, start, end, read, p0, x, p);
          }
          read := read + [x];
          return Ok(x);
        }
        shift := shift + 7;
        if shift > 63 {
          return Err(Overlong);
        }
      }
    }

    method Next32() returns (r: Result<u32>)
      requires end <= |bytes|
      modifies this
      ensures match NextFrom(bytes, old(p), end, 0, 0)
              case Ok(read) =>
                p == read.next && r == (if read.value > U32_MAX then Err(TooWide) else Ok(read.value))
              case Err(e) => r == Err(e)
      ensures r.Ok? ==> read == old(read) + [r.value] && (old(Reads()) ==> Reads())
    {
      var v := Next();
      match v
      case Ok(x) =>
        if x > U32_MAX {
          return Err(TooWide);
        }
        return Ok(x);
      case Err(e) =>
        return Err(e);
    }
  }

  lemma Pow2At64()
    ensures Pow2(64) == TWO64
  {
    Pow2At32();
    Pow2Add(32, 32);
  }

  /** `x | (y << s)` in 64 bits is `x + y * 2^s` when the pieces do not overlap and fit. */
  lemma Collect(x: nat, y: nat, s: nat)
    requires x < Pow2(s) && x + y * Pow2(s) < TWO64
    ensures Or(x, y * Pow2(s) % TWO64) == x + y * Pow2(s)
  {
    OrDisjoint(x, y, s);
    SmallMod(y * Pow2(s), TWO64);
  }

  lemma SmallMod(n: nat, m: nat)
    requires n < m
    ensures n % m == n
  {
  }

  lemma SevenBits(x: nat, v: nat, low: nat, high: nat, s: nat)
    requires v == low + 128 * high && low < 128 && x < s
    ensures 0 <= low * s && 0 <= high * (s * 128) && low * s <= v * s
    ensures x + low * s < 128 * s
    ensures (x + low * s) + high * (s * 128) == x + v * s
  {
    assert v * s == low * s + high * (s * 128);
    MulAtLeast(128 - low, s);
    assert (128 - low) * s == 128 * s - low * s;
  }

  /** What collecting the low seven bits of `v` leaves to collect. */
  lemma CollectStep(x: nat, v: nat, s: nat, shift: nat)
    requires s == Pow2(shift) && x < s && x + v * s < TWO64
    ensures x + v % 0x80 * s <= x + v * s
    ensures x + v % 0x80 * s < Pow2(shift + 7)
    ensures (x + v % 0x80 * s) + v / 0x80 * Pow2(shift + 7) == x + v * s
    ensures v >= 0x80 ==> shift + 7 <= 63
  {
    Pow2At32();
    Pow2Add(shift, 7);
    SevenBits(x, v, v % 0x80, v / 0x80, s);
    if v >= 0x80 && shift + 7 > 63 {
      Pow2Monotone(64, shift + 7);
      Pow2At64();
      MulAtLeast(v / 0x80, Pow2(shift + 7));
    }
  }

  ghost predicate BytesAt(bytes: seq<byte>, p: nat, part: seq<byte>) {
    p + |part| <= |bytes| && bytes[p..p + |part|] == part
  }

  lemma BytesAtSplit(bytes: seq<byte>, p: nat, a: seq<byte>, b: seq<byte>)
    requires BytesAt(bytes, p, a + b)
    ensures BytesAt(bytes, p, a) && BytesAt(bytes, p + |a|, b)
  {
    var ab := bytes[p..p + |a + b|];
    assert bytes[p..p + |a|] == ab[..|a|];
    assert bytes[p + |a|..p + |a| + |b|] == ab[|a|..];
  }

  lemma VByteParts(bytes: seq<byte>, p: nat, v: nat)
    requires BytesAt(bytes, p, VByte(v))
    ensures p < |bytes| && bytes[p] % 0x80 == v % 0x80 && (bytes[p] < 0x80 <==> v < 0x80)
    ensures v < 0x80 ==> |VByte(v)| == 1 && v % 0x80 == v
    ensures v >= 0x80 ==> |VByte(v)| == 1 + |VByte(v / 0x80)| && BytesAt(bytes, p + 1, VByte(v / 0x80))
  {
    var enc := VByte(v);
    assert bytes[p] == bytes[p..p + |enc|][0] == enc[0];
    if v >= 0x80 {
      BytesAtSplit(bytes, p, [v % 0x80 + 0x80], VByte(v / 0x80));
    }
  }

  /** The reader inverts the writer on every 64-bit value, whatever follows it. */
  lemma {:induction false} NextInvertsPut(bytes: seq<byte>, p: nat, end: nat, v: nat, x: nat, shift: nat)
    requires end <= |bytes| && BytesAt(bytes, p, VByte(v)) && p + |VByte(v)| <= end
    requires x < Pow2(shift) && x + v * Pow2(shift) < TWO64
    ensures NextFrom(bytes, p, end, x, shift) == Ok(Read(x + v * Pow2(shift), p + |VByte(v)|))
    decreases v
  {
    var s := Pow2(shift);
    VByteParts(bytes, p, v);
    CollectStep(x, v, s, shift);
    Collect(x, v % 0x80, shift);
    if v >= 0x80 {
      NextInvertsPut(bytes, p + 1, end, v / 0x80, x + v % 0x80 * s, shift + 7);
    }
  }
}
