/** utf8_decode and utf8_append of engine/src/lexical/tokenizer.hpp: UTF-8 as sections 3 and 4 of RFC 3629
    define it. */
module Utf8 {
  import opened Bits

  const REPLACEMENT: nat := 0xFFFD
  const CODE_POINTS: nat := 0x110000

  datatype Decoded = Decoded(cp: nat, len: nat)

  predicate IsScalar(cp: nat) {
    cp < 0xD800 || 0xDFFF < cp < CODE_POINTS
  }

  /** True if byte `i` after `p` is a continuation byte. */
  predicate Cont(text: seq<byte>, p: nat, i: nat) {
    p + i < |text| && text[p + i] / 64 == 2
  }

  function Low(text: seq<byte>, p: nat, i: nat): nat
    requires p + i < |text|
  {
    text[p + i] % 64
  }

  /** The code point at `p`; a byte that begins no well-formed sequence decodes alone, to U+FFFD. */
  function Decode(text: seq<byte>, p: nat): (d: Decoded)
    requires p < |text|
    ensures 0 < d.len && p + d.len <= |text| && d.cp < CODE_POINTS
  {
    var c := text[p];
    if c < 0x80 then Decoded(c, 1)
    else if 0xC2 <= c <= 0xDF && Cont(text, p, 1) then
      Decoded(c % 32 * 64 + Low(text, p, 1), 2)
    else if 0xE0 <= c <= 0xEF && Cont(text, p, 1) && Cont(text, p, 2) && Three(text, p) then
      Decoded(ThreeBytes(text, p), 3)
    else if 0xF0 <= c <= 0xF4 && Cont(text, p, 1) && Cont(text, p, 2) && Cont(text, p, 3)
            && 0x10000 <= FourBytes(text, p) < CODE_POINTS then
      Decoded(FourBytes(text, p), 4)
    else Decoded(REPLACEMENT, 1)
  }

  function ThreeBytes(text: seq<byte>, p: nat): nat
    requires p + 2 < |text|
  {
    text[p] % 16 * 4096 + Low(text, p, 1) * 64 + Low(text, p, 2)
  }

  predicate Three(text: seq<byte>, p: nat)
    requires p + 2 < |text|
  {
    var cp := ThreeBytes(text, p);
    cp >= 0x800 && (cp < 0xD800 || cp > 0xDFFF)
  }

  function FourBytes(text: seq<byte>, p: nat): nat
    requires p + 3 < |text|
  {
    text[p] % 8 * 262144 + Low(text, p, 1) * 4096 + Low(text, p, 2) * 64 + Low(text, p, 3)
  }

  /** utf8_append. */
  function Encode(cp: nat): (bytes: seq<byte>)
    requires cp < CODE_POINTS
    ensures 1 <= |bytes| <= 4
  {
    if cp < 0x80 then [cp]
    else if cp < 0x800 then [0xC0 + cp / 64, 0x80 + cp % 64]
    else if cp < 0x10000 then [0xE0 + cp / 4096, 0x80 + cp / 64 % 64, 0x80 + cp % 64]
    else [0xF0 + cp / 262144, 0x80 + cp / 4096 % 64, 0x80 + cp / 64 % 64, 0x80 + cp % 64]
  }

  /** The bytes of a scalar value lie at `p`. */
  ghost predicate At(text: seq<byte>, p: nat, cp: nat) {
    IsScalar(cp) && p + |Encode(cp)| <= |text| && text[p..p + |Encode(cp)|] == Encode(cp)
  }

  lemma AtBytes(text: seq<byte>, p: nat, cp: nat)
    requires At(text, p, cp)
    ensures forall i :: 0 <= i < |Encode(cp)| ==> text[p + i] == Encode(cp)[i]
  {
    forall i | 0 <= i < |Encode(cp)| ensures text[p + i] == Encode(cp)[i] {
      assert text[p..p + |Encode(cp)|][i] == text[p + i];
    }
  }

  lemma Sixty(a: nat, b: nat)
    requires b < 64
    ensures (a * 64 + b) / 64 == a && (a * 64 + b) % 64 == b
  {
  }

  /** Decoding inverts encoding. */
  lemma DecodeInvertsEncode(text: seq<byte>, p: nat, cp: nat)
    requires At(text, p, cp)
    ensures p < |text| && Decode(text, p) == Decoded(cp, |Encode(cp)|)
  {
    AtBytes(text, p, cp);
    var e := Encode(cp);
    assert text[p] == text[p + 0] == e[0];
    if cp >= 0x10000 {
      Decodes4(text, p, cp);
    } else if cp >= 0x800 {
      Decodes3(text, p, cp);
    } else if cp >= 0x80 {
      Tail(cp % 64);
      assert text[p + 1] == e[1];
    }
  }

  lemma Tail(r: nat)
    requires r < 64
    ensures (0x80 + r) % 64 == r && (0x80 + r) / 64 == 2
  {
  }

  lemma Decodes3(text: seq<byte>, p: nat, cp: nat)
    requires 0x800 <= cp < 0x10000 && IsScalar(cp) && p + 2 < |text| && text[p] == 0xE0 + cp / 4096
    requires text[p + 1] == 0x80 + cp / 64 % 64 && text[p + 2] == 0x80 + cp % 64
    ensures Decode(text, p) == Decoded(cp, 3)
  {
    hide FourBytes;
    Tail(cp / 64 % 64);
    Tail(cp % 64);
    Pieces3(cp);
    assert (0xE0 + cp / 4096) % 16 == cp / 4096;
  }

  lemma Decodes4(text: seq<byte>, p: nat, cp: nat)
    requires 0x10000 <= cp < CODE_POINTS && p + 3 < |text| && text[p] == 0xF0 + cp / 262144
    requires text[p + 1] == 0x80 + cp / 4096 % 64 && text[p + 2] == 0x80 + cp / 64 % 64 && text[p + 3] == 0x80 + cp % 64
    ensures Decode(text, p) == Decoded(cp, 4)
  {
    hide ThreeBytes;
    Tail(cp / 4096 % 64);
    Tail(cp / 64 % 64);
    Tail(cp % 64);
    Pieces4(cp);
    assert (0xF0 + cp / 262144) % 8 == cp / 262144;
  }

  lemma Pieces3(cp: nat)
    requires cp < 0x10000
    ensures cp == cp / 4096 * 4096 + cp / 64 % 64 * 64 + cp % 64 && cp / 4096 < 16
  {
  }

  lemma Pieces4(cp: nat)
    requires cp < CODE_POINTS
    ensures cp == cp / 262144 * 262144 + cp / 4096 % 64 * 4096 + cp / 64 % 64 * 64 + cp % 64 && cp / 262144 < 5
  {
    var a := cp / 64;
    var b := a / 64;
    assert cp / 4096 == b;
    assert cp / 262144 == b / 64;
  }

  /** What decodes as itself was written that way: only the shortest form of a scalar value is accepted,
      and U+FFFD of length one stands for a byte where none begins. */
  lemma DecodeMeaning(text: seq<byte>, p: nat)
    requires p < |text|
    ensures var d := Decode(text, p);
            if d == Decoded(REPLACEMENT, 1) then forall cp: nat :: !At(text, p, cp)
            else At(text, p, d.cp) && |Encode(d.cp)| == d.len
  {
    var d := Decode(text, p);
    if d == Decoded(REPLACEMENT, 1) {
      forall cp: nat ensures !At(text, p, cp) {
        if At(text, p, cp) {
          DecodeInvertsEncode(text, p, cp);
        }
      }
    } else {
      DecodedBytes(text, p);
    }
  }

  lemma DecodedBytes(text: seq<byte>, p: nat)
    requires p < |text| && Decode(text, p) != Decoded(REPLACEMENT, 1)
    ensures var d := Decode(text, p); At(text, p, d.cp) && |Encode(d.cp)| == d.len
  {
    var d := Decode(text, p);
    var c := text[p];
    if d.len == 2 {
      Encodes2(text, p);
    } else if d.len == 3 {
      Encodes3(text, p);
    } else if d.len == 4 {
      Encodes4(text, p);
    } else {
      assert text[p..p + 1] == [c];
    }
  }

  lemma TailOf(b: byte)
    requires b / 64 == 2
    ensures b == 0x80 + b % 64
  {
  }

  lemma Encodes2(text: seq<byte>, p: nat)
    requires p < |text| && 0xC2 <= text[p] <= 0xDF && Cont(text, p, 1)
    ensures At(text, p, text[p] % 32 * 64 + Low(text, p, 1)) && |Encode(text[p] % 32 * 64 + Low(text, p, 1))| == 2
  {
    var cp := text[p] % 32 * 64 + Low(text, p, 1);
    Sixty(text[p] % 32, Low(text, p, 1));
    TailOf(text[p + 1]);
    assert text[p..p + 2] == [text[p], text[p + 1]];
    assert Encode(cp) == [0xC0 + text[p] % 32, 0x80 + Low(text, p, 1)];
  }

  lemma Encodes3(text: seq<byte>, p: nat)
    requires p < |text| && 0xE0 <= text[p] <= 0xEF && Cont(text, p, 1) && Cont(text, p, 2) && Three(text, p)
    ensures At(text, p, ThreeBytes(text, p)) && |Encode(ThreeBytes(text, p))| == 3
  {
    var cp := ThreeBytes(text, p);
    Split3(text[p] % 16, Low(text, p, 1), Low(text, p, 2));
    TailOf(text[p + 1]);
    TailOf(text[p + 2]);
    assert text[p..p + 3] == [text[p], text[p + 1], text[p + 2]];
    assert Encode(cp) == [0xE0 + text[p] % 16, 0x80 + Low(text, p, 1), 0x80 + Low(text, p, 2)];
  }

  lemma Encodes4(text: seq<byte>, p: nat)
    requires p < |text| && 0xF0 <= text[p] <= 0xF4 && Cont(text, p, 1) && Cont(text, p, 2) && Cont(text, p, 3)
    requires 0x10000 <= FourBytes(text, p) < CODE_POINTS
    ensures At(text, p, FourBytes(text, p)) && |Encode(FourBytes(text, p))| == 4
  {
    var cp := FourBytes(text, p);
    Split4(text[p] % 8, Low(text, p, 1), Low(text, p, 2), Low(text, p, 3));
    TailOf(text[p + 1]);
    TailOf(text[p + 2]);
    TailOf(text[p + 3]);
    assert text[p..p + 4] == [text[p], text[p + 1], text[p + 2], text[p + 3]];
    assert Encode(cp) == [0xF0 + text[p] % 8, 0x80 + Low(text, p, 1), 0x80 + Low(text, p, 2), 0x80 + Low(text, p, 3)];
  }

  lemma Split3(a: nat, b: nat, c: nat)
    requires b < 64 && c < 64
    ensures var cp := a * 4096 + b * 64 + c; cp / 4096 == a && cp / 64 % 64 == b && cp % 64 == c
  {
    Sixty(a * 64 + b, c);
    Sixty(a, b);
    assert (a * 4096 + b * 64 + c) / 4096 == a;
  }

  lemma Split4(a: nat, b: nat, c: nat, d: nat)
    requires b < 64 && c < 64 && d < 64
    ensures var cp := a * 262144 + b * 4096 + c * 64 + d;
            cp / 262144 == a && cp / 4096 % 64 == b && cp / 64 % 64 == c && cp % 64 == d
  {
    Sixty(a * 4096 + b * 64 + c, d);
    Split3(a, b, c);
    assert (a * 262144 + b * 4096 + c * 64 + d) / 4096 == a * 64 + b;
  }
}
