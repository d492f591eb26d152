/** The vector instructions that engine/src/lexical/codec.cc uses: four 32-bit lanes at a time. */
module Neon {
  import opened Bits

  datatype Vector = Vector(l0: u32, l1: u32, l2: u32, l3: u32)

  /** vld1q_u32. */
  function Load(a: array<u32>, i: nat): Vector
    reads a
    requires i + 4 <= a.Length
  {
    Vector(a[i], a[i + 1], a[i + 2], a[i + 3])
  }

  /** vst1q_u32. */
  method Store(a: array<u32>, i: nat, v: Vector)
    requires i + 4 <= a.Length
    modifies a
    ensures Load(a, i) == v
    ensures forall j :: 0 <= j < a.Length && !(i <= j < i + 4) ==> a[j] == old(a[j])
  {
    a[i], a[i + 1], a[i + 2], a[i + 3] := v.l0, v.l1, v.l2, v.l3;
  }

  /** vdupq_n_u32. */
  function Dup(x: u32): Vector {
    Vector(x, x, x, x)
  }

  /** vaddq_u32. */
  function Add(v: Vector, w: Vector): Vector {
    Vector(Add32(v.l0, w.l0), Add32(v.l1, w.l1), Add32(v.l2, w.l2), Add32(v.l3, w.l3))
  }

  /** vextq_u32: four neighbouring lanes of `v` and `w` together, from lane `n` on. */
  function Ext(v: Vector, w: Vector, n: nat): Vector
    requires n < 4
  {
    if n == 0 then v
    else if n == 1 then Vector(v.l1, v.l2, v.l3, w.l0)
    else if n == 2 then Vector(v.l2, v.l3, w.l0, w.l1)
    else Vector(v.l3, w.l0, w.l1, w.l2)
  }

  /** A lane of vshlq_u32: a negative count shifts to the right. */
  function ShlLane(x: u32, n: int): u32 {
    if n <= -32 || 32 <= n then 0
    else if 0 <= n then Shl32(x, n)
    else
      ShrBelow(x, -n);
      Shr(x, -n)
  }

  /** vshlq_u32 with the same count in every lane. */
  function Shl(v: Vector, n: int): Vector {
    Vector(ShlLane(v.l0, n), ShlLane(v.l1, n), ShlLane(v.l2, n), ShlLane(v.l3, n))
  }

  function OrLane(x: u32, y: u32): u32 {
    OrBelow32(x, y);
    Or(x, y)
  }

  /** vorrq_u32. */
  function OrLanes(v: Vector, w: Vector): Vector {
    Vector(OrLane(v.l0, w.l0), OrLane(v.l1, w.l1), OrLane(v.l2, w.l2), OrLane(v.l3, w.l3))
  }

  function AndLane(x: u32, y: u32): u32 {
    AndBelow(x, y);
    And(x, y)
  }

  /** vandq_u32. */
  function AndLanes(v: Vector, w: Vector): Vector {
    Vector(AndLane(v.l0, w.l0), AndLane(v.l1, w.l1), AndLane(v.l2, w.l2), AndLane(v.l3, w.l3))
  }
}
