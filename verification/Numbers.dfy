/** Numbers in order: the lesser and the greater of two, and products. */
module Numbers {

  function Min(a: nat, b: nat): nat {
    if b < a then b else a
  }

  function Max(a: nat, b: nat): nat {
    if a < b then b else a
  }

  lemma MulMonotone(a: nat, b: nat, d: nat)
    requires a <= b
    ensures a * d <= b * d && d * a <= d * b
  {
  }

  lemma ScaleMonotone(a: real, b: real, x: real)
    requires a <= b && 0.0 <= x
    ensures a * x <= b * x && x * a <= x * b
  {
  }
}
