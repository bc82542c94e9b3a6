/** Shared by all modules: options, machine word sizes and a little arithmetic. */
module Common {
  datatype Option<T> = None | Some(value: T)

  const TWO_32: nat := 0x1_0000_0000
  const TWO_62: nat := 0x4000_0000_0000_0000
  const TWO_63: nat := 0x8000_0000_0000_0000
  const TWO_64: nat := 0x1_0000_0000_0000_0000

  function Min(a: int, b: int): int { if a < b then a else b }

  function Max(a: int, b: int): int { if a < b then b else a }

  function Pow2(n: nat): (p: nat)
    ensures p >= 1
  {
    if n == 0 then 1 else 2 * Pow2(n - 1)
  }

  lemma {:induction false} MulLe(a: nat, b: nat, q: nat)
    requires a <= b
    ensures a * q <= b * q
  {
    if a < b {
      MulLe(a, b - 1, q);
      assert b * q == (b - 1) * q + q;
    }
  }

  /** Quotient and remainder are unique. */
  lemma Quotient(x: nat, q: nat, r: nat, size: nat)
    requires x == q * size + r && r < size
    ensures x / size == q && x % size == r
  {
    var p := x / size;
    assert x == p * size + x % size;
    if p < q { MulLe(p + 1, q, size); }
    if q < p { MulLe(q + 1, p, size); }
  }

  lemma Euclid(v: nat, a: nat)
    requires a > 0
    ensures v == v / a * a + v % a && v % a < a
  {
  }

  lemma Regroup(y: nat, b: nat, z: nat, a: nat, w: nat)
    ensures (y * b + z) * a + w == y * (a * b) + (z * a + w)
  {
    assert (y * b + z) * a == y * b * a + z * a;
    assert y * b * a == y * (a * b);
  }

  lemma BelowProduct(z: nat, b: nat, w: nat, a: nat)
    requires z < b && w < a
    ensures z * a + w < a * b
  {
    MulLe(z + 1, b, a);
    assert (z + 1) * a == z * a + a && b * a == a * b;
  }

  /** Dividing twice, quotient and remainder. */
  lemma DivTwice(v: nat, a: nat, b: nat)
    requires a > 0 && b > 0
    ensures a * b > 0 && v / (a * b) == v / a / b && v % (a * b) == v / a % b * a + v % a
  {
    var x := v / a;
    Euclid(v, a);
    Euclid(x, b);
    Regroup(x / b, b, x % b, a, v % a);
    BelowProduct(x % b, b, v % a, a);
    Quotient(v, x / b, x % b * a + v % a, a * b);
  }
}
