/** Machine integers of the node, written out: the widths, and the saturating
    operations the node uses in place of Rust's panicking arithmetic. */
module Machine {
  const U32: nat := 0x1_0000_0000
  const U64: nat := 0x1_0000_0000_0000_0000
  const U128: nat := 0x1_0000_0000_0000_0000_0000_0000_0000_0000

  type u32 = x: int | 0 <= x < 0x1_0000_0000
  type u64 = x: int | 0 <= x < 0x1_0000_0000_0000_0000
  type Byte = x: int | 0 <= x < 256

  datatype Option<+T> = None | Some(value: T)
  datatype Result<+T, +E> = Ok(value: T) | Err(error: E)

  function Min(a: int, b: int): int { if a <= b then a else b }
  function Max(a: int, b: int): int { if a <= b then b else a }

  /** `saturating_add` and `saturating_mul` at a given width. */
  function SatAdd(width: nat, a: nat, b: nat): nat
    requires width > 0
  {
    Min(a + b, width - 1)
  }

  function SatMul(width: nat, a: nat, b: nat): nat
    requires width > 0
  {
    Min(a * b, width - 1)
  }

  function SatSub(a: nat, b: nat): nat { if a <= b then 0 else a - b }

  /** A cast to 32 bits keeps what fits. */
  lemma FitsU32(x: nat)
    requires x < U32
    ensures x % U32 == x
  {}

  lemma MulLeft(a: nat, b: nat, c: nat)
    requires a <= b
    ensures c * a <= c * b
  {}

  lemma MulMono(a: nat, b: nat, c: nat, d: nat)
    requires a <= b && c <= d
    ensures a * c <= b * d
  {
    MulLeft(a, b, c);
    MulLeft(c, d, b);
  }

  lemma DivMono(a: nat, b: nat, d: nat)
    requires a <= b && d > 0
    ensures a / d <= b / d
  {
    var q, r := a / d, b / d;
    if q > r {
      MulMono(r + 1, q, d, d);
    }
  }

  lemma DivCancel(a: nat, d: nat)
    requires d > 0
    ensures d * a / d == a
  {
    DivUnique(d * a, d, a, 0);
  }

  lemma DivUnique(x: nat, d: nat, q: nat, r: nat)
    requires d > 0 && x == d * q + r && r < d
    ensures x / d == q
  {
    var q', r' := x / d, x % d;
    assert x == d * q' + r' && 0 <= r' < d;
    if q < q' {
      MulMono(q + 1, q', d, d);
    } else if q' < q {
      MulMono(q' + 1, q, d, d);
    }
  }

  /** What the floor of a quotient is. */
  lemma FloorLaw(x: nat, d: nat)
    requires d > 0
    ensures d * (x / d) <= x < d * (x / d + 1)
  {
    var q, r := x / d, x % d;
    assert x == d * q + r;
    assert d * (q + 1) == d * q + d;
  }

  lemma QuotientBound(x: nat, d: nat, k: nat)
    requires d > 0
    ensures x / d <= k <==> x < (k + 1) * d
  {
    var q := x / d;
    assert x == d * q + x % d;
    if q <= k { MulMono(q + 1, k + 1, d, d); } else { MulMono(k + 1, q, d, d); }
  }
}
