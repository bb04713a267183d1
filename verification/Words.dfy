/** Machine words as bounded integers, with the C operators the sources use on them. */
module Words {
  const U64: int := 0x1_0000_0000_0000_0000
  const U32: int := 0x1_0000_0000

  /** A `size_t`, `uint64_t`, `uintptr_t` or pointer value. */
  type Word = x: int | 0 <= x < U64

  /** A `uint32_t` value. */
  type Word32 = x: int | 0 <= x < U32

  function Wrap(x: int): Word {
    x % 0x1_0000_0000_0000_0000
  }

  /** 64-bit addition and subtraction, wrapping as in C. */
  function Add64(a: int, b: int): Word {
    Wrap(a + b)
  }

  function Sub64(a: int, b: int): Word {
    Wrap(a - b)
  }

  function Pow2(n: nat): (p: nat)
    ensures p >= 1
  {
    if n == 0 then 1 else 2 * Pow2(n - 1)
  }

  ghost predicate IsPow2(n: int) {
    exists k: nat :: n == Pow2(k)
  }

  /** The bit at position `j` of `x`: `(x >> j) & 1`. */
  predicate Bit(x: nat, j: nat)
    decreases j
  {
    if j == 0 then x % 2 == 1 else Bit(x / 2, j - 1)
  }

  function BitAnd(a: nat, b: nat): (r: nat)
    ensures r <= a && r <= b
    decreases a
  {
    if a == 0 || b == 0 then 0
    else 2 * BitAnd(a / 2, b / 2) + (a % 2) * (b % 2)
  }

  function BitOr(a: nat, b: nat): nat
    decreases a + b
  {
    if a == 0 then b else if b == 0 then a
    else 2 * BitOr(a / 2, b / 2) + (if a % 2 == 1 || b % 2 == 1 then 1 else 0)
  }

  function BitXor(a: nat, b: nat): nat
    decreases a + b
  {
    if a == 0 then b else if b == 0 then a
    else 2 * BitXor(a / 2, b / 2) + (if a % 2 != b % 2 then 1 else 0)
  }

  /** Masking with a power of two minus one is the remainder. */
  lemma {:induction false} MaskIsModulo(x: nat, n: nat)
    ensures BitAnd(x, Pow2(n) - 1) == x % Pow2(n)
    decreases n
  {
    if n == 0 {
      ModuloUnique(x, 1, x, 0);
    } else {
      var p := Pow2(n - 1);
      assert Pow2(n) == 2 * p;
      MaskIsModulo(x / 2, n - 1);
      DoubleModulo(x, p);
      MaskStep(x, p);
    }
  }

  lemma MaskStep(x: nat, p: nat)
    requires p >= 1
    ensures BitAnd(x, 2 * p - 1) == 2 * BitAnd(x / 2, p - 1) + x % 2
  {
    assert (2 * p - 1) / 2 == p - 1 && (2 * p - 1) % 2 == 1;
  }

  lemma DoubleModulo(x: nat, p: nat)
    requires p >= 1
    ensures x % (2 * p) == 2 * ((x / 2) % p) + x % 2
  {
    var y := x / 2;
    var q := y / p;
    var r := 2 * (y % p) + x % 2;
    assert x == 2 * y + x % 2;
    assert y == q * p + y % p;
    assert x == q * (2 * p) + r by {
      assert 2 * (q * p) == q * (2 * p);
    }
    ModuloUnique(x, 2 * p, q, r);
  }

  lemma ModuloUnique(x: int, d: int, q: int, r: int)
    requires d > 0 && 0 <= r < d && x == q * d + r
    ensures x / d == q && x % d == r
  {
    var k := x / d - q;
    assert k * d == r - x % d by {
      assert x == (x / d) * d + x % d;
    }
    if k >= 1 { MulAtLeast(k, d); }
    if k <= -1 { MulAtLeast(-k, d); }
  }

  lemma MulAtLeast(k: int, d: int)
    requires k >= 1 && d >= 0
    ensures k * d >= d
  {
    assert k * d == (k - 1) * d + d;
  }

  lemma Distribute(a: int, x: int, y: int)
    ensures a * (x + y) == a * x + a * y
  {
  }

  lemma {:induction false} PowAdds(a: nat, b: nat)
    ensures Pow2(a + b) == Pow2(a) * Pow2(b)
    decreases a
  {
    if a > 0 { PowAdds(a - 1, b); }
  }

  lemma {:induction false} PowGrows(i: nat, n: nat)
    requires i < n
    ensures Pow2(i) < Pow2(n)
    decreases n
  {
    if i < n - 1 {
      PowGrows(i, n - 1);
    }
  }

  /** Wrapping early or late makes no difference. */
  lemma WrapAdd(a: int, b: int)
    ensures Wrap(Wrap(a) + b) == Wrap(a + b)
  {
  }

  lemma WrapSmall(a: int)
    requires 0 <= a < U64
    ensures Wrap(a) == a
  {
  }
}
