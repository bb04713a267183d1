/** The integer hashes of src/utils/hash.h. */
module Hash {
  import opened Words

  lemma {:induction false} XorBound(a: nat, b: nat, n: nat)
    requires a < Pow2(n) && b < Pow2(n)
    ensures BitXor(a, b) < Pow2(n)
    decreases a + b
  {
    if a != 0 && b != 0 {
      XorBound(a / 2, b / 2, n - 1);
    }
  }

  lemma Pow2Of32()
    ensures Pow2(32) == 0x1_0000_0000
  {
    assert Pow2(8) == 256;
    PowAdds(8, 8);
    PowAdds(16, 16);
  }

  function Xor32(a: Word32, b: Word32): Word32 {
    Pow2Of32();
    XorBound(a, b, 32);
    BitXor(a, b)
  }

  function Mul32(a: Word32, b: Word32): Word32 {
    a * b % 0x1_0000_0000
  }

  /** `hash32_murmur3` */
  function Murmur3(key: Word32): Word32 {
    var a := Mul32(Xor32(key, key / 0x1_0000), 0x85eb_ca6b);
    var b := Mul32(Xor32(a, a / 0x2000), 0xc2b2_ae35);
    Xor32(b, b / 0x1_0000)
  }

  /** `hash32_ptr`: only the low half of the pointer is hashed. */
  function HashPtr(p: Word): Word32 {
    Murmur3(p % 0x1_0000_0000)
  }

  /** `hash & (size - 1)`, an index into a table whose size is a power of two. */
  function Home(hash: Word32, size: int): (i: nat)
    requires size >= 1
    ensures i < size
  {
    BitAnd(hash, size - 1)
  }

  lemma HomeIsModulo(hash: Word32, size: int)
    requires IsPow2(size)
    ensures Home(hash, size) == hash % size
  {
    var k :| size == Pow2(k);
    MaskIsModulo(hash, k);
  }

  // ---------- The hash is a bijection ----------

  lemma XorZero(a: nat)
    ensures BitXor(a, 0) == a && BitXor(0, a) == a
  {
  }

  lemma {:induction false} XorHalves(a: nat, b: nat)
    ensures BitXor(a, b) / 2 == BitXor(a / 2, b / 2)
    ensures BitXor(a, b) % 2 == if a % 2 != b % 2 then 1 else 0
  {
    if a == 0 || b == 0 {
      XorZero(a / 2);
      XorZero(b / 2);
    }
  }

  lemma QuotientIsNat(x: nat, p: nat)
    requires p >= 1
    ensures x / p >= 0
  {
    var k := x / p;
    assert x == k * p + x % p;
    if k <= -1 {
      MulAtLeast(-k, p);
    }
  }

  /** A shift to the right, by a power of two `p`. */
  function ShiftDown(x: nat, p: nat): nat
    requires p >= 1
  {
    QuotientIsNat(x, p);
    x / p
  }

  /** A number and its own shift by at least one bit determine the number. */
  lemma {:induction false} XorShiftInjective(x: nat, y: nat, p: nat)
    requires p >= 2 && p % 2 == 0 && BitXor(x, ShiftDown(x, p)) == BitXor(y, ShiftDown(y, p))
    ensures x == y
    decreases x + y
  {
    if x != 0 || y != 0 {
      var s, t := ShiftDown(x, p), ShiftDown(y, p);
      HalfOfShift(x, p);
      HalfOfShift(y, p);
      SameHalves(x, s, y, t);
      XorShiftInjective(x / 2, y / 2, p);
      SameShift(x, y, p);
      XorCancel(x, y, s);
    }
  }

  lemma SameHalves(x: nat, s: nat, y: nat, t: nat)
    requires BitXor(x, s) == BitXor(y, t)
    ensures BitXor(x / 2, s / 2) == BitXor(y / 2, t / 2)
  {
    hide BitXor;
    XorHalves(x, s);
    XorHalves(y, t);
  }

  lemma XorCancel(x: nat, y: nat, s: nat)
    requires x / 2 == y / 2 && BitXor(x, s) == BitXor(y, s)
    ensures x == y
  {
    hide BitXor;
    XorHalves(x, s);
    XorHalves(y, s);
  }

  lemma HalfOfShift(x: nat, p: nat)
    requires p >= 1
    ensures ShiftDown(x, p) / 2 == ShiftDown(x / 2, p)
  {
    DivDiv(x, p, 2);
    DivDiv(x, 2, p);
  }

  lemma DivDiv(x: nat, a: nat, b: nat)
    requires a >= 1 && b >= 1
    ensures a * b >= 1 && x / a / b == x / (a * b)
  {
    var q, r := x / a, x % a;
    var u, v := q / b, q % b;
    assert x == q * a + r && q == u * b + v;
    Regroup(a, b, u, v, r);
    ModuloUnique(x, a * b, u, v * a + r);
  }

  lemma Regroup(a: nat, b: nat, u: nat, v: nat, r: nat)
    requires v < b && r < a
    ensures (u * b + v) * a + r == u * (a * b) + (v * a + r) && v * a + r < a * b
  {
    assert (u * b + v) * a == u * b * a + v * a;
    assert u * b * a == u * (a * b);
    TimesMonotone(v + 1, b, a);
    assert (v + 1) * a == v * a + a;
  }

  lemma TimesMonotone(x: nat, y: nat, a: nat)
    requires x <= y
    ensures x * a <= y * a
  {
    assert y * a == x * a + (y - x) * a;
  }

  lemma SameShift(x: nat, y: nat, p: nat)
    requires p >= 2 && p % 2 == 0 && x / 2 == y / 2
    ensures ShiftDown(x, p) == ShiftDown(y, p)
  {
    DivDiv(x, 2, p / 2);
    DivDiv(y, 2, p / 2);
  }

  /** Multiplying by a constant that has an inverse loses nothing. */
  lemma MulInjective(a: Word32, b: Word32, m: Word32, inverse: Word32)
    requires m * inverse % 0x1_0000_0000 == 1 && Mul32(a, m) == Mul32(b, m)
    ensures a == b
  {
    Undo(a, m, inverse);
    Undo(b, m, inverse);
  }

  lemma Undo(a: Word32, m: Word32, inverse: Word32)
    requires m * inverse % 0x1_0000_0000 == 1
    ensures Mul32(a, m) * inverse % 0x1_0000_0000 == a
  {
    var u: int := 0x1_0000_0000;
    var x: int := a * m;
    var k, q := x / u, m * inverse / u;
    assert x == k * u + x % u;
    assert m * inverse == q * u + 1;
    var y: int := (x % u) * inverse;
    assert y == (a * q - k * inverse) * u + a by {
      assert x * inverse == a * (m * inverse) == a * (q * u + 1);
      assert (x - k * u) * inverse == x * inverse - k * inverse * u;
    }
    ModuloUnique(y, u, a * q - k * inverse, a);
  }

  /** Different keys have different hashes: only the masking makes them collide. */
  lemma Murmur3Injective(x: Word32, y: Word32)
    requires Murmur3(x) == Murmur3(y)
    ensures x == y
  {
    hide BitXor, Mul32;
    var x1, y1 := Xor32(x, x / 0x1_0000), Xor32(y, y / 0x1_0000);
    var x2, y2 := Mul32(x1, 0x85eb_ca6b), Mul32(y1, 0x85eb_ca6b);
    var x3, y3 := Xor32(x2, x2 / 0x2000), Xor32(y2, y2 / 0x2000);
    XorShiftInjective(Mul32(x3, 0xc2b2_ae35), Mul32(y3, 0xc2b2_ae35), 0x1_0000);
    MulInjective(x3, y3, 0xc2b2_ae35, 0x7ed1_b41d);
    XorShiftInjective(x2, y2, 0x2000);
    MulInjective(x1, y1, 0x85eb_ca6b, 0xa5cb_9243);
    XorShiftInjective(x, y, 0x1_0000);
  }
}
