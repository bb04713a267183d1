/** Integers as little-endian bytes, and ranges of bytes within a memory. */
module Bytes {
  type Byte = x: int | 0 <= x < 256

  /** 256 to the power `k`. */
  function Bound(k: nat): (b: nat)
    ensures b >= 1
  {
    if k == 0 then 1 else 256 * Bound(k - 1)
  }

  function Encode(n: nat, k: nat): (s: seq<Byte>)
    ensures |s| == k
    decreases k
  {
    if k == 0 then [] else [n % 256] + Encode(n / 256, k - 1)
  }

  function Decode(s: seq<Byte>): nat {
    if s == [] then 0 else s[0] + 256 * Decode(s[1..])
  }

  lemma {:induction false} DecodeEncode(n: nat, k: nat)
    requires n < Bound(k)
    ensures Decode(Encode(n, k)) == n
    decreases k
  {
    if k > 0 {
      assert n / 256 < Bound(k - 1);
      DecodeEncode(n / 256, k - 1);
      assert Encode(n, k)[1..] == Encode(n / 256, k - 1);
    }
  }

  lemma WordBounds()
    ensures Bound(4) == 0x1_0000_0000 && Bound(8) == 0x1_0000_0000_0000_0000
  {
    assert Bound(2) == 65536;
    assert Bound(4) == 256 * 256 * Bound(2);
    assert Bound(6) == 256 * 256 * Bound(4);
    assert Bound(8) == 256 * 256 * Bound(6);
  }

  /** The memory after `bytes` have been stored at `a`. */
  function Write(m: seq<Byte>, a: nat, bytes: seq<Byte>): (r: seq<Byte>)
    requires a + |bytes| <= |m|
    ensures |r| == |m|
    ensures r[a..a + |bytes|] == bytes
  {
    m[..a] + bytes + m[a + |bytes|..]
  }

  /** A store leaves every range alone that it does not overlap. */
  lemma WriteElsewhere(m: seq<Byte>, a: nat, bytes: seq<Byte>, b: nat, n: nat)
    requires a + |bytes| <= |m| && b + n <= |m|
    requires b + n <= a || a + |bytes| <= b
    ensures Write(m, a, bytes)[b..b + n] == m[b..b + n]
  {
  }
}
