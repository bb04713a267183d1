/**
 The header-prefixed allocator of src/core/allocator.c, once initialised, over a heap of bytes. libc
 is the caller of the `raw` parameters: a block it hands out is aligned to 16, lies inside the heap
 and overlaps no block it has not been given back.
 */
module Allocator {
  import opened Words
  import opened Bytes

  const HEADER_SIZE: int := 32
  const HEADER_ALIGNMENT: int := 16
  const MAGIC: Word32 := 0x4E4F_4D41
  const NULL: Word := 0

  /** `struct alloc_header` */
  datatype Header = Header(rawPtr: Word, size: Word, requestedSize: Word, magic: Word32, flags: Word32)

  function EncodeHeader(h: Header): (s: seq<Byte>)
    ensures |s| == HEADER_SIZE
  {
    Encode(h.rawPtr, 8) + Encode(h.size, 8) + Encode(h.requestedSize, 8) + Encode(h.magic, 4) + Encode(h.flags, 4)
  }

  lemma DecodeBounds(s: seq<Byte>)
    ensures Decode(s) < Bound(|s|)
  {
    if s != [] {
      DecodeBounds(s[1..]);
    }
  }

  function DecodeHeader(s: seq<Byte>): Header
    requires |s| == HEADER_SIZE
  {
    WordBounds();
    DecodeBounds(s[0..8]); DecodeBounds(s[8..16]); DecodeBounds(s[16..24]);
    DecodeBounds(s[24..28]); DecodeBounds(s[28..32]);
    Header(Decode(s[0..8]), Decode(s[8..16]), Decode(s[16..24]), Decode(s[24..28]), Decode(s[28..32]))
  }

  /** Reading a header back gives what was written. */
  lemma HeaderRoundTrip(h: Header)
    ensures DecodeHeader(EncodeHeader(h)) == h
  {
    WordBounds();
    DecodeEncode(h.rawPtr, 8);
    DecodeEncode(h.size, 8);
    DecodeEncode(h.requestedSize, 8);
    DecodeEncode(h.magic, 4);
    DecodeEncode(h.flags, 4);
    Fields(Encode(h.rawPtr, 8), Encode(h.size, 8), Encode(h.requestedSize, 8), Encode(h.magic, 4), Encode(h.flags, 4));
  }

  /** Where the fields of a header are: `struct alloc_header` in little-endian order. */
  lemma HeaderLayout(h: Header)
    ensures var s := EncodeHeader(h);
            && Decode(s[0..8]) == h.rawPtr && Decode(s[8..16]) == h.size && Decode(s[16..24]) == h.requestedSize
            && Decode(s[24..28]) == h.magic && Decode(s[28..32]) == h.flags
  {
    HeaderRoundTrip(h);
  }

  lemma Fields(a: seq<Byte>, b: seq<Byte>, c: seq<Byte>, d: seq<Byte>, e: seq<Byte>)
    requires |a| == |b| == |c| == 8 && |d| == |e| == 4
    ensures var s := a + b + c + d + e;
            s[0..8] == a && s[8..16] == b && s[16..24] == c && s[24..28] == d && s[28..32] == e
  {
  }

  /** `align_up` */
  function AlignUp(val: nat, alignment: nat): (r: nat)
    ensures alignment != 0 ==> r % alignment == 0 && val <= r < val + alignment
  {
    if alignment == 0 then val
    else
      RoundUp(val, alignment);
      (val + alignment - 1) / alignment * alignment
  }

  lemma RoundUp(val: nat, a: nat)
    requires a > 0
    ensures var r := (val + a - 1) / a * a; r % a == 0 && val <= r < val + a
  {
    var q, rem := (val + a - 1) / a, (val + a - 1) % a;
    assert q * a + rem == val + a - 1;
    ModuloUnique(q * a, a, q, 0);
  }

  /** `is_power_of_two` */
  predicate IsPowerOfTwo(val: nat) {
    val != 0 && BitAnd(val, val - 1) == 0
  }

  lemma {:induction false} AndSelf(w: nat)
    ensures BitAnd(w, w) == w
  {
    if w > 0 { AndSelf(w / 2); }
  }

  lemma DoublePowers(w: nat)
    ensures IsPow2(2 * w) <==> IsPow2(w)
  {
    if IsPow2(w) {
      var k: nat :| w == Pow2(k);
      assert 2 * w == Pow2(k + 1);
    }
    if IsPow2(2 * w) {
      var k: nat :| 2 * w == Pow2(k);
      assert k != 0;
      assert w == Pow2(k - 1);
    }
  }

  /** The bit trick accepts exactly the powers of two. */
  lemma {:induction false} PowerOfTwoIff(val: nat)
    ensures IsPowerOfTwo(val) <==> IsPow2(val)
    decreases val
  {
    var w := val / 2;
    if val == 0 {
    } else if val % 2 == 0 {
      PowerOfTwoIff(w);
      DoublePowers(w);
      assert (val - 1) / 2 == w - 1 && (val - 1) % 2 == 1;
      assert BitAnd(val, val - 1) == 2 * BitAnd(w, w - 1);
    } else {
      AndSelf(w);
      assert Pow2(0) == 1;
      assert val > 1 ==> BitAnd(val, val - 1) == 2 * BitAnd(w, w);
      assert forall k: nat :: k > 0 ==> Pow2(k) == 2 * Pow2(k - 1);
    }
  }

  // ---------- Layout ----------

  /** What the allocator knows about a live user pointer. */
  datatype Live = Live(raw: Word, total: Word, requested: Word, flags: Word32)

  type Blocks = map<Word, Live>

  predicate Apart(a: int, n: int, b: int, m: int) {
    a + n <= b || b + m <= a
  }

  /** Header and payload lie inside the raw block, and raw blocks do not overlap. */
  ghost predicate Laid(live: Blocks, heap: nat) {
    && (forall p :: p in live ==> Inside(p, live[p], heap))
    && (forall p, q :: p in live && q in live && p != q ==>
          Apart(live[p].raw, live[p].total, live[q].raw, live[q].total))
  }

  predicate Inside(p: Word, b: Live, heap: nat) {
    && b.raw > 0 && b.raw % 16 == 0 && b.raw + b.total <= heap
    && b.raw <= p - HEADER_SIZE && p + b.requested <= b.raw + b.total
    && b.requested >= 1
  }

  function HeaderOf(b: Live): Header {
    Header(b.raw, b.total, b.requested, MAGIC, b.flags)
  }

  /** The bytes just before a user pointer. */
  function Head(m: seq<Byte>, p: Word): (s: seq<Byte>)
    requires HEADER_SIZE <= p <= |m|
    ensures |s| == HEADER_SIZE
  {
    m[p - HEADER_SIZE..p]
  }

  /** Every live block's header can be read from the bytes before its user pointer. */
  ghost predicate Headed(live: Blocks, m: seq<Byte>) {
    forall p :: p in live ==>
      HEADER_SIZE <= p <= |m| && DecodeHeader(Head(m, p)) == HeaderOf(live[p])
  }

  /** libc's promise about a block of `total` bytes at `raw`. */
  ghost predicate Granted(live: Blocks, heap: nat, raw: Word, total: Word) {
    && raw > 0 && raw % 16 == 0 && raw + total <= heap
    && forall p :: p in live ==> Apart(raw, total, live[p].raw, live[p].total)
  }

  /** The payload of a live block. */
  function Payload(m: seq<Byte>, p: Word, n: Word): seq<Byte>
    requires p + n <= |m|
  {
    m[p..p + n]
  }

  /** Headers and payloads of different blocks are pairwise disjoint. */
  lemma LiveRangesAreDisjoint(live: Blocks, heap: nat, p: Word, q: Word)
    requires Laid(live, heap) && p in live && q in live && p != q
    ensures Apart(p - HEADER_SIZE, HEADER_SIZE + live[p].requested, q - HEADER_SIZE, HEADER_SIZE + live[q].requested)
  {
    assert Inside(p, live[p], heap) && Inside(q, live[q], heap);
  }

  lemma LiveIsInside(live: Blocks, heap: nat, p: Word)
    requires Laid(live, heap) && p in live
    ensures Inside(p, live[p], heap)
  {
  }

  lemma AddLaid(live: Blocks, heap: nat, p: Word, b: Live)
    requires Laid(live, heap) && Granted(live, heap, b.raw, b.total) && Inside(p, b, heap)
    ensures p !in live && Laid(live[p := b], heap)
  {
    assert p in live ==> Inside(p, live[p], heap);
  }

  /** A store inside a newly granted or exclusively owned range leaves the other blocks' bytes alone. */
  lemma StoreKeepsHeads(live: Blocks, m: seq<Byte>, a: nat, bytes: seq<Byte>)
    requires Headed(live, m) && a + |bytes| <= |m|
    requires forall p :: p in live ==> Apart(a, |bytes|, p - HEADER_SIZE, HEADER_SIZE)
    ensures Headed(live, Write(m, a, bytes))
  {
    forall p | p in live
      ensures Head(Write(m, a, bytes), p) == Head(m, p)
    {
      HeadElsewhere(m, a, bytes, p);
    }
  }

  lemma HeadElsewhere(m: seq<Byte>, a: nat, bytes: seq<Byte>, p: Word)
    requires a + |bytes| <= |m| && HEADER_SIZE <= p <= |m| && Apart(a, |bytes|, p - HEADER_SIZE, HEADER_SIZE)
    ensures Head(Write(m, a, bytes), p) == Head(m, p)
  {
    WriteElsewhere(m, a, bytes, p - HEADER_SIZE, HEADER_SIZE);
  }

  // ---------- Accounting ----------

  /** The sum of the requested sizes of all live blocks. */
  ghost function TotalRequested(live: Blocks): int
    decreases |live|
  {
    if live == map[] then 0
    else var p :| p in live; live[p].requested + TotalRequested(live - {p})
  }

  lemma {:induction false} RequestedRemove(live: Blocks, p: Word)
    requires p in live
    ensures TotalRequested(live) == live[p].requested + TotalRequested(live - {p})
    decreases |live|
  {
    var q :| q in live && TotalRequested(live) == live[q].requested + TotalRequested(live - {q});
    if q != p {
      RequestedRemove(live - {q}, p);
      RequestedRemove(live - {p}, q);
      assert live - {q} - {p} == live - {p} - {q};
    }
  }

  lemma RequestedUpdate(live: Blocks, p: Word, b: Live)
    ensures TotalRequested(live[p := b]) ==
            TotalRequested(live) - (if p in live then live[p].requested else 0) + b.requested
  {
    RequestedRemove(live[p := b], p);
    assert live[p := b] - {p} == live - {p};
    if p in live {
      RequestedRemove(live, p);
    } else {
      assert live - {p} == live;
    }
  }

  // ---------- What libc gave and got back ----------

  ghost function Raws(live: Blocks): set<Word> {
    set p | p in live :: live[p].raw
  }

  /** Every grant is the raw pointer of a live block or has been handed back, as often as it was granted. */
  ghost predicate Settled(grants: multiset<Word>, returned: seq<Word>, live: Blocks) {
    grants == multiset(returned) + multiset(Raws(live))
  }

  lemma RawsDiffer(live: Blocks, heap: nat, p: Word)
    requires Laid(live, heap) && p in live
    ensures Raws(live) == Raws(live - {p}) + {live[p].raw} && live[p].raw !in Raws(live - {p})
    ensures forall q :: q in live && live[q].raw == live[p].raw ==> q == p
  {
    forall q | q in live - {p} ensures live[q].raw != live[p].raw {
      assert Inside(p, live[p], heap) && Inside(q, live[q], heap);
    }
    var rest := live - {p};
    forall raw ensures raw in Raws(live) <==> raw in Raws(rest) || raw == live[p].raw {
      if raw in Raws(live) {
        var q :| q in live && live[q].raw == raw;
        assert q == p || (q in rest && rest[q].raw == raw);
      }
    }
  }

  lemma SettleGrant(grants: multiset<Word>, returned: seq<Word>, live: Blocks, heap: nat, p: Word, b: Live)
    requires Settled(grants, returned, live)
    requires Laid(live, heap) && Granted(live, heap, b.raw, b.total) && Inside(p, b, heap)
    ensures Settled(grants + multiset{b.raw}, returned, live[p := b])
  {
    AddLaid(live, heap, p, b);
    RawsDiffer(live[p := b], heap, p);
    assert live[p := b] - {p} == live;
    assert multiset(Raws(live[p := b])) == multiset(Raws(live)) + multiset{b.raw};
  }

  lemma SettleReturn(grants: multiset<Word>, returned: seq<Word>, live: Blocks, heap: nat, p: Word)
    requires Settled(grants, returned, live) && Laid(live, heap) && p in live
    ensures Settled(grants, returned + [live[p].raw], live - {p})
  {
    RawsDiffer(live, heap, p);
    assert multiset(Raws(live)) == multiset(Raws(live - {p})) + multiset{live[p].raw};
  }

  lemma SettleRewrite(grants: multiset<Word>, returned: seq<Word>, live: Blocks, p: Word, b: Live)
    requires Settled(grants, returned, live) && p in live && b.raw == live[p].raw
    ensures Settled(grants, returned, live[p := b])
  {
    forall raw ensures raw in Raws(live[p := b]) <==> raw in Raws(live) {
      if raw in Raws(live) {
        var q :| q in live && live[q].raw == raw;
        assert q in live[p := b] && live[p := b][q].raw == raw;
      }
    }
    assert Raws(live[p := b]) == Raws(live);
  }

  /** The live blocks that have a raw pointer. */
  ghost function Owners(live: Blocks, raw: Word): set<Word> {
    set p | p in live && live[p].raw == raw
  }

  /** libc has a raw pointer back as often as it granted it, less once while a live block, and only one, has it. */
  lemma {:induction false} ReturnedOnce(
      grants: multiset<Word>, returned: seq<Word>, live: Blocks, heap: nat, raw: Word)
    requires Settled(grants, returned, live) && Laid(live, heap)
    ensures grants[raw] == multiset(returned)[raw] + |Owners(live, raw)|
    ensures |Owners(live, raw)| <= 1
  {
    if p :| p in live && live[p].raw == raw {
      RawsDiffer(live, heap, p);
      assert Owners(live, raw) == {p};
    } else {
      assert Owners(live, raw) == {};
      assert raw !in Raws(live);
    }
  }

  // ---------- The allocator ----------

  /** What `malloc` and `realloc` ask libc for. */
  function RawSize(size: nat): nat {
    AlignUp(size, HEADER_ALIGNMENT) + HEADER_SIZE + HEADER_ALIGNMENT
  }

  function AtLeastOne(size: Word): (n: Word)
    ensures size >= 1 ==> n == size
    ensures size < 1 ==> n == 1
  {
    if size == 0 then 1 else size
  }

  /** The request is the least multiple of 16 with room for the header, the payload and 16 bytes more. */
  lemma RawSizeIsLeast(size: nat)
    ensures RawSize(size) % 16 == 0 && size + 48 <= RawSize(size) < size + 48 + 16
  {
    var up := AlignUp(size, HEADER_ALIGNMENT);
    ModuloUnique(up + 48, 16, up / 16 + 3, 0);
  }

  /** The payloads of `live` read the same in both memories. */
  ghost predicate SamePayloads(live: Blocks, m: seq<Byte>, r: seq<Byte>) {
    && |m| == |r|
    && forall p :: p in live ==>
         p + live[p].requested <= |m| && Payload(m, p, live[p].requested) == Payload(r, p, live[p].requested)
  }

  lemma StoreKeepsPayloads(live: Blocks, m: seq<Byte>, a: nat, bytes: seq<Byte>)
    requires Laid(live, |m|) && a + |bytes| <= |m|
    requires forall p :: p in live ==> Apart(a, |bytes|, p, live[p].requested)
    ensures SamePayloads(live, m, Write(m, a, bytes))
  {
    forall p | p in live
      ensures p + live[p].requested <= |m|
      ensures Payload(Write(m, a, bytes), p, live[p].requested) == Payload(m, p, live[p].requested)
    {
      assert Inside(p, live[p], |m|);
      WriteElsewhere(m, a, bytes, p, live[p].requested);
    }
  }

  /** A store within a block libc has just granted touches no live header and no live payload. */
  lemma StoreInGrant(live: Blocks, m: seq<Byte>, raw: Word, total: Word, a: nat, bytes: seq<Byte>)
    requires Laid(live, |m|) && Headed(live, m) && Granted(live, |m|, raw, total)
    requires raw <= a && a + |bytes| <= raw + total
    ensures Headed(live, Write(m, a, bytes)) && SamePayloads(live, m, Write(m, a, bytes))
  {
    assert forall p :: p in live ==> Inside(p, live[p], |m|);
    StoreKeepsHeads(live, m, a, bytes);
    StoreKeepsPayloads(live, m, a, bytes);
  }

  lemma WriteHead(m: seq<Byte>, p: Word, h: Header)
    requires HEADER_SIZE <= p <= |m|
    ensures var r := Write(m, p - HEADER_SIZE, EncodeHeader(h)); |r| == |m| && DecodeHeader(Head(r, p)) == h
  {
    HeaderRoundTrip(h);
  }

  /** Taking a granted block into the set of live blocks. */
  lemma Admit(live: Blocks, m: seq<Byte>, p: Word, b: Live)
    requires Laid(live, |m|) && Headed(live, m) && Granted(live, |m|, b.raw, b.total) && Inside(p, b, |m|)
    ensures var r := Write(m, p - HEADER_SIZE, EncodeHeader(HeaderOf(b)));
            && p !in live && Laid(live[p := b], |r|) && Headed(live[p := b], r) && SamePayloads(live, m, r)
  {
    hide Laid, Headed, SamePayloads, EncodeHeader;
    AddLaid(live, |m|, p, b);
    StoreInGrant(live, m, b.raw, b.total, p - HEADER_SIZE, EncodeHeader(HeaderOf(b)));
    WriteHead(m, p, HeaderOf(b));
    AddHeaded(live, Write(m, p - HEADER_SIZE, EncodeHeader(HeaderOf(b))), p, b);
  }

  lemma AddHeaded(live: Blocks, m: seq<Byte>, p: Word, b: Live)
    requires Headed(live, m) && HEADER_SIZE <= p <= |m| && DecodeHeader(Head(m, p)) == HeaderOf(b)
    ensures Headed(live[p := b], m)
  {
  }

  lemma Drop(live: Blocks, m: seq<Byte>, p: Word)
    requires Laid(live, |m|) && Headed(live, m)
    ensures Laid(live - {p}, |m|) && Headed(live - {p}, m)
  {
  }

  lemma SamePayloadsTransitive(live: Blocks, a: seq<Byte>, b: seq<Byte>, c: seq<Byte>)
    requires SamePayloads(live, a, b) && SamePayloads(live, b, c)
    ensures SamePayloads(live, a, c)
  {
  }

  lemma SamePayloadsSubset(live: Blocks, a: seq<Byte>, b: seq<Byte>, p: Word)
    requires SamePayloads(live, a, b)
    ensures SamePayloads(live - {p}, a, b)
  {
  }

  /** Rewriting the header of a live block. */
  lemma Rewrite(live: Blocks, m: seq<Byte>, p: Word, b: Live)
    requires Laid(live, |m|) && Headed(live, m) && p in live
    requires b == live[p].(requested := b.requested) && 1 <= b.requested <= live[p].requested
    ensures HEADER_SIZE <= p <= |m|
    ensures var r := Write(m, p - HEADER_SIZE, EncodeHeader(HeaderOf(b)));
            Laid(live[p := b], |r|) && Headed(live[p := b], r) && SamePayloads(live, m, r)
  {
    hide Headed, SamePayloads, EncodeHeader, DecodeHeader, Write;
    RewriteLaid(live, |m|, p, b);
    RewriteHeaded(live, m, p, b);
    HeadApartFromPayloads(live, |m|, p);
    StoreKeepsPayloads(live, m, p - HEADER_SIZE, EncodeHeader(HeaderOf(b)));
  }

  lemma RewriteHeaded(live: Blocks, m: seq<Byte>, p: Word, b: Live)
    requires Laid(live, |m|) && Headed(live, m) && p in live
    ensures HEADER_SIZE <= p <= |m|
    ensures Headed(live[p := b], Write(m, p - HEADER_SIZE, EncodeHeader(HeaderOf(b))))
  {
    hide SamePayloads, EncodeHeader, DecodeHeader, Write, Laid, Headed;
    LiveIsInside(live, |m|, p);
    var bytes := EncodeHeader(HeaderOf(b));
    OthersApart(live, |m|, p);
    Drop(live, m, p);
    StoreKeepsHeads(live - {p}, m, p - HEADER_SIZE, bytes);
    WriteHead(m, p, HeaderOf(b));
    AddHeaded(live - {p}, Write(m, p - HEADER_SIZE, bytes), p, b);
    assert (live - {p})[p := b] == live[p := b];
  }

  /** No header overlaps any payload, not even its own. */
  lemma HeadApartFromPayloads(live: Blocks, heap: nat, p: Word)
    requires Laid(live, heap) && p in live
    ensures forall q :: q in live ==> Apart(p - HEADER_SIZE, HEADER_SIZE, q, live[q].requested)
  {
    forall q | q in live ensures Apart(p - HEADER_SIZE, HEADER_SIZE, q, live[q].requested) {
      if q != p {
        LiveRangesAreDisjoint(live, heap, p, q);
      }
    }
  }

  lemma OthersApart(live: Blocks, heap: nat, p: Word)
    requires Laid(live, heap) && p in live
    ensures forall q :: q in live - {p} ==> Apart(p - HEADER_SIZE, HEADER_SIZE, q - HEADER_SIZE, HEADER_SIZE)
  {
    forall q | q in live - {p} ensures Apart(p - HEADER_SIZE, HEADER_SIZE, q - HEADER_SIZE, HEADER_SIZE) {
      LiveRangesAreDisjoint(live, heap, p, q);
    }
  }

  lemma RewriteLaid(live: Blocks, heap: nat, p: Word, b: Live)
    requires Laid(live, heap) && p in live
    requires b == live[p].(requested := b.requested) && 1 <= b.requested <= live[p].requested
    ensures Laid(live[p := b], heap)
  {
    assert Inside(p, live[p], heap);
  }

  /** Copying `bytes` into a granted block and then taking it in as the live block `r`. */
  lemma CopyAndAdmit(live: Blocks, m: seq<Byte>, r: Word, b: Live, bytes: seq<Byte>)
    requires Laid(live, |m|) && Headed(live, m) && Granted(live, |m|, b.raw, b.total) && Inside(r, b, |m|)
    requires |bytes| <= b.requested
    ensures var m1 := Write(m, r, bytes);
            var m2 := Write(m1, r - HEADER_SIZE, EncodeHeader(HeaderOf(b)));
            && r !in live && Laid(live[r := b], |m2|) && Headed(live[r := b], m2) && SamePayloads(live, m, m2)
            && Payload(m2, r, |bytes|) == bytes
  {
    hide Laid, Headed, SamePayloads, EncodeHeader;
    StoreInGrant(live, m, b.raw, b.total, r, bytes);
    var m1 := Write(m, r, bytes);
    Admit(live, m1, r, b);
    SamePayloadsTransitive(live, m, m1, Write(m1, r - HEADER_SIZE, EncodeHeader(HeaderOf(b))));
    WriteElsewhere(m1, r - HEADER_SIZE, EncodeHeader(HeaderOf(b)), r, |bytes|);
  }

  lemma MallocFits(live: Blocks, n: Word, raw: Word, heap: nat)
    requires 1 <= n < U64 - 64 && heap < U64
    ensures n + HEADER_SIZE <= RawSize(n) < U64
    ensures Granted(live, heap, raw, RawSize(n)) ==>
              && raw % 16 == 0 && raw + RawSize(n) <= heap
              && Inside(raw + HEADER_SIZE, Live(raw, RawSize(n), n, 0), heap)
  {
  }

  /** What `aligned_alloc` asks libc for. */
  function AlignedSize(alignment: Word, size: Word): nat {
    AtLeastOne(size) + alignment + HEADER_SIZE
  }

  lemma AlignedFits(n: Word, alignment: Word, raw: Word, heap: nat)
    requires 1 <= n && 1 <= alignment && raw + n + alignment + HEADER_SIZE <= heap < U64 && raw > 0 && raw % 16 == 0
    ensures var p := AlignUp(raw + HEADER_SIZE, alignment);
            raw + 32 <= p < raw + 32 + alignment && p < U64 && p % alignment == 0
            && Inside(p, Live(raw, n + alignment + HEADER_SIZE, n, alignment % U32), heap)
  {
    hide AlignUp;
  }

  function Min(a: nat, b: nat): nat {
    if a < b then a else b
  }

  /** The first `n` bytes at `r` in `after` are those at `p` in `before`. */
  ghost predicate KeepsPrefix(before: seq<Byte>, p: Word, after: seq<Byte>, r: Word, n: nat) {
    p + n <= |before| && r + n <= |after| && before[p..p + n] == after[r..r + n]
  }

  lemma PayloadIsPrefix(before: seq<Byte>, p: Word, after: seq<Byte>, r: Word, n: Word)
    requires p + n <= |before| && r + n <= |after| && Payload(after, r, n) == before[p..p + n]
    ensures KeepsPrefix(before, p, after, r, n)
  {
  }

  lemma SamePayloadPrefix(live: Blocks, a: seq<Byte>, b: seq<Byte>, p: Word, n: Word)
    requires SamePayloads(live, a, b) && p in live && n <= live[p].requested
    ensures KeepsPrefix(a, p, b, p, n)
  {
    var whole := live[p].requested;
    assert a[p..p + n] == Payload(a, p, whole)[..n];
    assert b[p..p + n] == Payload(b, p, whole)[..n];
  }

  /** A caller storing within its own payload disturbs no header and no other payload. */
  lemma CallerStores(live: Blocks, m: seq<Byte>, p: Word, offset: nat, bytes: seq<Byte>)
    requires Laid(live, |m|) && Headed(live, m) && p in live && offset + |bytes| <= live[p].requested
    ensures p + offset + |bytes| <= |m|
    ensures var r := Write(m, p + offset, bytes);
            Laid(live, |r|) && Headed(live, r) && SamePayloads(live - {p}, m, r)
  {
    hide Headed, SamePayloads;
    assert Inside(p, live[p], |m|);
    forall q | q in live
      ensures Apart(p + offset, |bytes|, q - HEADER_SIZE, HEADER_SIZE)
      ensures q != p ==> Apart(p + offset, |bytes|, q, live[q].requested)
    {
      if q != p {
        LiveRangesAreDisjoint(live, |m|, p, q);
      }
    }
    StoreKeepsHeads(live, m, p + offset, bytes);
    StoreKeepsPayloads(live - {p}, m, p + offset, bytes);
  }

  class Heap {
    const mem: array<Byte>
    var totalAllocated: nat
    var totalFreed: nat
    /** The raw pointers handed back to libc, in order. */
    var returned: seq<Word>

    ghost var live: Blocks
    /** Bytes given up by shrinking in place, and bytes ever requested through `aligned_alloc`. */
    ghost var shrunk: nat
    ghost var aligned: nat
    /** The raw pointers libc has handed out, as often as it did. */
    ghost var grants: multiset<Word>

    ghost predicate Valid()
      reads this, mem
    {
      && mem.Length < U64
      && Laid(live, mem.Length) && Headed(live, mem[..])
      && totalAllocated - totalFreed == TotalRequested(live) + shrunk - aligned
      && Settled(grants, returned, live)
    }

    constructor (mem: array<Byte>)
      requires mem.Length < U64
      ensures Valid() && this.mem == mem && live == map[] && returned == [] && grants == multiset{}
      ensures totalAllocated == totalFreed == shrunk == aligned == 0
    {
      this.mem := mem;
      totalAllocated, totalFreed, returned := 0, 0, [];
      live, shrunk, aligned, grants := map[], 0, 0, multiset{};
    }

    method StoreBytes(a: nat, bytes: seq<Byte>)
      requires a + |bytes| <= mem.Length
      modifies mem
      ensures mem[..] == Write(old(mem[..]), a, bytes)
    {
      forall i | 0 <= i < |bytes| {
        mem[a + i] := bytes[i];
      }
    }

    /** `add_header` on a pointer that is not NULL. */
    method AddHeader(raw: Word, size: Word, requested: Word) returns (user: Word)
      requires raw + HEADER_SIZE <= mem.Length < U64
      modifies mem
      ensures user == raw + HEADER_SIZE
      ensures mem[..] == Write(old(mem[..]), raw, EncodeHeader(Header(raw, size, requested, MAGIC, 0)))
    {
      StoreBytes(raw, EncodeHeader(Header(raw, size, requested, MAGIC, 0)));
      user := raw + HEADER_SIZE;
    }

    /** `get_header`: reads the bytes before the pointer and checks the magic number. */
    method GetHeader(p: Word) returns (found: bool, h: Header)
      requires Valid() && (p == NULL || p in live)
      ensures found <==> p != NULL
      ensures p != NULL ==> p in live && h == HeaderOf(live[p])
    {
      h := Header(0, 0, 0, 0, 0);
      if p == NULL {
        return false, h;
      }
      if p < HEADER_SIZE {
        return false, h;
      }
      h := DecodeHeader(mem[p - HEADER_SIZE..p]);
      assert mem[p - HEADER_SIZE..p] == Head(mem[..], p);
      found := h.magic == MAGIC;
    }

    /** `allocator_malloc`; `raw` is libc's answer, NULL when it has no memory left. */
    method Malloc(size: Word, raw: Word) returns (p: Word)
      requires Valid() && size < U64 - 64
      requires raw != NULL ==> Granted(live, mem.Length, raw, RawSize(AtLeastOne(size)))
      modifies this, mem
      ensures Valid() && shrunk == old(shrunk) && aligned == old(aligned) && returned == old(returned)
      ensures raw == NULL ==>
                && p == NULL && live == old(live) && mem[..] == old(mem[..])
                && totalAllocated == old(totalAllocated)
      ensures raw != NULL ==>
                && p == raw + HEADER_SIZE && p % 16 == 0 && p !in old(live)
                && live == old(live)[p := Live(raw, RawSize(AtLeastOne(size)), AtLeastOne(size), 0)]
                && totalAllocated == old(totalAllocated) + AtLeastOne(size)
      ensures totalFreed == old(totalFreed)
      ensures grants == old(grants) + if raw == NULL then multiset{} else multiset{raw}
      ensures SamePayloads(old(live), old(mem[..]), mem[..])
    {
      hide Laid, Headed, SamePayloads, EncodeHeader, RawSize, Settled;
      var n := AtLeastOne(size);
      MallocFits(live, n, raw, mem.Length);
      var total := RawSize(n);
      if raw == NULL {
        PayloadsInside(live, mem[..]);
        return NULL;
      }
      p := raw + HEADER_SIZE;
      ghost var b := Live(raw, total, n, 0);
      Admit(live, mem[..], p, b);
      RequestedUpdate(live, p, b);
      SettleGrant(grants, returned, live, mem.Length, p, b);
      var user := AddHeader(raw, total, n);
      totalAllocated := totalAllocated + n;
      live, grants := live[p := b], grants + multiset{raw};
    }

    lemma PayloadsInside(live: Blocks, m: seq<Byte>)
      requires Laid(live, |m|)
      ensures SamePayloads(live, m, m)
    {
      assert forall p :: p in live ==> Inside(p, live[p], |m|);
    }

    /** `allocator_free` of NULL or of a live pointer: libc gets back the pointer it gave out. */
    method Free(p: Word)
      requires Valid() && (p == NULL || p in live)
      modifies this
      ensures Valid() && shrunk == old(shrunk) && aligned == old(aligned) && totalAllocated == old(totalAllocated)
      ensures grants == old(grants)
      ensures p == NULL ==> live == old(live) && returned == old(returned) && totalFreed == old(totalFreed)
      ensures p != NULL ==>
                && live == old(live) - {p}
                && returned == old(returned) + [old(live)[p].raw]
                && totalFreed == old(totalFreed) + old(live)[p].requested
    {
      hide Laid, Headed, TotalRequested, Settled;
      if p == NULL {
        return;
      }
      var found, h := GetHeader(p);
      // Pointers the allocator did not issue go to libc as they are; a live pointer is never one.
      assert found;
      Drop(live, mem[..], p);
      RequestedRemove(live, p);
      SettleReturn(grants, returned, live, mem.Length, p);
      totalFreed := totalFreed + h.requestedSize;
      returned := returned + [h.rawPtr];
      live := live - {p};
    }

    /** `allocator_realloc` to a smaller or equal size rewrites `requested_size` and keeps the block. */
    method ShrinkInPlace(p: Word, size: Word)
      requires Valid() && p in live && 1 <= size <= live[p].requested
      modifies this`shrunk, this`live, mem
      ensures Valid() && live == old(live)[p := old(live)[p].(requested := size)]
      ensures shrunk == old(shrunk) + (old(live)[p].requested - size)
      ensures SamePayloads(old(live), old(mem[..]), mem[..])
    {
      hide Laid, Headed, SamePayloads, EncodeHeader, Settled;
      var _, h := GetHeader(p);
      ghost var b := live[p].(requested := size);
      Rewrite(live, mem[..], p, b);
      RequestedUpdate(live, p, b);
      SettleRewrite(grants, returned, live, p, b);
      shrunk := shrunk + (live[p].requested - size);
      StoreBytes(p - HEADER_SIZE, EncodeHeader(h.(requestedSize := size)));
      live := live[p := b];
    }

    /** `allocator_realloc` to a larger size: a new block, the old payload copied, the old block freed. */
    method Grow(p: Word, size: Word, raw: Word) returns (r: Word)
      requires Valid() && p in live && live[p].requested < size < U64 - 64
      requires Granted(live, mem.Length, raw, RawSize(size))
      modifies this`totalAllocated, this`totalFreed, this`returned, this`live, this`grants, mem
      ensures Valid() && r == raw + HEADER_SIZE && r % 16 == 0 && r !in old(live)
      ensures live == old(live)[r := Live(raw, RawSize(size), size, 0)] - {p}
      ensures KeepsPrefix(old(mem[..]), p, mem[..], r, old(live)[p].requested)
      ensures SamePayloads(old(live) - {p}, old(mem[..]), mem[..])
      ensures grants == old(grants) + multiset{raw}
      ensures returned == old(returned) + [old(live)[p].raw]
      ensures totalAllocated == old(totalAllocated) + size && totalFreed == old(totalFreed) + old(live)[p].requested
    {
      hide Laid, Headed, SamePayloads, EncodeHeader, RawSize, TotalRequested, Granted, DecodeHeader, KeepsPrefix, Write,
           Settled;
      LiveNotNull(live, mem.Length);
      var _, h := GetHeader(p);
      MallocFits(live, size, raw, mem.Length);
      r := raw + HEADER_SIZE;
      ghost var b := Live(raw, RawSize(size), size, 0);
      SettleGrant(grants, returned, live, mem.Length, r, b);
      MoveTo(p, size, raw, h.requestedSize);
      RequestedUpdate(live, r, b);
      RequestedRemove(live[r := b], p);
      SettleReturn(grants + multiset{raw}, returned, live[r := b], mem.Length, p);
      Drop(live[r := b], mem[..], p);
      SamePayloadsSubset(live, old(mem[..]), mem[..], p);
      totalFreed := totalFreed + h.requestedSize;
      totalAllocated := totalAllocated + size;
      returned := returned + [h.rawPtr];
      live, grants := live[r := b] - {p}, grants + multiset{raw};
    }

    /** Copies the payload of a live block into a granted one and writes that one's header. */
    method MoveTo(p: Word, size: Word, raw: Word, oldSize: Word)
      requires Valid() && p in live && oldSize == live[p].requested < size < U64 - 64
      requires Granted(live, mem.Length, raw, RawSize(size))
      modifies mem
      ensures raw + HEADER_SIZE < U64 && RawSize(size) < U64
      ensures var b := Live(raw, RawSize(size), size, 0); var r: Word := raw + HEADER_SIZE;
              && r !in live && Laid(live[r := b], mem.Length) && Headed(live[r := b], mem[..])
              && SamePayloads(live, old(mem[..]), mem[..])
              && KeepsPrefix(old(mem[..]), p, mem[..], r, oldSize)
    {
      hide Laid, Headed, SamePayloads, EncodeHeader, RawSize, TotalRequested, Granted, DecodeHeader,
           KeepsPrefix, Payload, Write, Settled;
      var total := RawSize(size);
      MallocFits(live, size, raw, mem.Length);
      var r: Word := raw + HEADER_SIZE;
      ghost var b := Live(raw, total, size, 0);
      LiveIsInside(live, mem.Length, p);
      ghost var m := mem[..];
      CopyAndAdmit(live, m, r, b, m[p..p + oldSize]);
      StoreBytes(r, mem[p..p + oldSize]);
      var user := AddHeader(raw, total, size);
      assert mem[..] == Write(Write(m, r, m[p..p + oldSize]), r - HEADER_SIZE, EncodeHeader(HeaderOf(b)));
      PayloadIsPrefix(m, p, mem[..], r, oldSize);
    }

    /**
     `allocator_realloc`. The result is NULL with the old block untouched when libc refuses; otherwise the first
     min(old, new) bytes and every other payload are kept.
     */
    method Realloc(p: Word, size: Word, raw: Word) returns (r: Word)
      requires Valid() && (p == NULL || p in live) && size < U64 - 64
      requires raw != NULL && (p == NULL || live[p].requested < size) ==>
                 Granted(live, mem.Length, raw, RawSize(AtLeastOne(size)))
      modifies this, mem
      ensures Valid() && aligned == old(aligned)
      ensures p != NULL && size == 0 ==>
                && r == NULL && live == old(live) - {p} && mem[..] == old(mem[..])
                && totalFreed == old(totalFreed) + old(live)[p].requested && totalAllocated == old(totalAllocated)
      ensures p == NULL || size != 0 ==> (r == NULL <==> raw == NULL && (p == NULL || old(live)[p].requested < size))
      ensures (p == NULL || size != 0) && r == NULL ==>
                && live == old(live) && mem[..] == old(mem[..]) && returned == old(returned)
                && totalAllocated == old(totalAllocated) && totalFreed == old(totalFreed) && shrunk == old(shrunk)
      ensures r != NULL ==> r in live && live[r].requested == AtLeastOne(size) && (r != p ==> r % 16 == 0)
      ensures r != NULL ==> live - {r} == old(live) - {p}
      ensures r != NULL && r != p ==>
                r == raw + 32 && live[r] == Live(raw, RawSize(AtLeastOne(size)), AtLeastOne(size), 0)
      ensures r != NULL && r == p ==> live[r] == old(live)[p].(requested := size)
      ensures r != NULL && r != p ==>
                && r !in old(live) && shrunk == old(shrunk) && totalAllocated == old(totalAllocated) + AtLeastOne(size)
                && totalFreed == old(totalFreed) + (if p == NULL then 0 else old(live)[p].requested)
      ensures r != NULL && r == p ==>
                && totalAllocated == old(totalAllocated) && totalFreed == old(totalFreed)
                && shrunk == old(shrunk) + (old(live)[p].requested - size)
      ensures p != NULL && r != NULL ==> (r != p <==> old(live)[p].requested < size)
      ensures p != NULL && r != NULL ==> KeepsPrefix(old(mem[..]), p, mem[..], r, Min(old(live)[p].requested, size))
      ensures SamePayloads(old(live) - {p}, old(mem[..]), mem[..])
      ensures returned == old(returned) + (if p != NULL && p !in live then [old(live)[p].raw] else [])
      ensures grants == old(grants) + if r == NULL || r == p then multiset{} else multiset{raw}
    {
      hide Laid, Headed, SamePayloads, EncodeHeader, RawSize, TotalRequested, Granted, Settled;
      LiveNotNull(live, mem.Length);
      PayloadsInside(live, mem[..]);
      SamePayloadsSubset(live, mem[..], mem[..], p);
      if p == NULL {
        r := Malloc(size, raw);
        SamePayloadsSubset(old(live), old(mem[..]), mem[..], p);
        return;
      }
      if size == 0 {
        Free(p);
        return NULL;
      }
      LiveIsInside(live, mem.Length, p);
      var found, h := GetHeader(p);
      assert found;
      if size <= h.requestedSize {
        ShrinkInPlace(p, size);
        SamePayloadsSubset(old(live), old(mem[..]), mem[..], p);
        SamePayloadPrefix(old(live), old(mem[..]), mem[..], p, size);
        return p;
      }
      if raw == NULL {
        return NULL;
      }
      r := Grow(p, size, raw);
    }

    /** `allocator_aligned_alloc`: the header moves up so that the user pointer meets the alignment. */
    method AlignedAlloc(alignment: Word, size: Word, raw: Word) returns (p: Word)
      requires Valid() && AlignedSize(alignment, size) < U64
      requires IsPowerOfTwo(alignment) && raw != NULL ==> Granted(live, mem.Length, raw, AlignedSize(alignment, size))
      modifies this, mem
      ensures Valid() && returned == old(returned) && shrunk == old(shrunk)
      ensures totalAllocated == old(totalAllocated) && totalFreed == old(totalFreed)
      ensures p == NULL <==> raw == NULL || !IsPow2(alignment)
      ensures p == NULL ==> live == old(live) && mem[..] == old(mem[..]) && aligned == old(aligned)
      ensures p != NULL ==>
                && p % alignment == 0 && p !in old(live) && aligned == old(aligned) + AtLeastOne(size)
                && raw + 32 <= p < raw + 32 + alignment
                && live == old(live)[p := Live(raw, AtLeastOne(size) + alignment + 32, AtLeastOne(size),
                                               alignment % U32)]
      ensures grants == old(grants) + if p == NULL then multiset{} else multiset{raw}
      ensures SamePayloads(old(live), old(mem[..]), mem[..])
    {
      hide Laid, Headed, SamePayloads, EncodeHeader, AlignUp, IsPow2, TotalRequested, Settled;
      PowerOfTwoIff(alignment);
      PayloadsInside(live, mem[..]);
      if !IsPowerOfTwo(alignment) || alignment == 0 {
        return NULL;
      }
      if raw == NULL {
        return NULL;
      }
      var n := AtLeastOne(size);
      var total := n + alignment + HEADER_SIZE;
      AlignedFits(n, alignment, raw, mem.Length);
      p := AlignUp(raw + HEADER_SIZE, alignment);
      ghost var b := Live(raw, total, n, alignment % U32);
      Admit(live, mem[..], p, b);
      RequestedUpdate(live, p, b);
      SettleGrant(grants, returned, live, mem.Length, p, b);
      StoreBytes(p - HEADER_SIZE, EncodeHeader(Header(raw, total, n, MAGIC, alignment % U32)));
      aligned := aligned + n;
      live, grants := live[p := b], grants + multiset{raw};
    }

    /** `allocator_malloc_usable_size` of NULL or of a live pointer is exactly what was asked for. */
    method UsableSize(p: Word) returns (n: Word)
      requires Valid() && (p == NULL || p in live)
      ensures n == if p == NULL then 0 else live[p].requested
    {
      LiveNotNull(live, mem.Length);
      if p == NULL {
        return 0;
      }
      var found, h := GetHeader(p);
      // Without a header the answer is 0; a live pointer always has one.
      assert found;
      n := h.requestedSize;
    }

    lemma LiveNotNull(live: Blocks, heap: nat)
      requires Laid(live, heap)
      ensures NULL !in live
    {
      assert NULL in live ==> Inside(NULL, live[NULL], heap);
    }

  }
}
