/** What one small allocation and one free do to a chunk, in closed form, for every class, grant and pointer. */
module ChunkEffects {
  import opened Words
  import opened Seqs
  import opened ChunkModel
  import opened ChunkAddresses

  /** Nothing about the other classes, nor where the chunk is, has changed. */
  ghost predicate OthersKept(s: Chunk, t: Chunk, c: nat)
    requires Shaped(s) && c < |s.sizes|
  {
    && Shaped(t) && t.sizes == s.sizes && t.base == s.base && t.offset == s.offset
    && forall d :: 0 <= d < |s.sizes| && d != c ==> t.free[d] == s.free[d] && t.full[d] == s.full[d]
  }

  predicate AllUsed(used: seq<bool>) {
    forall i :: 0 <= i < |used| ==> used[i]
  }

  predicate NoneUsed(used: seq<bool>) {
    forall i :: 0 <= i < |used| ==> !used[i]
  }

  /** The lowest clear block of the open run is taken. */
  lemma TakeIs(s: Chunk, c: nat, r: Run)
    requires Shaped(s) && c < |s.sizes| && s.free[c] == [r] && FirstClear(r.used) < |r.used|
    ensures var t := TakeBlock(s, c).0; var used := r.used[FirstClear(r.used) := true];
            && OthersKept(s, t, c) && t.runs == s.runs
            && t.allocatedBytes == s.allocatedBytes + r.size && t.freedBytes == s.freedBytes
            && if AllUsed(used) then t.free[c] == [] && t.full[c] == s.full[c] + [Run(r.size, used)]
               else t.free[c] == [Run(r.size, used)] && t.full[c] == s.full[c]
  {
    hide Ones, FirstClear;
    var used := r.used[FirstClear(r.used) := true];
    OnesExtremes(used);
    assert [r][1..] == [] && [r][0 := Run(r.size, used)] == [Run(r.size, used)];
  }

  lemma OpenIs(s: Chunk, c: nat)
    requires Shaped(s) && c < |s.sizes| && s.sizes[c] > 0 && s.free[c] == []
    ensures var t := OpenRun(s, c);
            && t.free[c] == [Run(s.sizes[c], seq(4096 / s.sizes[c], _ => false))]
            && t == s.(free := s.free[c := t.free[c]], runs := s.runs + 1)
  {
    assert [] + [NewRun(s.sizes[c])] == [NewRun(s.sizes[c])];
  }

  /**
   An allocation that succeeds takes one block, the lowest clear one, of the open run of its class or of a new one. A
   run it fills goes to the end of those that have been full.
   */
  lemma AllocEffect(s: Chunk, c: nat, g: Grant)
    requires Sound(s) && Placed(s) && c < |s.sizes| && AllocSmall(s, c, g).1 != NULL
    ensures 0 < s.sizes[c] <= 4096
    ensures var t := AllocSmall(s, c, g).0;
            var before := if s.free[c] == [] then seq(4096 / s.sizes[c], _ => false) else s.free[c][0].used;
            && OthersKept(s, t, c)
            && t.allocatedBytes == s.allocatedBytes + s.sizes[c] && t.freedBytes == s.freedBytes
            && t.runs == s.runs + (if s.free[c] == [] then 1 else 0)
            && exists b :: 0 <= b < |before| && !before[b] && (forall i :: 0 <= i < b ==> before[i])
                 && (var run := Run(s.sizes[c], before[b := true]);
                 if AllUsed(run.used) then t.free[c] == [] && t.full[c] == s.full[c] + [run]
                 else t.free[c] == [run] && t.full[c] == s.full[c])
  {
    AllocReturnsLowestClear(s, c, g);
    SourceHasRoom(s, c);
    hide GoodClass, TableSum, Ones, FirstClear, Address, TakeBlock, OpenRun, AllUsed;
    var r := Source(s, c);
    var b := FirstClear(r.used);
    if s.free[c] == [] {
      OpenIs(s, c);
      TakeIs(OpenRun(s, c), c, r);
    } else {
      TakeIs(s, c, r);
    }
  }

  /**
   One that fails changes nothing, except for a class of more than 4096 bytes: the first failure leaves a run of no
   blocks behind.
   */
  lemma FailedAllocEffect(s: Chunk, c: nat, g: Grant)
    requires Sound(s) && Placed(s) && c < |s.sizes| && AllocSmall(s, c, g).1 == NULL
    ensures var t := AllocSmall(s, c, g).0;
            if s.free[c] == [] && s.sizes[c] > 4096 && g.run && g.bitmap then
              t == s.(free := s.free[c := [Run(s.sizes[c], [])]], runs := s.runs + 1)
            else t == s
  {
    AllocReturnsLowestClear(s, c, g);
    hide GoodClass, TableSum, Ones, OpenRun;
    if s.free[c] == [] && s.sizes[c] > 4096 {
      OpenIs(s, c);
      assert seq(4096 / s.sizes[c], _ => false) == [];
    }
  }

  /** The pointer is into allocated block `b` of window `i`, where the free path looks for the run listed at `i`. */
  ghost predicate PointsInto(s: Chunk, c: nat, p: Word, i: nat, b: nat)
    requires Shaped(s) && c < |s.sizes|
  {
    var off: int := (p - s.base - s.offset) % 0x1_0000_0000_0000_0000;
    && i < |Listed(s, c)| && HasBlock(Listed(s, c)[i], b)
    && 4096 * i <= off < 4096 * (i + 1)
    && b * s.sizes[c] <= off - 4096 * i < (b + 1) * s.sizes[c]
  }

  lemma IndexOfOffset(off: Word, size: Word, i: nat, b: nat)
    requires size > 0
    ensures (RunIndex(off) == i && BlockIndex(off, size) == b) <==>
            4096 * i <= off < 4096 * (i + 1) && b * size <= off - 4096 * i < (b + 1) * size
  {
    var rem: int := off - off / 4096 * 4096;
    assert off / 4096 * 4096 <= off < off / 4096 * 4096 + 4096;
    QuotientIff(off, 4096, i);
    QuotientIff(rem, size, b);
  }

  lemma QuotientIff(x: nat, d: nat, q: nat)
    requires d > 0
    ensures x / d == q <==> q * d <= x < (q + 1) * d
  {
    assert (q + 1) * d == q * d + d;
    if q * d <= x < (q + 1) * d {
      ModuloUnique(x, d, q, x - q * d);
    }
    assert x == x / d * d + x % d;
  }

  /** The free path finds an allocated block exactly when the pointer is into one. */
  lemma LocateIff(s: Chunk, c: nat, p: Word, i: nat, b: nat)
    requires Sound(s) && c < |s.sizes|
    ensures Locate(s, c, p) == Block(i, b) <==> PointsInto(s, c, p, i, b)
  {
    hide TableSum, Ones, GoodClass, RunIndex, BlockIndex;
    var off := Sub64(p, s.base + s.offset);
    assert off == (p - s.base - s.offset) % 0x1_0000_0000_0000_0000;
    if i < |Listed(s, c)| {
      SameLength(s, c, i);
      IndexOfOffset(off, s.sizes[c], i, b);
    }
  }

  /** A run without one of its blocks. */
  function Cleared(r: Run, b: nat): Run
    requires b < |r.used|
  {
    r.(used := r.used[b := false])
  }

  lemma ReleaseIs(s: Chunk, c: nat, i: nat, b: nat)
    requires Shaped(s) && c < |s.sizes| && i < |Listed(s, c)| && b < |Listed(s, c)[i].used|
    ensures var t := ReleaseBlock(s, c, i, b); var left := Cleared(Listed(s, c)[i], b);
            && OthersKept(s, t, c)
            && t.allocatedBytes == s.allocatedBytes && t.freedBytes == s.freedBytes + left.size
            && (if NoneUsed(left.used) then
                  && Listed(t, c) == Listed(s, c)[..i] + Listed(s, c)[i + 1..]
                  && |t.free[c]| == |s.free[c]| - (if i < |s.free[c]| then 1 else 0)
                  && t.runs == (if s.runs > 0 then s.runs - 1 else 0)
                else
                  && Listed(t, c) == Listed(s, c)[i := left]
                  && |t.free[c]| == |s.free[c]| && t.runs == s.runs)
  {
    hide Ones;
    OnesExtremes(Cleared(Listed(s, c)[i], b).used);
    Split(s.free[c], s.full[c], i, Cleared(Listed(s, c)[i], b));
  }

  lemma Split<T>(a: seq<T>, b: seq<T>, i: nat, x: T)
    requires i < |a + b|
    ensures i < |a| ==> WithoutAt(a, i) + b == (a + b)[..i] + (a + b)[i + 1..] && a[i := x] + b == (a + b)[i := x]
    ensures i >= |a| ==>
              && a + WithoutAt(b, i - |a|) == (a + b)[..i] + (a + b)[i + 1..]
              && a + b[i - |a| := x] == (a + b)[i := x]
  {
  }

  /** Block `b` of the run listed at `i` has been freed; a run left without blocks is gone, any other in its place. */
  ghost predicate Freed(s: Chunk, t: Chunk, c: nat, i: nat, b: nat)
    requires Shaped(s) && c < |s.sizes| && i < |Listed(s, c)| && b < |Listed(s, c)[i].used|
  {
    var left := Cleared(Listed(s, c)[i], b);
    && OthersKept(s, t, c)
    && t.allocatedBytes == s.allocatedBytes && t.freedBytes == s.freedBytes + s.sizes[c]
    && if NoneUsed(left.used) then
         && Listed(t, c) == Listed(s, c)[..i] + Listed(s, c)[i + 1..] && t.runs == s.runs - 1
         && |t.free[c]| == |s.free[c]| - (if i < |s.free[c]| then 1 else 0)
       else
         && Listed(t, c) == Listed(s, c)[i := left] && t.runs == s.runs
         && |t.free[c]| == |s.free[c]|
  }

  lemma {:induction false} RunsAtLeast(t: seq<seq<Run>>, c: nat)
    requires c < |t|
    ensures TableSum(One, t) >= ListSum(One, t[c])
    decreases |t|
  {
    var n := |t| - 1;
    OnesSum(t[n]);
    if c < n {
      RunsAtLeast(t[..n], c);
    } else {
      NeverNegative(t[..n]);
    }
  }

  lemma {:induction false} OnesSum(l: seq<Run>)
    ensures ListSum(One, l) == |l|
    decreases |l|
  {
    if l != [] {
      OnesSum(l[..|l| - 1]);
    }
  }

  lemma {:induction false} NeverNegative(t: seq<seq<Run>>)
    ensures TableSum(One, t) >= 0
    decreases |t|
  {
    if t != [] {
      NeverNegative(t[..|t| - 1]);
      OnesSum(Last(t));
    }
  }

  lemma ListedIsCounted(s: Chunk, c: nat)
    requires Sound(s) && c < |s.sizes|
    ensures s.runs >= |Listed(s, c)|
  {
    RunsAtLeast(s.free, c);
    RunsAtLeast(s.full, c);
    OnesSum(s.free[c]);
    OnesSum(s.full[c]);
  }

  lemma FreeAt(s: Chunk, c: nat, p: Word, i: nat, b: nat)
    requires Sound(s) && c < |s.sizes| && p != NULL && PointsInto(s, c, p, i, b)
    ensures Freed(s, FreeSmall(s, c, p), c, i, b)
  {
    LocateIff(s, c, p, i, b);
    SameLength(s, c, i);
    ListedIsCounted(s, c);
    hide Sound, Locate, PointsInto, ReleaseBlock, NoneUsed;
    ReleaseIs(s, c, i, b);
  }

  /**
   A free of a pointer into an allocated block clears that block of the run listed at the pointer's window; a free of
   any other pointer does nothing.
   */
  lemma FreeEffect(s: Chunk, c: nat, p: Word)
    requires Sound(s) && c < |s.sizes|
    ensures p == NULL || (forall i: nat, b: nat :: !PointsInto(s, c, p, i, b)) ==> FreeSmall(s, c, p) == s
    ensures forall i: nat, b: nat :: p != NULL && PointsInto(s, c, p, i, b) ==> Freed(s, FreeSmall(s, c, p), c, i, b)
  {
    var place := Locate(s, c, p);
    if place.Block? {
      LocateIff(s, c, p, place.idx, place.block);
    }
    hide Sound, PointsInto, Freed, Locate;
    forall i: nat, b: nat | p != NULL && PointsInto(s, c, p, i, b) ensures Freed(s, FreeSmall(s, c, p), c, i, b) {
      FreeAt(s, c, p, i, b);
    }
  }
}
