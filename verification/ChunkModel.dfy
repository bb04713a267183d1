/**
 Small allocations from a chunk, src/memory/chunk.c, on values: each size class has a list of runs with a clear block
 and a list of runs that have been full.
 */
module ChunkModel {
  import opened Words
  import opened Seqs

  const RUN_SIZE: int := 4096
  const NULL: Word := 0

  /** `struct chunk_run`: the size of its blocks and which of them are allocated. */
  datatype Run = Run(size: Word, used: seq<bool>)

  /** What libc answers to the two requests a new run makes. */
  datatype Grant = Grant(run: bool, bitmap: bool)

  /** `struct chunk`; `sizes` is the size-class table. */
  datatype Chunk = Chunk(base: nat, offset: nat, sizes: seq<Word>, free: seq<seq<Run>>, full: seq<seq<Run>>,
                         runs: nat, allocatedBytes: nat, freedBytes: nat)

  function Blank(base: nat, offset: nat, sizes: seq<Word>): Chunk {
    Chunk(base, offset, sizes, seq(|sizes|, _ => []), seq(|sizes|, _ => []), 0, offset, 0)
  }

  function Ones(used: seq<bool>): (n: nat)
    ensures n <= |used|
  {
    if used == [] then 0 else Ones(used[..|used| - 1]) + (if Last(used) then 1 else 0)
  }

  /** The lowest clear block, or the number of blocks. */
  function FirstClear(used: seq<bool>): (b: nat)
    ensures b <= |used| && (b < |used| ==> !used[b])
    ensures forall i :: 0 <= i < b ==> used[i]
  {
    if used == [] || !used[0] then 0 else 1 + FirstClear(used[1..])
  }

  function NewRun(size: Word): Run
    requires size > 0
  {
    Run(size, seq(RUN_SIZE / size, _ => false))
  }

  /** Where a block of the first run of a list is. */
  function Address(s: Chunk, size: Word, block: nat): nat {
    s.base + s.offset + block * size
  }

  predicate Shaped(s: Chunk) {
    |s.free| == |s.full| == |s.sizes|
  }

  /** The block the first run of the class has to give, if any. */
  function TakeBlock(s: Chunk, c: nat): (r: (Chunk, nat))
    requires Shaped(s) && c < |s.sizes| && s.free[c] != []
  {
    var run := s.free[c][0];
    var b := FirstClear(run.used);
    if b >= |run.used| then (s, NULL)
    else
      var taken := run.(used := run.used[b := true]);
      var t := s.(allocatedBytes := s.allocatedBytes + run.size);
      var p := Address(s, run.size, b);
      if Ones(taken.used) == |taken.used| then
        (t.(free := s.free[c := s.free[c][1..]], full := s.full[c := s.full[c] + [taken]]), p)
      else (t.(free := s.free[c := s.free[c][0 := taken]]), p)
  }

  /** `chunk_alloc_small` */
  function AllocSmall(s: Chunk, c: nat, g: Grant): (r: (Chunk, nat))
    requires Shaped(s) && c < |s.sizes|
  {
    if s.free[c] != [] then TakeBlock(s, c)
    else if !g.run || s.sizes[c] == 0 || !g.bitmap then (s, NULL)
    else TakeBlock(OpenRun(s, c), c)
  }

  function OpenRun(s: Chunk, c: nat): Chunk
    requires Shaped(s) && c < |s.sizes| && s.sizes[c] != 0
  {
    s.(free := s.free[c := s.free[c] + [NewRun(s.sizes[c])]], runs := s.runs + 1)
  }

  /** The runs of a class in the order the free path counts them. */
  function Listed(s: Chunk, c: nat): seq<Run>
    requires Shaped(s) && c < |s.sizes|
  {
    s.free[c] + s.full[c]
  }

  function WithoutAt<T>(l: seq<T>, i: nat): seq<T>
    requires i < |l|
  {
    l[..i] + l[i + 1..]
  }

  /** Clears a block of the run at a position; a run left empty goes away, any other stays on its list. */
  function ReleaseBlock(s: Chunk, c: nat, idx: nat, b: nat): Chunk
    requires Shaped(s) && c < |s.sizes| && idx < |Listed(s, c)|
    requires b < |Listed(s, c)[idx].used|
  {
    var run := Listed(s, c)[idx];
    var left := run.(used := run.used[b := false]);
    var t := s.(freedBytes := s.freedBytes + run.size);
    var n := |s.free[c]|;
    if Ones(left.used) == 0 then
      var u := t.(runs := if s.runs > 0 then s.runs - 1 else 0);
      if idx < n then u.(free := s.free[c := WithoutAt(s.free[c], idx)])
      else u.(full := s.full[c := WithoutAt(s.full[c], idx - n)])
    else if idx < n then t.(free := s.free[c := s.free[c][idx := left]])
    else t.(full := s.full[c := s.full[c][idx - n := left]])
  }

  datatype Place = Nowhere | Block(idx: nat, block: nat)

  /** Which window of the chunk an offset lies in. */
  function RunIndex(offset: Word): nat {
    offset / RUN_SIZE
  }

  /** Which block of its window, for a block size. */
  function BlockIndex(offset: Word, size: Word): nat
    requires size > 0
  {
    (offset - offset / RUN_SIZE * RUN_SIZE) / size
  }

  /** The allocated block the free path takes a pointer for. */
  function Locate(s: Chunk, c: nat, p: Word): (r: Place)
    requires Shaped(s) && c < |s.sizes|
    ensures r.Block? ==>
              && r.idx < |Listed(s, c)| && r.block < |Listed(s, c)[r.idx].used|
              && Listed(s, c)[r.idx].used[r.block]
  {
    var offset := Sub64(p, s.base + s.offset);
    var idx := RunIndex(offset);
    if idx >= |Listed(s, c)| then Nowhere
    else
      var run := Listed(s, c)[idx];
      if run.size == 0 then Nowhere
      else
        var b := BlockIndex(offset, run.size);
        if b >= |run.used| || !run.used[b] then Nowhere else Block(idx, b)
  }

  /** `chunk_free_small` */
  function FreeSmall(s: Chunk, c: nat, p: Word): Chunk
    requires Shaped(s) && c < |s.sizes|
  {
    if p == NULL then s
    else
      match Locate(s, c, p)
      case Nowhere => s
      case Block(idx, b) => ReleaseBlock(s, c, idx, b)
  }

  // ---------- Counting ----------

  lemma {:induction false} OnesUpdate(used: seq<bool>, b: nat, v: bool)
    requires b < |used|
    ensures Ones(used[b := v]) == Ones(used) - (if used[b] then 1 else 0) + (if v then 1 else 0)
    decreases |used|
  {
    var n := |used| - 1;
    if b < n {
      OnesUpdate(used[..n], b, v);
      assert used[b := v][..n] == used[..n][b := v];
    } else {
      assert used[b := v][..n] == used[..n];
    }
  }

  lemma {:induction false} OnesExtremes(used: seq<bool>)
    ensures Ones(used) == 0 <==> forall i :: 0 <= i < |used| ==> !used[i]
    ensures Ones(used) == |used| <==> forall i :: 0 <= i < |used| ==> used[i]
    decreases |used|
  {
    if used != [] {
      OnesExtremes(used[..|used| - 1]);
    }
  }

  function One(r: Run): int {
    1
  }

  /** The bytes of a run's allocated blocks. */
  function RunBytes(r: Run): int {
    r.size * Ones(r.used)
  }

  function ListSum(f: Run -> int, l: seq<Run>): int {
    if l == [] then 0 else ListSum(f, l[..|l| - 1]) + f(Last(l))
  }

  function TableSum(f: Run -> int, t: seq<seq<Run>>): int {
    if t == [] then 0 else TableSum(f, t[..|t| - 1]) + ListSum(f, Last(t))
  }

  lemma {:induction false} ListUpdate(f: Run -> int, l: seq<Run>, i: nat, r: Run)
    requires i < |l|
    ensures ListSum(f, l[i := r]) == ListSum(f, l) - f(l[i]) + f(r)
    decreases |l|
  {
    var n := |l| - 1;
    if i < n {
      ListUpdate(f, l[..n], i, r);
      assert l[i := r][..n] == l[..n][i := r];
    } else {
      assert l[i := r][..n] == l[..n];
    }
  }

  lemma {:induction false} ListWithout(f: Run -> int, l: seq<Run>, i: nat)
    requires i < |l|
    ensures ListSum(f, WithoutAt(l, i)) == ListSum(f, l) - f(l[i])
    decreases |l|
  {
    var n := |l| - 1;
    if i < n {
      ListWithout(f, l[..n], i);
      assert WithoutAt(l, i) == WithoutAt(l[..n], i) + [l[n]];
      assert WithoutAt(l, i)[..n - 1] == WithoutAt(l[..n], i);
    } else {
      assert WithoutAt(l, i) == l[..n];
    }
  }

  lemma ListAppend(f: Run -> int, l: seq<Run>, r: Run)
    ensures ListSum(f, l + [r]) == ListSum(f, l) + f(r)
  {
    assert (l + [r])[..|l|] == l;
  }

  lemma {:induction false} TableUpdate(f: Run -> int, t: seq<seq<Run>>, c: nat, l: seq<Run>)
    requires c < |t|
    ensures TableSum(f, t[c := l]) == TableSum(f, t) - ListSum(f, t[c]) + ListSum(f, l)
    decreases |t|
  {
    var n := |t| - 1;
    if c < n {
      TableUpdate(f, t[..n], c, l);
      assert t[c := l][..n] == t[..n][c := l];
    } else {
      assert t[c := l][..n] == t[..n];
    }
  }

  lemma {:induction false} EmptyTable(f: Run -> int, t: seq<seq<Run>>)
    requires forall c :: 0 <= c < |t| ==> t[c] == []
    ensures TableSum(f, t) == 0
    decreases |t|
  {
    if t != [] {
      EmptyTable(f, t[..|t| - 1]);
    }
  }

  // ---------- The invariant ----------

  /** A run of the class with at least one block allocated, unless its blocks are larger than a run. */
  predicate GoodRun(r: Run, size: Word) {
    && r.size == size > 0 && |r.used| == RUN_SIZE / size
    && (Ones(r.used) >= 1 || r.used == [])
  }

  /** At most one run of a class is open, and it has a clear block unless it has no blocks at all. */
  predicate GoodClass(free: seq<Run>, full: seq<Run>, size: Word) {
    && |free| <= 1
    && (forall i :: 0 <= i < |free| ==>
          GoodRun(free[i], size) && (Ones(free[i].used) < |free[i].used| || free[i].used == []))
    && (forall i :: 0 <= i < |full| ==> GoodRun(full[i], size) && full[i].used != [])
  }

  ghost predicate Sound(s: Chunk) {
    && Shaped(s)
    && (forall c :: 0 <= c < |s.sizes| ==> GoodClass(s.free[c], s.full[c], s.sizes[c]))
    && s.runs == TableSum(One, s.free) + TableSum(One, s.full)
    && s.allocatedBytes - s.freedBytes == s.offset + TableSum(RunBytes, s.free) + TableSum(RunBytes, s.full)
  }

  lemma BlankIsSound(base: nat, offset: nat, sizes: seq<Word>)
    ensures Sound(Blank(base, offset, sizes))
  {
    var s := Blank(base, offset, sizes);
    EmptyTable(One, s.free);
    EmptyTable(One, s.full);
    EmptyTable(RunBytes, s.free);
    EmptyTable(RunBytes, s.full);
  }

  lemma MarkBytes(r: Run, b: nat)
    requires b < |r.used|
    ensures !r.used[b] ==> RunBytes(r.(used := r.used[b := true])) == RunBytes(r) + r.size as int
    ensures r.used[b] ==> RunBytes(r.(used := r.used[b := false])) == RunBytes(r) - r.size as int
  {
    OnesUpdate(r.used, b, true);
    OnesUpdate(r.used, b, false);
    Distribute(r.size, Ones(r.used), 1);
    Distribute(r.size, Ones(r.used), -1);
  }

  /** Replacing the lists of one class in a sound chunk. */
  lemma ClassReplaced(s: Chunk, c: nat, free: seq<Run>, full: seq<Run>, t: Chunk)
    requires Sound(s) && c < |s.sizes|
    requires t == s.(free := s.free[c := free], full := s.full[c := full], runs := t.runs,
                    allocatedBytes := t.allocatedBytes, freedBytes := t.freedBytes)
    requires GoodClass(free, full, s.sizes[c])
    requires t.runs - s.runs ==
             ListSum(One, free) + ListSum(One, full) - ListSum(One, s.free[c]) - ListSum(One, s.full[c])
    requires t.allocatedBytes - t.freedBytes - s.allocatedBytes + s.freedBytes ==
             ListSum(RunBytes, free) + ListSum(RunBytes, full)
             - ListSum(RunBytes, s.free[c]) - ListSum(RunBytes, s.full[c])
    ensures Sound(t)
  {
    hide GoodClass, One, RunBytes, ListSum, TableSum;
    TableUpdate(One, s.free, c, free);
    TableUpdate(One, s.full, c, full);
    TableUpdate(RunBytes, s.free, c, free);
    TableUpdate(RunBytes, s.full, c, full);
  }

  lemma TakeKeepsGoodClass(free: seq<Run>, full: seq<Run>, size: Word, b: nat)
    requires |free| == 1 && free[0].size == size > 0 && |free[0].used| == RUN_SIZE / size
    requires forall i :: 0 <= i < |full| ==> GoodRun(full[i], size) && full[i].used != []
    requires b < |free[0].used| && !free[0].used[b]
    ensures var taken := free[0].(used := free[0].used[b := true]);
            if Ones(taken.used) == |taken.used| then GoodClass([], full + [taken], size)
            else GoodClass([taken], full, size)
  {
    OnesUpdate(free[0].used, b, true);
  }

  lemma Singleton(f: Run -> int, r: Run)
    ensures ListSum(f, [r]) == f(r) && ListSum(f, []) == 0
  {
    assert [r][..0] == [];
    assert ListSum(f, []) == 0;
  }

  lemma BlankRun(size: Word)
    requires size > 0
    ensures RunBytes(NewRun(size)) == 0 && Ones(NewRun(size).used) == 0
  {
    OnesExtremes(NewRun(size).used);
  }

  /** The chunk with `r` as the open run of the class, just opened or there before. */
  function WithOpen(s: Chunk, c: nat, r: Run): Chunk
    requires Shaped(s) && c < |s.sizes|
  {
    s.(free := s.free[c := [r]], runs := s.runs + (if s.free[c] == [] then 1 else 0))
  }

  lemma TakeKeepsSound(s: Chunk, c: nat, r: Run)
    requires Sound(s) && c < |s.sizes| && s.sizes[c] > 0
    requires s.free[c] == [r] || (s.free[c] == [] && r == NewRun(s.sizes[c]))
    ensures Sound(TakeBlock(WithOpen(s, c, r), c).0)
  {
    hide RunBytes, ListSum, TableSum, Ones, FirstClear, GoodClass;
    var size, full, t := s.sizes[c], s.full[c], WithOpen(s, c, r);
    OpenClass(s.free[c], full, size, r);
    Singleton(One, r);
    Singleton(RunBytes, r);
    BlankRun(size);
    var b := FirstClear(r.used);
    var u := TakeBlock(t, c).0;
    if b < |r.used| {
      var taken := r.(used := r.used[b := true]);
      TakeKeepsGoodClass([r], full, size, b);
      MarkBytes(r, b);
      Singleton(One, taken);
      Singleton(RunBytes, taken);
      ListAppend(One, full, taken);
      ListAppend(RunBytes, full, taken);
      assert [r][1..] == [] && [r][0 := taken] == [taken];
    }
    ClassReplaced(s, c, u.free[c], u.full[c], u);
  }

  lemma OpenClass(free: seq<Run>, full: seq<Run>, size: Word, r: Run)
    requires GoodClass(free, full, size) && size > 0
    requires free == [r] || (free == [] && r == NewRun(size))
    ensures r.size == size && |r.used| == RUN_SIZE / size
    ensures forall i :: 0 <= i < |full| ==> GoodRun(full[i], size) && full[i].used != []
    ensures FirstClear(r.used) == |r.used| ==> r.used == [] && GoodClass([r], full, size)
  {
    if free == [r] {
      assert GoodRun(free[0], size);
    }
    OnesExtremes(r.used);
  }

  lemma AllocKeepsSound(s: Chunk, c: nat, g: Grant)
    requires Sound(s) && c < |s.sizes|
    ensures Sound(AllocSmall(s, c, g).0)
  {
    hide GoodRun, TakeBlock, TableSum;
    assert GoodClass(s.free[c], s.full[c], s.sizes[c]);
    if s.free[c] != [] {
      var r := s.free[c][0];
      assert s.free[c] == [r];
      assert s.free[c := [r]] == s.free;
      assert GoodRun(r, s.sizes[c]);
      SizeOfGood(r, s.sizes[c]);
      TakeKeepsSound(s, c, r);
    } else if g.run && s.sizes[c] != 0 && g.bitmap {
      assert s.free[c] + [NewRun(s.sizes[c])] == [NewRun(s.sizes[c])];
      TakeKeepsSound(s, c, NewRun(s.sizes[c]));
    }
  }

  lemma SizeOfGood(r: Run, size: Word)
    requires GoodRun(r, size)
    ensures r.size == size > 0
  {
  }

  lemma ReleaseKeepsSound(s: Chunk, c: nat, idx: nat, b: nat)
    requires Sound(s) && c < |s.sizes| && idx < |Listed(s, c)|
    requires b < |Listed(s, c)[idx].used| && Listed(s, c)[idx].used[b]
    ensures Sound(ReleaseBlock(s, c, idx, b))
    ensures s.runs > 0
  {
    hide RunBytes, ListSum, TableSum, Ones, GoodClass;
    var free, full, n := s.free[c], s.full[c], |s.free[c]|;
    var run := Listed(s, c)[idx];
    var left := run.(used := run.used[b := false]);
    ListsHoldRuns(s, c);
    MarkBytes(run, b);
    ReleasedClass(free, full, s.sizes[c], idx, b);
    var u := ReleaseBlock(s, c, idx, b);
    if idx < n {
      ListUpdate(One, free, idx, left);
      ListUpdate(RunBytes, free, idx, left);
      ListWithout(One, free, idx);
      ListWithout(RunBytes, free, idx);
    } else {
      ListUpdate(One, full, idx - n, left);
      ListUpdate(RunBytes, full, idx - n, left);
      ListWithout(One, full, idx - n);
      ListWithout(RunBytes, full, idx - n);
    }
    EmptyRun(left);
    assert s.free[c := free] == s.free && s.full[c := full] == s.full;
    ClassReplaced(s, c, u.free[c], u.full[c], u);
  }

  lemma EmptyRun(r: Run)
    ensures Ones(r.used) == 0 ==> RunBytes(r) == 0
  {
  }

  lemma {:induction false} ListCounts(l: seq<Run>)
    ensures ListSum(One, l) == |l|
    decreases |l|
  {
    if l != [] {
      ListCounts(l[..|l| - 1]);
    }
  }

  lemma {:induction false} TableCounts(t: seq<seq<Run>>, c: nat)
    requires c < |t|
    ensures TableSum(One, t) >= |t[c]|
    decreases |t|
  {
    var n := |t| - 1;
    ListCounts(t[n]);
    if c < n {
      TableCounts(t[..n], c);
    } else if n > 0 {
      TableCounts(t[..n], 0);
    }
  }

  lemma ListsHoldRuns(s: Chunk, c: nat)
    requires Sound(s) && c < |s.sizes|
    ensures s.runs >= |Listed(s, c)|
  {
    TableCounts(s.free, c);
    TableCounts(s.full, c);
  }

  lemma ReleasedClass(free: seq<Run>, full: seq<Run>, size: Word, idx: nat, b: nat)
    requires GoodClass(free, full, size) && idx < |free + full|
    requires b < |(free + full)[idx].used| && (free + full)[idx].used[b]
    ensures var run := (free + full)[idx];
            var left := run.(used := run.used[b := false]);
            var gone := Ones(left.used) == 0;
            if idx < |free| then GoodClass(if gone then WithoutAt(free, idx) else free[idx := left], full, size)
            else
              var i := idx - |free|;
              GoodClass(free, if gone then WithoutAt(full, i) else full[i := left], size)
  {
    OnesUpdate((free + full)[idx].used, b, false);
  }

  lemma FreeKeepsSound(s: Chunk, c: nat, p: Word)
    requires Sound(s) && c < |s.sizes|
    ensures Sound(FreeSmall(s, c, p))
  {
    hide TableSum, GoodClass, ReleaseBlock, Locate;
    var place := Locate(s, c, p);
    if p != NULL && place.Block? {
      ReleaseKeepsSound(s, c, place.idx, place.block);
    }
  }

  // ---------- Every run of calls ----------

  datatype Op = Alloc(c: nat, grant: Grant) | Free(c: nat, p: Word)

  function Step(s: Chunk, op: Op): Chunk
    requires Shaped(s) && op.c < |s.sizes|
  {
    match op
    case Alloc(c, g) => AllocSmall(s, c, g).0
    case Free(c, p) => FreeSmall(s, c, p)
  }

  lemma StepKeepsSound(s: Chunk, op: Op)
    requires Sound(s) && op.c < |s.sizes|
    ensures Sound(Step(s, op)) && Step(s, op).sizes == s.sizes
    ensures Step(s, op).base == s.base && Step(s, op).offset == s.offset
  {
    hide TableSum, GoodClass, Locate;
    match op
    case Alloc(c, g) => AllocKeepsSound(s, c, g);
    case Free(c, p) => FreeKeepsSound(s, c, p);
  }

  /** Calls of classes the table does not have are skipped. */
  function RunOps(s: Chunk, ops: seq<Op>): Chunk {
    if ops == [] then s
    else
      var t := RunOps(s, ops[..|ops| - 1]);
      if Shaped(t) && Last(ops).c < |t.sizes| then Step(t, Last(ops)) else t
  }

  /** Any sequence of small allocations and frees, of any pointers, keeps the books. */
  lemma {:induction false} BooksStayBalanced(s: Chunk, ops: seq<Op>)
    requires Sound(s)
    ensures Sound(RunOps(s, ops))
    decreases |ops|
  {
    if ops != [] {
      var t := RunOps(s, ops[..|ops| - 1]);
      BooksStayBalanced(s, ops[..|ops| - 1]);
      if Last(ops).c < |t.sizes| {
        StepKeepsSound(t, Last(ops));
      }
    }
  }
}
