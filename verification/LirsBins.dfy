/**
 Caches configured and filled as src/cache/lirs/lirs_manager.c does: one size for all blocks, a byte
 budget of `capacity` such blocks, and each block's value as its key.
 */
module LirsBins {
  import opened Words
  import opened Seqs
  import opened LirsModel
  import opened LirsInvariant
  import opened LirsRefinement
  import opened LirsLimits
  import opened LirsOwnership

  ghost predicate Uniform(m: map<Word, Entry>, size: Word) {
    forall k :: k in m ==> m[k].value == k && m[k].size == size
  }

  /** Operations a bin sees. */
  predicate BinOp(op: Op, size: Word) {
    op.PutOp? ==> op.value == op.key && op.size == size
  }

  predicate BinRun(ops: seq<Op>, size: Word) {
    forall i :: 0 <= i < |ops| ==> BinOp(ops[i], size)
  }

  /** How many removals have hit a ghost since the last clear, each writing a size off a second time. */
  ghost function GhostRemovals(c: Cache, ops: seq<Op>): nat
    requires Inv(c)
    decreases |ops|
  {
    if ops == [] then 0
    else CountRemoval(Run(c, ops[..|ops| - 1]), Last(ops), GhostRemovals(c, ops[..|ops| - 1]))
  }

  function CountRemoval(c: Cache, op: Op, g: nat): nat {
    match op
    case DeleteOp(key) => if key != NULL && key in c.index && c.index[key].kind == Ghost then g + 1 else g
    case ClearOp => 0
    case _ => g
  }

  ghost predicate BinInv(c: Cache, size: Word, g: nat) {
    && Inv(c) && Uniform(c.index, size) && OffBy(c, size * g)
    && |ResidentMap(c)| <= c.capacity + g && c.maxSize == c.capacity * size
  }

  // ---------- Entries keep their value and size ----------

  ghost predicate FromOld(m: map<Word, Entry>, r: map<Word, Entry>) {
    forall k :: k in r ==> k in m && r[k].value == m[k].value && r[k].size == m[k].size
  }

  lemma {:induction false} EvictKeepsEntries(c: Cache)
    requires Shape(c)
    ensures FromOld(c.index, EvictHir(c).index)
    decreases |c.q|
  {
    if c.q != [] && c.qSize > c.hirCapacity {
      EvictHeadKeepsEntries(c);
      EvictKeepsEntries(EvictHead(c));
    }
  }

  lemma EvictHeadKeepsEntries(c: Cache)
    requires Shape(c) && c.q != []
    ensures FromOld(c.index, EvictHead(c).index)
  {
  }

  lemma GetKeepsEntries(c: Cache, key: Word)
    requires Ready(c)
    ensures FromOld(c.index, Get(c, key).0.index)
  {
    hide Shape;
    if key != NULL && key in c.index {
      var c1 := Touch(c, key);
      match c.index[key].kind
      case Lir => PruneTrims(Raise(Hit(c1), key));
      case Ghost => PruneTrims(DropFromS(Miss(c1), key));
      case Resident => HitKeepsEntries(Hit(c1), key);
    }
  }

  lemma HitKeepsEntries(c: Cache, key: Word)
    requires Ready(c) && key in c.index && c.index[key].kind == Resident
    ensures FromOld(c.index, HitResident(c, key).index)
  {
    hide Shape;
    if c.index[key].inS {
      HitInStack(c, key);
      TradeKeepsBlocks(c, key);
    } else {
      HitOutsideStack(c, key);
    }
  }

  lemma PutKeepsUniform(c: Cache, key: Word, size: Word, gotBlock: bool)
    requires Ready(c) && Uniform(c.index, size)
    ensures Uniform(Put(c, key, key, size, gotBlock).0.index, size)
  {
    hide Shape;
    if key != NULL && key !in c.index {
      if OverBudget(c, size) {
        PruneTrims(c);
      } else if gotBlock {
        PruneTrims(Admit(c, key, key, size));
        EvictKeepsEntries(Prune(Admit(c, key, key, size)));
      }
    }
  }

  // ---------- Counting bytes in blocks ----------

  lemma ResidentsRemove(m: map<Word, Entry>, k: Word)
    requires k in m
    ensures |Residents(m)| == |Residents(m - {k})| + (if m[k].kind == Ghost then 0 else 1)
  {
    var a, b := Residents(m).Keys, Residents(m - {k}).Keys;
    ResidentKeys(m);
    ResidentKeys(m - {k});
    hide Residents;
    assert |Residents(m)| == |a| && |Residents(m - {k})| == |b|;
    assert b == a - {k};
  }

  lemma ResidentKeys(m: map<Word, Entry>)
    ensures forall k :: k in Residents(m).Keys <==> k in m && m[k].kind != Ghost
  {
  }

  /** The number of resident blocks as a sum, which avoids multiplying inside the induction. */
  ghost function IsResident(): (Word, Entry) -> int {
    (_: Word, e: Entry) => if e.kind == Ghost then 0 else 1
  }

  lemma {:induction false} ResidentsAsSum(m: map<Word, Entry>)
    ensures Sum(m, IsResident()) == |Residents(m)|
    decreases |m|
  {
    if m == map[] {
      assert Residents(m) == map[];
    } else {
      var k :| k in m;
      SumRemove(m, k, IsResident());
      ResidentsAsSum(m - {k});
      ResidentsRemove(m, k);
    }
  }

  lemma {:induction false} UniformBytes(m: map<Word, Entry>, size: Word)
    requires Uniform(m, size)
    ensures Sum(m, ResidentSize()) == size * Sum(m, IsResident())
    decreases |m|
  {
    if m != map[] {
      var k :| k in m;
      SumRemove(m, k, ResidentSize());
      SumRemove(m, k, IsResident());
      UniformBytes(m - {k}, size);
      Distribute(size, IsResident()(k, m[k]), Sum(m - {k}, IsResident()));
    }
  }

  lemma PutAddsAtMostOne(c: Cache, key: Word, size: Word, gotBlock: bool)
    requires Ready(c) && c.hirCapacity >= 1
    ensures var n := |ResidentMap(Put(c, key, key, size, gotBlock).0)|;
            n <= |ResidentMap(c)| || (Accepts(c, key, size, gotBlock) && n == |ResidentMap(c)| + 1)
  {
    PutUpdatesMap(c, key, key, size, gotBlock);
    var m, r := ResidentMap(c), ResidentMap(Put(c, key, key, size, gotBlock).0);
    assert r.Keys <= m.Keys + {key};
    SubsetSize(r.Keys, m.Keys + {key});
    assert |m.Keys| == |m| && |r.Keys| == |r|;
    if key in m {
      assert m.Keys + {key} == m.Keys;
    } else if !Accepts(c, key, size, gotBlock) {
      assert r == m;
    }
  }

  lemma BinStep(c: Cache, op: Op, size: Word, g: nat)
    requires BinInv(c, size, g) && BinOp(op, size) && c.capacity * size + size < U64 && size > 0
    ensures BinInv(Step(c, op), size, CountRemoval(c, op, g))
  {
    hide Shape, OffBy, Uniform, RecentExcept, Books, Step;
    StepKeepsInvariant(c, op);
    StepKeepsLimits(c, op);
    StepKeepsDrift(c, op, size * g);
    DriftOfBin(c, op, size, g);
    StepKeepsUniform(c, op, size);
    StepKeepsRoom(c, op, size, g);
  }

  /** In a bin only the removal of a ghost makes the byte count drift, by one block. */
  lemma DriftOfBin(c: Cache, op: Op, size: Word, g: nat)
    requires Uniform(c.index, size) && BinOp(op, size)
    ensures DriftAfter(c, op, size * g) == size * CountRemoval(c, op, g)
  {
    Distribute(size, g, 1);
  }

  lemma StepKeepsUniform(c: Cache, op: Op, size: Word)
    requires Ready(c) && Uniform(c.index, size) && BinOp(op, size)
    ensures Uniform(Step(c, op).index, size)
  {
    hide Shape;
    match op
    case GetOp(key) => GetKeepsEntries(c, key);
    case PutOp(key, _, _, gotBlock) => PutKeepsUniform(c, key, size, gotBlock);
    case DeleteOp(key) => DeleteKeepsUniform(c, key, size);
    case ClearOp =>
  }

  lemma StepKeepsRoom(c: Cache, op: Op, size: Word, g: nat)
    requires BinInv(c, size, g) && BinOp(op, size) && c.capacity * size + size < U64 && size > 0
    ensures |ResidentMap(Step(c, op))| <= c.capacity + CountRemoval(c, op, g)
  {
    hide Shape, ResidentMap, RecentExcept, Books, Get, Put, Delete;
    match op
    case GetOp(key) => GetReadsMap(c, key);
    case PutOp(key, _, _, gotBlock) =>
      PutAddsAtMostOne(c, key, size, gotBlock);
      if Accepts(c, key, size, gotBlock) {
        ResidentBytesUniform(c, size);
        BudgetLeavesRoom(c, key, size, gotBlock, |ResidentMap(c)|, g);
      }
    case DeleteOp(key) =>
      DeleteRemovesFromMap(c, key);
      RemovalShrinks(ResidentMap(c), key);
    case ClearOp =>
      ClearEmpties(c);
  }

  lemma ResidentBytesUniform(c: Cache, size: Word)
    requires Uniform(c.index, size)
    ensures ResidentBytes(c) == size * |ResidentMap(c)|
  {
    UniformBytes(c.index, size);
    ResidentsAsSum(c.index);
  }

  /**
   A put within the byte budget adds a block only while fewer than `capacity` blocks are accounted for. When more
   removals than blocks have been written off the counter has wrapped, and the bound is met anyway.
   */
  lemma BudgetLeavesRoom(c: Cache, key: Word, size: Word, gotBlock: bool, n: nat, g: nat)
    requires OffBy(c, size * g) && ResidentBytes(c) == size * n && size > 0
    requires n <= c.capacity + g && c.maxSize == c.capacity * size && c.capacity * size + size < U64
    requires Accepts(c, key, size, gotBlock)
    ensures n + 1 <= c.capacity + g
  {
    if n >= g {
      Distribute(size, n - g, g);
      Accounted(size, n - g, c.capacity, c.stats.totalSize, c.maxSize);
    }
  }

  lemma Accounted(size: Word, k: nat, capacity: Word, total: Word, max: Word)
    requires size > 0 && k <= capacity && max == capacity * size && max + size < U64
    requires total == Wrap(size * k) && Add64(total, size) <= max
    ensures k < capacity
  {
    MulMonotone(size, k, capacity);
    WrapSmall(size * k);
    WrapSmall(size * k + size);
  }

  lemma MulMonotone(size: nat, a: nat, b: nat)
    requires a <= b
    ensures size * a <= size * b
  {
    assert size * b == size * a + size * (b - a);
  }

  lemma DeleteKeepsUniform(c: Cache, key: Word, size: Word)
    requires Ready(c) && Uniform(c.index, size)
    ensures Uniform(Delete(c, key).0.index, size)
  {
    if key != NULL && key in c.index {
      PruneTrims(Unlink(c, key));
    }
  }

  lemma {:induction false} BinOverRuns(c: Cache, ops: seq<Op>, size: Word)
    requires BinInv(c, size, 0) && BinRun(ops, size) && c.capacity * size + size < U64 && size > 0
    ensures BinInv(Run(c, ops), size, GhostRemovals(c, ops)) && SameLimits(c, Run(c, ops))
    decreases |ops|
  {
    hide Inv, Step, CountRemoval, Uniform, OffBy, ResidentMap;
    if ops != [] {
      var front := ops[..|ops| - 1];
      BinOverRuns(c, front, size);
      assert ops[|ops| - 1] == Last(ops);
      BinStep(Run(c, front), Last(ops), size, GhostRemovals(c, front));
      StepKeepsLimits(Run(c, front), Last(ops));
    }
  }

  lemma StartIsBin(capacity: Word, size: Word, callback: bool)
    requires capacity * size < U64
    ensures BinInv(Create(capacity, capacity * size, callback), size, 0)
  {
    hide Shape, RecentExcept, Books;
    var start := Create(capacity, capacity * size, callback);
    CreateEstablishesInvariant(capacity, capacity * size, callback);
    assert |ResidentMap(start)| == 0;
    assert ResidentBytes(start) == 0;
  }

  /**
   A bin never holds more blocks than its capacity and the removals of ghosts since the last clear, and `total_size` is
   what its blocks take up less those removals. Without such removals both are exact.
   */
  lemma BinsRespectCapacity(capacity: Word, size: Word, callback: bool, ops: seq<Op>)
    requires size > 0 && capacity * size + size < U64 && BinRun(ops, size)
    ensures var start := Create(capacity, capacity * size, callback);
            Inv(start) && (var c := Run(start, ops);
            var g := GhostRemovals(start, ops);
            && Size(c) <= capacity + g
            && c.stats.totalSize == Wrap(size * Size(c) - size * g)
            && (g == 0 ==> Size(c) <= capacity && c.stats.totalSize == size * Size(c)))
  {
    hide Inv, BinInv, BinOp, CountRemoval, Size;
    CreateEstablishesInvariant(capacity, capacity * size, callback);
    var start := Create(capacity, capacity * size, callback);
    StartIsBin(capacity, size, callback);
    BinOverRuns(start, ops, size);
    BinSize(Run(start, ops), size, GhostRemovals(start, ops));
  }

  lemma BinSize(c: Cache, size: Word, g: nat)
    requires BinInv(c, size, g) && size > 0 && c.capacity * size + size < U64
    ensures Size(c) <= c.capacity + g && c.stats.totalSize == Wrap(size * Size(c) - size * g)
    ensures g == 0 ==> c.stats.totalSize == size * Size(c)
  {
    hide Shape, RecentExcept, Books;
    SizeIsResidentCount(c);
    ResidentBytesUniform(c, size);
    if g == 0 {
      MulMonotone(size, Size(c), c.capacity);
      WrapSmall(size * Size(c));
    }
  }
}
