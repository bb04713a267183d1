/** How far the block count may exceed the capacity, and what the byte budget really bounds. */
module LirsLimits {
  import opened Words
  import opened Seqs
  import opened LirsModel
  import opened LirsInvariant
  import opened LirsRefinement
  import LirsOwnership
  import LirsEffects

  // ---------- Block count ----------

  /** A hit on a HIR block in S finds no LIR block at the bottom to demote in exchange. */
  ghost predicate FindsNoPartner(c: Cache, key: Word) {
    && key != NULL && key in c.index && c.index[key].kind == Resident && c.index[key].inS
    && c.s != [] && Last(c.s) != key
    && Last(c.s) in c.index && c.index[Last(c.s)].kind != Lir
  }

  /** `lir_count` grows by a hit exactly when no partner is found at the bottom of S. */
  lemma GetGrowsLirCountIff(c: Cache, key: Word)
    requires Inv(c)
    ensures var r := Get(c, key).0;
            var extra := if FindsNoPartner(c, key) then 1 else 0;
            && Surplus(r) == Surplus(c) + extra
            && r.stats.lirCount == c.stats.lirCount + extra
            && r.stats.hirCount == c.stats.hirCount - extra
  {
    hide Shape;
    if key != NULL && key in c.index {
      var c1 := Touch(c, key);
      match c.index[key].kind
      case Lir => PruneTrims(Raise(Hit(c1), key));
      case Ghost => PruneTrims(DropFromS(Miss(c1), key));
      case Resident =>
        TouchKeepsBooks(c, key);
        HitStats(Hit(c1), key);
    }
  }

  lemma HitStats(c: Cache, key: Word)
    requires Ready(c) && Books(c) && key != NULL && key in c.index && c.index[key].kind == Resident
    ensures var r := HitResident(c, key);
            var extra := if FindsNoPartner(c, key) then 1 else 0;
            && Surplus(r) == Surplus(c) + extra
            && r.stats.lirCount == c.stats.lirCount + extra
            && r.stats.hirCount == c.stats.hirCount - extra
  {
    if c.index[key].inS {
      HitInStack(c, key);
      TradeStats(c, key);
    }
  }

  lemma TradeStats(c: Cache, k: Word)
    requires Shape(c) && k in c.index && c.index[k].kind == Resident && c.index[k].inS && Books(c)
    ensures var r := TradePlaces(c, k);
            var traded := if c.s != [] && (Last(c.s) == k || c.index[Last(c.s)].kind == Lir) then 1 else 0;
            && c.s != []
            && r.stats.promotions == c.stats.promotions + 1
            && r.stats.demotions == c.stats.demotions + traded
            && r.stats.lirCount == c.stats.lirCount + 1 - traded
            && r.stats.hirCount == c.stats.hirCount - 1 + traded
  {
    TradeKeepsBooks(c, k);
    var c1 := TurnLir(c, k);
    assert c1.s == c.s && c1.s != [];
    assert c1.index[Last(c.s)].kind == (if Last(c.s) == k then Lir else c.index[Last(c.s)].kind);
  }

  lemma PutKeepsSurplus(c: Cache, key: Word, value: Word, size: Word, gotBlock: bool)
    requires Inv(c)
    ensures Surplus(Put(c, key, value, size, gotBlock).0) == Surplus(c)
  {
    if key != NULL && key !in c.index {
      if OverBudget(c, size) {
        PruneTrims(c);
      } else if gotBlock {
        PruneTrims(Admit(c, key, value, size));
        EvictKeepsSurplus(Prune(Admit(c, key, value, size)));
      }
    }
  }

  lemma {:induction false} EvictKeepsSurplus(c: Cache)
    requires Shape(c)
    ensures Surplus(EvictHir(c)) == Surplus(c)
    ensures EvictHir(c).capacity == c.capacity && EvictHir(c).hirCapacity == c.hirCapacity
    ensures EvictHir(c).maxSize == c.maxSize && EvictHir(c).stats.lirCount == c.stats.lirCount
    decreases |c.q|
  {
    if c.q != [] && c.qSize > c.hirCapacity {
      EvictKeepsSurplus(EvictHead(c));
    }
  }

  lemma DeleteKeepsSurplus(c: Cache, key: Word)
    requires Inv(c)
    ensures Surplus(Delete(c, key).0) == Surplus(c)
  {
    if key != NULL && key in c.index {
      PruneTrims(Unlink(c, key));
    }
  }

  /** How many hits of the run found no partner. */
  ghost function Unpaired(c: Cache, ops: seq<Op>): nat
    requires Inv(c)
    decreases |ops|
  {
    if ops == [] then 0
    else
      Unpaired(c, ops[..|ops| - 1]) +
      if Last(ops).GetOp? && FindsNoPartner(Run(c, ops[..|ops| - 1]), Last(ops).key) then 1 else 0
  }

  ghost predicate SameLimits(c: Cache, r: Cache) {
    r.capacity == c.capacity && r.hirCapacity == c.hirCapacity && r.maxSize == c.maxSize
  }

  lemma StepKeepsLimits(c: Cache, op: Op)
    requires Inv(c)
    ensures SameLimits(c, Step(c, op))
  {
    match op
    case GetOp(key) =>
      if key != NULL && key in c.index {
        GetKeepsLimits(c, key);
      }
    case PutOp(key, value, size, gotBlock) =>
      if key != NULL && key !in c.index {
        if OverBudget(c, size) {
          PruneTrims(c);
        } else if gotBlock {
          PruneTrims(Admit(c, key, value, size));
          EvictKeepsSurplus(Prune(Admit(c, key, value, size)));
        }
      }
    case DeleteOp(key) =>
      if key != NULL && key in c.index {
        PruneTrims(Unlink(c, key));
      }
    case ClearOp =>
  }

  lemma GetKeepsLimits(c: Cache, key: Word)
    requires Ready(c) && key != NULL && key in c.index
    ensures SameLimits(c, Get(c, key).0)
    ensures Get(c, key).0.stats.totalSize == c.stats.totalSize
  {
    var c1 := Touch(c, key);
    match c.index[key].kind
    case Lir => PruneTrims(Raise(Hit(c1), key));
    case Ghost => PruneTrims(DropFromS(Miss(c1), key));
    case Resident =>
      if c.index[key].inS {
        HitInStack(Hit(c1), key);
        TradeKeepsConfig(Hit(c1), key);
      }
  }

  lemma {:induction false} SurplusOverRuns(c: Cache, ops: seq<Op>)
    requires Inv(c)
    ensures Surplus(Run(c, ops)) == Surplus(c) + Unpaired(c, ops) && SameLimits(c, Run(c, ops))
    decreases |ops|
  {
    hide Shape;
    if ops != [] {
      var before := Run(c, ops[..|ops| - 1]);
      SurplusOverRuns(c, ops[..|ops| - 1]);
      StepKeepsLimits(before, Last(ops));
      match Last(ops)
      case GetOp(key) => GetGrowsLirCountIff(before, key);
      case PutOp(key, value, size, gotBlock) => PutKeepsSurplus(before, key, value, size, gotBlock);
      case DeleteOp(key) => DeleteKeepsSurplus(before, key);
      case ClearOp =>
    }
  }

  lemma LimitIsDifference(c: Cache)
    requires c.capacity >= c.hirCapacity
    ensures LirLimit(c) == c.capacity - c.hirCapacity
  {
    WrapSmall(c.capacity - c.hirCapacity);
  }

  /**
   Over every run the cache exceeds its limits by at most the number of hits without a partner. Below a capacity of
   two the limit on S wraps around.
   */
  lemma SizeWithinSlack(capacity: Word, maxSize: Word, callback: bool, ops: seq<Op>)
    ensures var start := Create(capacity, maxSize, callback);
            Inv(start) && (var c := Run(start, ops);
            && c.stats.demotions <= c.stats.promotions
            && c.stats.promotions - c.stats.demotions == Unpaired(start, ops)
            && c.stats.lirCount <= LirLimit(start) + Unpaired(start, ops)
            && |c.q| <= c.hirCapacity == start.hirCapacity
            && Size(c) <= LirLimit(start) + start.hirCapacity + Unpaired(start, ops)
            && (capacity >= MIN_HIR_BLOCKS ==>
                  LirLimit(start) == capacity - start.hirCapacity && Size(c) <= capacity + Unpaired(start, ops)))
  {
    CreateEstablishesInvariant(capacity, maxSize, callback);
    var start := Create(capacity, maxSize, callback);
    SurplusOverRuns(start, ops);
    QueueHoldsResidents(Run(start, ops));
    if capacity >= MIN_HIR_BLOCKS {
      LimitIsDifference(start);
    }
  }

  // ---------- When the capacity holds ----------

  /** A put that is accepted into a full cache without evicting: the caller can tell before the call. */
  predicate Overfills(c: Cache, op: Op) {
    op.PutOp? && Accepts(c, op.key, op.size, op.gotBlock) && Size(c) == c.capacity && Victim(c) == {}
  }

  /** An operation on a cache within its capacity leaves it there exactly when it does not overfill it. */
  lemma StepKeepsCapacityIff(c: Cache, op: Op)
    requires Inv(c) && Size(c) <= c.capacity
    ensures Size(Step(c, op)) <= Step(c, op).capacity <==> !Overfills(c, op)
  {
    hide Shape, ResidentMap, RecentExcept, Books, Get, Put, Delete, Victim;
    StepKeepsInvariant(c, op);
    StepKeepsLimits(c, op);
    SizeIsResidentCount(c);
    SizeIsResidentCount(Step(c, op));
    match op
    case GetOp(key) => GetReadsMap(c, key);
    case PutOp(key, value, size, gotBlock) =>
      PutUpdatesMap(c, key, value, size, gotBlock);
      if key != NULL && key in ResidentMap(c) {
        ReplaceKeepsSize(ResidentMap(c), key, value);
      } else if Accepts(c, key, size, gotBlock) {
        VictimIsResident(c, key);
        AddedLessVictim(ResidentMap(c), key, value, Victim(c));
      }
    case DeleteOp(key) =>
      DeleteRemovesFromMap(c, key);
      RemovalShrinks(ResidentMap(c), key);
    case ClearOp =>
      ClearEmpties(c);
  }

  lemma ReplaceKeepsSize(m: map<Word, Word>, k: Word, v: Word)
    requires k in m
    ensures |m[k := v]| == |m|
  {
    assert m[k := v].Keys == m.Keys;
    assert |m[k := v]| == |m[k := v].Keys| && |m| == |m.Keys|;
  }

  lemma RemovalShrinks(m: map<Word, Word>, k: Word)
    ensures |m - {k}| <= |m|
  {
    assert (m - {k}).Keys == m.Keys - {k};
    assert |m - {k}| == |(m - {k}).Keys| && |m| == |m.Keys|;
  }

  lemma AddedLessVictim(m: map<Word, Word>, k: Word, v: Word, victim: set<Word>)
    requires k !in m && |victim| <= 1 && victim <= m.Keys
    ensures |m[k := v] - victim| == |m| + 1 - |victim|
  {
    var r := m[k := v] - victim;
    assert r.Keys == (m.Keys - victim) + {k};
    assert |r| == |r.Keys| && |m| == |m.Keys|;
  }

  /** What is evicted was resident and is not the new key. */
  lemma VictimIsResident(c: Cache, key: Word)
    requires Inv(c) && key !in c.index
    ensures Victim(c) <= ResidentMap(c).Keys && |Victim(c)| <= 1 && key !in ResidentMap(c)
  {
    if c.q != [] {
      assert c.q[0] in c.q;
      assert Filed(c.index[c.q[0]]);
    }
  }

  lemma ClearEmpties(c: Cache)
    requires Ready(c)
    ensures ResidentMap(Clear(c)) == map[]
  {
  }

  lemma RunExtends(c: Cache, ops: seq<Op>, i: nat)
    requires Inv(c) && i < |ops|
    ensures Run(c, ops[..i + 1]) == Step(Run(c, ops[..i]), ops[i])
    ensures Run(c, ops[..i]).capacity == c.capacity
  {
    hide Inv, Step;
    assert ops[..i + 1][..i] == ops[..i];
    SurplusOverRuns(c, ops[..i]);
  }

  lemma {:induction false} NeverOverfilled(c: Cache, ops: seq<Op>, n: nat)
    requires Inv(c) && Size(c) <= c.capacity && n <= |ops|
    requires forall i :: 0 <= i < |ops| ==> !Overfills(Run(c, ops[..i]), ops[i])
    ensures Size(Run(c, ops[..n])) <= c.capacity
    decreases n
  {
    hide Inv, Step, Overfills;
    if n == 0 {
      assert ops[..0] == [];
    } else {
      NeverOverfilled(c, ops, n - 1);
      RunExtends(c, ops, n - 1);
      StepKeepsCapacityIff(Run(c, ops[..n - 1]), ops[n - 1]);
      SurplusOverRuns(c, ops[..n]);
    }
  }

  /** Over a run the block count never passes the capacity exactly when no operation overfills the cache. */
  lemma CapacityHoldsIff(c: Cache, ops: seq<Op>)
    requires Inv(c) && Size(c) <= c.capacity
    ensures (forall i :: 0 <= i <= |ops| ==> Size(Run(c, ops[..i])) <= c.capacity) <==>
            (forall i :: 0 <= i < |ops| ==> !Overfills(Run(c, ops[..i]), ops[i]))
  {
    hide Inv, Step, Overfills, Size;
    if forall i :: 0 <= i <= |ops| ==> Size(Run(c, ops[..i])) <= c.capacity {
      forall i | 0 <= i < |ops| ensures !Overfills(Run(c, ops[..i]), ops[i]) {
        RunExtends(c, ops, i);
        StepKeepsCapacityIff(Run(c, ops[..i]), ops[i]);
        SurplusOverRuns(c, ops[..i + 1]);
      }
    }
    if forall i :: 0 <= i < |ops| ==> !Overfills(Run(c, ops[..i]), ops[i]) {
      forall i | 0 <= i <= |ops| ensures Size(Run(c, ops[..i])) <= c.capacity {
        NeverOverfilled(c, ops, i);
      }
    }
  }

  // ---------- Bytes ----------

  ghost function ResidentSize(): (Word, Entry) -> int {
    (_: Word, e: Entry) => if e.kind == Ghost then 0 else e.size
  }

  ghost function ResidentBytes(c: Cache): int {
    LirsOwnership.Sum(c.index, ResidentSize())
  }

  /** How many bytes an operation takes off `total_size` for data that was no longer resident. */
  ghost function Drift(c: Cache, op: Op): int {
    match op
    case PutOp(key, value, size, _) =>
      if key != NULL && key in c.index && c.index[key].kind == Ghost && c.index[key].value != value
      then c.index[key].size - size else 0
    case DeleteOp(key) =>
      if key != NULL && key in c.index && c.index[key].kind == Ghost then c.index[key].size else 0
    case ClearOp => 0
    case GetOp(_) => 0
  }

  /** `total_size` is off by `d`, modulo the width of the counter. */
  ghost predicate OffBy(c: Cache, d: int) {
    c.stats.totalSize == Wrap(ResidentBytes(c) - d)
  }

  lemma RefileKeepsBytes(m: map<Word, Entry>, k: Word, e: Entry)
    requires k in m
    ensures LirsOwnership.Sum(m[k := e], ResidentSize()) ==
            LirsOwnership.Sum(m, ResidentSize()) - ResidentSize()(k, m[k]) + ResidentSize()(k, e)
    ensures LirsOwnership.Sum(m - {k}, ResidentSize()) == LirsOwnership.Sum(m, ResidentSize()) - ResidentSize()(k, m[k])
  {
    LirsOwnership.SumUpdate(m, k, e, ResidentSize());
    LirsOwnership.SumRemove(m, k, ResidentSize());
  }

  lemma PopKeepsBytes(c: Cache)
    requires Shape(c) && c.s != [] && c.index[Last(c.s)].kind != Lir
    ensures ResidentBytes(PopBottom(c)) == ResidentBytes(c)
  {
    var k := Last(c.s);
    var e := c.index[k].(inS := false);
    RefileKeepsBytes(c.index, k, e);
    RefileKeepsBytes(c.index[k := e], k, e);
  }

  lemma {:induction false} PruneKeepsBytes(c: Cache)
    requires Shape(c)
    ensures ResidentBytes(Prune(c)) == ResidentBytes(c) && Prune(c).stats == c.stats
    decreases |c.s|
  {
    if c.s != [] && c.index[Last(c.s)].kind != Lir {
      PopKeepsBytes(c);
      PruneKeepsBytes(PopBottom(c));
    }
  }

  lemma AccountChange(total: int, bytes: int, d: int, change: int)
    requires total == Wrap(bytes - d)
    ensures Wrap(total + change) == Wrap(bytes + change - d)
  {
    WrapAdd(bytes - d, change);
    assert bytes - d + change == bytes + change - d;
  }

  lemma EvictHeadKeepsDrift(c: Cache, d: int)
    requires Shape(c) && c.q != [] && OffBy(c, d)
    ensures OffBy(EvictHead(c), d)
  {
    WriteOff(c, EvictHead(c), c.q[0], d);
  }

  /** A resident block that turns ghost or goes takes its size along. */
  lemma WriteOff(c: Cache, r: Cache, k: Word, d: int)
    requires k in c.index && c.index[k].kind == Resident && OffBy(c, d)
    requires r.stats.totalSize == Sub64(c.stats.totalSize, c.index[k].size)
    requires var g := c.index[k].(inQ := false, kind := Ghost);
             r.index == c.index[k := g] || r.index == c.index[k := g] - {k}
    ensures OffBy(r, d)
  {
    var g := c.index[k].(inQ := false, kind := Ghost);
    var size: int := c.index[k].size;
    RefileKeepsBytes(c.index, k, g);
    RefileKeepsBytes(c.index[k := g], k, g);
    assert ResidentBytes(r) == ResidentBytes(c) - size;
    AccountChange(c.stats.totalSize, ResidentBytes(c), d, -size);
  }

  lemma {:induction false} EvictKeepsDrift(c: Cache, d: int)
    requires Shape(c) && OffBy(c, d)
    ensures OffBy(EvictHir(c), d)
    decreases |c.q|
  {
    if c.q != [] && c.qSize > c.hirCapacity {
      EvictHeadKeepsDrift(c, d);
      EvictKeepsDrift(EvictHead(c), d);
    }
  }

  lemma GetKeepsBytes(c: Cache, key: Word)
    requires Ready(c)
    ensures ResidentBytes(Get(c, key).0) == ResidentBytes(c)
    ensures Get(c, key).0.stats.totalSize == c.stats.totalSize
  {
    hide Shape;
    if key != NULL && key in c.index {
      GetKeepsLimits(c, key);
      var e := c.index[key];
      var c1 := Touch(c, key);
      RefileKeepsBytes(c.index, key, c1.index[key]);
      match e.kind
      case Lir =>
        RefileKeepsBytes(c1.index, key, c1.index[key].(inS := true));
        PruneKeepsBytes(Raise(Hit(c1), key));
      case Ghost =>
        RefileKeepsBytes(c1.index, key, c1.index[key]);
        PruneKeepsBytes(DropFromS(Miss(c1), key));
      case Resident =>
        HitKeepsBytes(Hit(c1), key);
    }
  }

  lemma HitKeepsBytes(c: Cache, key: Word)
    requires Ready(c) && key in c.index && c.index[key].kind == Resident
    ensures ResidentBytes(HitResident(c, key)) == ResidentBytes(c)
  {
    var c1 := c;
    if c.index[key].inS {
      HitInStack(c, key);
      TradeKeepsBytes(c, key);
      c1 := TradePlaces(c, key);
    }
    RefileKeepsBytes(c1.index, key, c1.index[key].(inS := true));
  }

  lemma TradeKeepsBytes(c: Cache, k: Word)
    requires Shape(c) && k in c.index && c.index[k].kind == Resident && c.index[k].inS
    ensures ResidentBytes(TradePlaces(c, k)) == ResidentBytes(c)
  {
    var c1 := TurnLir(c, k);
    RefileKeepsBytes(c.index, k, c1.index[k]);
    var bottom := Last(c1.s);
    if c1.index[bottom].kind == Lir {
      RefileKeepsBytes(c1.index, bottom, Demote(c1, bottom).index[bottom]);
      PopKeepsBytes(Demote(c1, bottom));
    }
    PruneKeepsBytes(Exchange(c1));
  }

  lemma OverwriteKeepsDrift(c: Cache, key: Word, value: Word, size: Word, d: int)
    requires Shape(c) && key in c.index && key != NULL && OffBy(c, d)
    ensures OffBy(Overwrite(c, key, value, size), d + Drift(c, PutOp(key, value, size, true)))
  {
    hide Shape;
    var e := c.index[key];
    var f := e.(value := value, size := size);
    RefileKeepsBytes(c.index, key, f);
    var total := c.stats.totalSize;
    WrapAdd(total - e.size, size);
    assert Add64(Sub64(total, e.size), size) == Wrap(total + (size - e.size));
    AccountChange(total, ResidentBytes(c), d, size - e.size);
  }

  lemma AdmitKeepsDrift(c: Cache, key: Word, value: Word, size: Word, d: int)
    requires Shape(c) && key !in c.index && OffBy(c, d)
    ensures OffBy(Admit(c, key, value, size), d)
  {
    var e := Admit(c, key, value, size).index[key];
    LirsOwnership.SumUpdate(c.index, key, e, ResidentSize());
    AccountChange(c.stats.totalSize, ResidentBytes(c), d, size);
  }

  lemma PutKeepsDrift(c: Cache, key: Word, value: Word, size: Word, gotBlock: bool, d: int)
    requires Ready(c) && OffBy(c, d)
    ensures OffBy(Put(c, key, value, size, gotBlock).0, d + Drift(c, PutOp(key, value, size, gotBlock)))
  {
    if key == NULL {
    } else if key in c.index {
      OverwriteKeepsDrift(c, key, value, size, d);
    } else if OverBudget(c, size) {
      PruneKeepsDrift(c, d);
    } else if gotBlock {
      AdmitKeepsDrift(c, key, value, size, d);
      SettleKeepsDrift(Admit(c, key, value, size), d);
    }
  }

  lemma SettleKeepsDrift(c: Cache, d: int)
    requires Shape(c) && OffBy(c, d)
    ensures OffBy(EvictHir(Prune(c)), d)
  {
    PruneKeepsDrift(c, d);
    EvictKeepsDrift(Prune(c), d);
  }

  lemma UnlinkKeepsDrift(c: Cache, key: Word, d: int)
    requires Shape(c) && key in c.index && key != NULL && OffBy(c, d)
    ensures OffBy(Unlink(c, key), d + Drift(c, DeleteOp(key)))
  {
    var size: int := c.index[key].size;
    RefileKeepsBytes(c.index, key, c.index[key]);
    AccountChange(c.stats.totalSize, ResidentBytes(c), d, -size);
  }

  lemma PruneKeepsDrift(c: Cache, d: int)
    requires Shape(c) && OffBy(c, d)
    ensures OffBy(Prune(c), d)
  {
    hide Shape;
    PruneKeepsBytes(c);
  }

  lemma DeleteKeepsDrift(c: Cache, key: Word, d: int)
    requires Ready(c) && OffBy(c, d)
    ensures OffBy(Delete(c, key).0, d + Drift(c, DeleteOp(key)))
  {
    hide Shape, OffBy, Unlink, Prune;
    if key != NULL && key in c.index {
      UnlinkKeepsDrift(c, key, d);
      PruneKeepsDrift(Unlink(c, key), d + Drift(c, DeleteOp(key)));
    }
  }

  /** The drift of `total_size` after an operation; `lirs_clear` starts afresh. */
  ghost function DriftAfter(c: Cache, op: Op, d: int): int {
    if op.ClearOp? then 0 else d + Drift(c, op)
  }

  lemma ClearStartsAfresh(c: Cache)
    requires Shape(c)
    ensures OffBy(Clear(c), 0)
  {
    assert Clear(c).index == map[];
  }

  lemma GetKeepsDrift(c: Cache, key: Word, d: int)
    requires Ready(c) && OffBy(c, d)
    ensures OffBy(Get(c, key).0, d)
  {
    GetKeepsBytes(c, key);
  }

  lemma StepKeepsDrift(c: Cache, op: Op, d: int)
    requires Ready(c) && OffBy(c, d)
    ensures OffBy(Step(c, op), DriftAfter(c, op, d))
  {
    hide Shape;
    match op
    case GetOp(key) => GetKeepsDrift(c, key, d);
    case PutOp(key, value, size, gotBlock) => PutKeepsDrift(c, key, value, size, gotBlock, d);
    case DeleteOp(key) => DeleteKeepsDrift(c, key, d);
    case ClearOp => ClearStartsAfresh(c);
  }

  ghost function RunDrift(c: Cache, ops: seq<Op>): int
    requires Inv(c)
    decreases |ops|
  {
    if ops == [] then 0
    else DriftAfter(Run(c, ops[..|ops| - 1]), Last(ops), RunDrift(c, ops[..|ops| - 1]))
  }

  /** Over every run `total_size` is the sum of the resident sizes less the accumulated drift. */
  lemma {:induction false} TotalSizeOverRuns(c: Cache, ops: seq<Op>)
    requires Inv(c) && OffBy(c, 0)
    ensures OffBy(Run(c, ops), RunDrift(c, ops))
    decreases |ops|
  {
    if ops != [] {
      TotalSizeOverRuns(c, ops[..|ops| - 1]);
      StepKeepsDrift(Run(c, ops[..|ops| - 1]), Last(ops), RunDrift(c, ops[..|ops| - 1]));
    }
  }

  /** From an exact total, one operation keeps it exact just when it writes no size off twice. */
  lemma ExactIff(c: Cache, op: Op)
    requires Inv(c) && OffBy(c, 0)
    ensures OffBy(Step(c, op), 0) <==> Wrap(Drift(c, op)) == 0
  {
    StepKeepsDrift(c, op, 0);
    ExactOnlyWithoutDrift(Step(c, op), DriftAfter(c, op, 0));
  }

  lemma ExactOnlyWithoutDrift(c: Cache, d: int)
    requires OffBy(c, d)
    ensures OffBy(c, 0) <==> Wrap(d) == 0
  {
    WrapAdd(d, ResidentBytes(c) - d);
    WrapAdd(ResidentBytes(c) - d, Wrap(d));
  }

  // ---------- The limits asked for, and what a put answers ----------

  /** A cache keeps the capacity and budget it was created with; one block in a hundred is HIR, and at least two. */
  lemma LimitsOverRuns(capacity: Word, maxSize: Word, callback: bool, ops: seq<Op>)
    ensures var start := Create(capacity, maxSize, callback);
            Inv(start) && (var c := Run(start, ops);
            && c.capacity == capacity && c.maxSize == maxSize
            && (capacity < 300 ==> c.hirCapacity == 2)
            && (capacity >= 300 ==> 100 * c.hirCapacity <= capacity < 100 * (c.hirCapacity + 1)))
  {
    CreateEstablishesInvariant(capacity, maxSize, callback);
    SurplusOverRuns(Create(capacity, maxSize, callback), ops);
  }

  ghost predicate Answers(code: int, c: Cache, key: Word, bytes: int, maxSize: Word, gotBlock: bool) {
    && (code == -1 <==> key == NULL)
    && (code == -2 <==> key != NULL && key !in c.index && bytes > maxSize)
    && (code == -3 <==> key != NULL && key !in c.index && bytes <= maxSize && !gotBlock)
    && (code == 0 <==> key != NULL && (key in c.index || (bytes <= maxSize && gotBlock)))
  }

  lemma AnswersWithDrift(c: Cache, d: int, key: Word, value: Word, size: Word, gotBlock: bool)
    requires Ready(c) && OffBy(c, d)
    ensures Answers(Put(c, key, value, size, gotBlock).1, c, key,
                    (ResidentBytes(c) - d + size) % 0x1_0000_0000_0000_0000, c.maxSize, gotBlock)
  {
    hide Shape, Put, ResidentBytes;
    LirsEffects.PutCodes(c, key, value, size, gotBlock);
    WrapAdd(ResidentBytes(c) - d, size);
  }

  /** What a put at the end of any run answers, from the bytes of the resident blocks and their drift. */
  lemma PutAnswers(capacity: Word, maxSize: Word, callback: bool, ops: seq<Op>,
                   key: Word, value: Word, size: Word, gotBlock: bool)
    ensures var start := Create(capacity, maxSize, callback);
            Inv(start) && (var c := Run(start, ops);
            Answers(Put(c, key, value, size, gotBlock).1, c, key,
                    (ResidentBytes(c) - RunDrift(start, ops) + size) % 0x1_0000_0000_0000_0000, maxSize, gotBlock))
  {
    var start := Create(capacity, maxSize, callback);
    CreateEstablishesInvariant(capacity, maxSize, callback);
    hide Shape, Books, RecentExcept, Put, ResidentBytes, Create, Answers, OffBy, Run, RunDrift;
    LimitsOverRuns(capacity, maxSize, callback, ops);
    StartsExact(capacity, maxSize, callback);
    TotalSizeOverRuns(start, ops);
    AnswersWithDrift(Run(start, ops), RunDrift(start, ops), key, value, size, gotBlock);
  }

  lemma StartsExact(capacity: Word, maxSize: Word, callback: bool)
    ensures OffBy(Create(capacity, maxSize, callback), 0)
  {
    assert Create(capacity, maxSize, callback).index == map[];
  }
}
