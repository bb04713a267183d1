/** What every operation of the cache keeps, over all runs from `lirs_create`. */
module LirsInvariant {
  import opened Words
  import opened Seqs
  import opened LirsModel

  // ---------- The invariant ----------

  ghost function OfKind(m: map<Word, Entry>, kind: Kind): set<Word> {
    set k | k in m && m[k].kind == kind
  }

  ghost function Count(m: map<Word, Entry>, kind: Kind): nat {
    |OfKind(m, kind)|
  }

  /** `lir_count` and `hir_resident_count` are exact; `hir_non_resident_count` never forgets a ghost. */
  ghost predicate Counted(c: Cache) {
    && c.stats.lirCount == Count(c.index, Lir)
    && c.stats.hirCount == Count(c.index, Resident)
    && c.stats.ghostCount >= Count(c.index, Ghost)
  }

  /** How far promotions have run ahead of demotions. */
  function Surplus(c: Cache): int {
    c.stats.promotions - c.stats.demotions
  }

  ghost predicate Balanced(c: Cache) {
    0 <= Surplus(c) && c.stats.lirCount <= LirLimit(c) + Surplus(c)
  }

  function Time(c: Cache, k: Word): nat {
    if k in c.index then c.index[k].time else 0
  }

  /** S is strictly sorted by access time and every block outside S is older; blocks of `ex` are exempt. */
  ghost predicate RecentExcept(c: Cache, ex: set<Word>) {
    && (forall i, j :: 0 <= i < j < |c.s| && c.s[i] !in ex && c.s[j] !in ex ==> Time(c, c.s[i]) > Time(c, c.s[j]))
    && (forall k, i :: k in c.index && !c.index[k].inS && k !in ex && 0 <= i < |c.s| && c.s[i] !in ex
          ==> c.index[k].time < Time(c, c.s[i]))
    && (forall k :: k in c.index ==> c.index[k].time <= c.clock)
    && (ex != {} ==> forall k :: k in c.index && k !in ex ==> c.index[k].time < c.clock)
  }

  ghost predicate Recent(c: Cache) {
    RecentExcept(c, {})
  }

  ghost predicate Books(c: Cache) {
    Counted(c) && Balanced(c)
  }

  ghost predicate Inv(c: Cache) {
    Ready(c) && Books(c) && Recent(c) && c.hirCapacity >= 1
  }

  // ---------- Counting ----------

  lemma CountUpdate(m: map<Word, Entry>, k: Word, e: Entry, kind: Kind)
    ensures Count(m[k := e], kind) ==
            Count(m, kind) - (if k in m && m[k].kind == kind then 1 else 0) + (if e.kind == kind then 1 else 0)
  {
    var old' := OfKind(m, kind) - {k};
    assert OfKind(m, kind) == if k in m && m[k].kind == kind then old' + {k} else old';
    assert OfKind(m[k := e], kind) == if e.kind == kind then old' + {k} else old';
  }

  lemma CountRemove(m: map<Word, Entry>, k: Word, kind: Kind)
    requires k in m
    ensures Count(m - {k}, kind) == Count(m, kind) - (if m[k].kind == kind then 1 else 0)
  {
    assert OfKind(m - {k}, kind) == OfKind(m, kind) - {k};
  }

  lemma UpdateAll(m: map<Word, Entry>, k: Word, e: Entry)
    ensures forall kind :: Count(m[k := e], kind) ==
              Count(m, kind) - (if k in m && m[k].kind == kind then 1 else 0) + (if e.kind == kind then 1 else 0)
  {
    forall kind { CountUpdate(m, k, e, kind); }
  }

  lemma RemoveAll(m: map<Word, Entry>, k: Word)
    requires k in m
    ensures forall kind :: Count(m - {k}, kind) == Count(m, kind) - (if m[k].kind == kind then 1 else 0)
  {
    forall kind { CountRemove(m, k, kind); }
  }

  /** Q lists exactly the resident HIR blocks, so its size is their number. */
  lemma QueueHoldsResidents(c: Cache)
    requires Shape(c)
    ensures Elements(c.q) == OfKind(c.index, Resident) && |c.q| == Count(c.index, Resident)
  {
    DistinctCount(c.q);
    assert Elements(c.q) == OfKind(c.index, Resident);
  }

  lemma LirsFitInStack(c: Cache)
    requires Shape(c)
    ensures Count(c.index, Lir) + Count(c.index, Ghost) <= |c.s|
  {
    DistinctCount(c.s);
    var both := OfKind(c.index, Lir) + OfKind(c.index, Ghost);
    assert OfKind(c.index, Lir) !! OfKind(c.index, Ghost);
    assert both <= Elements(c.s);
    SubsetSize(both, Elements(c.s));
  }

  // ---------- Bookkeeping through the internal steps ----------

  lemma TrimKeepsBooks(c: Cache, r: Cache)
    requires Books(c) && Trimmed(c, r)
    ensures Books(r)
  {
    assert OfKind(r.index, Lir) == OfKind(c.index, Lir);
    assert OfKind(r.index, Resident) == OfKind(c.index, Resident);
    SubsetSize(OfKind(r.index, Ghost), OfKind(c.index, Ghost));
  }

  lemma EvictHeadKeepsBooks(c: Cache)
    requires Shape(c) && Books(c) && c.q != []
    ensures Books(EvictHead(c))
  {
    var k := c.q[0];
    var g := c.index[k].(inQ := false, kind := Ghost);
    UpdateAll(c.index, k, g);
    RemoveAll(c.index[k := g], k);
  }

  lemma {:induction false} EvictKeepsBooks(c: Cache)
    requires Shape(c) && Books(c)
    ensures Books(EvictHir(c)) && |EvictHir(c).q| <= c.hirCapacity
    ensures EvictHir(c).hirCapacity == c.hirCapacity
    decreases |c.q|
  {
    if c.q != [] && c.qSize > c.hirCapacity {
      EvictHeadKeepsBooks(c);
      EvictKeepsBooks(EvictHead(c));
    }
  }

  lemma DemoteKeepsBooks(c: Cache, k: Word)
    requires Shape(c) && k in c.index && c.index[k].kind == Lir
    requires Counted(c)
    ensures Counted(Demote(c, k)) && LirLimit(Demote(c, k)) == LirLimit(c)
  {
    UpdateAll(c.index, k, c.index[k].(kind := Resident, inQ := true));
  }

  lemma TurnLirKeepsBooks(c: Cache, k: Word)
    requires Shape(c) && k in c.index && c.index[k].kind == Resident && c.index[k].inS && Books(c)
    ensures Books(TurnLir(c, k)) && Surplus(TurnLir(c, k)) == Surplus(c) + 1
  {
    UpdateAll(c.index, k, c.index[k].(kind := Lir, inQ := false));
  }

  lemma ExchangeKeepsBooks(c: Cache)
    requires Shape(c) && c.s != [] && Books(c) && Surplus(c) >= 1
    ensures Books(Exchange(c))
    ensures Exchange(c).stats.lirCount ==
            c.stats.lirCount - (if c.index[Last(c.s)].kind == Lir then 1 else 0)
  {
    var bottom := Last(c.s);
    if c.index[bottom].kind == Lir {
      DemoteKeepsBooks(c, bottom);
      PopTrims(Demote(c, bottom));
      TrimKeepsBooks(Demote(c, bottom), Exchange(c));
    }
  }

  lemma TradeKeepsBooks(c: Cache, k: Word)
    requires Shape(c) && k in c.index && c.index[k].kind == Resident && c.index[k].inS && Books(c)
    ensures Books(TradePlaces(c, k))
    ensures TradePlaces(c, k).stats == Exchange(TurnLir(c, k)).stats
  {
    hide Shape;
    TurnLirKeepsBooks(c, k);
    ExchangeKeepsBooks(TurnLir(c, k));
    PruneTrims(Exchange(TurnLir(c, k)));
    TrimKeepsBooks(Exchange(TurnLir(c, k)), TradePlaces(c, k));
  }

  lemma RaiseKeepsBooks(c: Cache, k: Word)
    requires Shape(c) && k in c.index && Books(c)
    ensures Books(Raise(c, k)) && Raise(c, k).stats == c.stats
  {
    UpdateAll(c.index, k, c.index[k].(inS := true));
  }

  // ---------- Recency through the internal steps ----------

  /** Taking blocks off the bottom of S and forgetting blocks keeps the order. */
  lemma ShrinkKeepsRecency(c: Cache, r: Cache, ex: set<Word>)
    requires Shape(c) && Shape(r) && RecentExcept(c, ex)
    requires r.s <= c.s && r.clock == c.clock
    requires forall k :: k in r.index ==> k in c.index && r.index[k].time == c.index[k].time
    ensures RecentExcept(r, ex)
  {
    forall k, i | k in r.index && !r.index[k].inS && k !in ex && 0 <= i < |r.s| && r.s[i] !in ex
      ensures r.index[k].time < Time(r, r.s[i])
    {
      if c.index[k].inS {
        var j :| 0 <= j < |c.s| && c.s[j] == k;
        assert i < |r.s| <= j;
      }
    }
  }

  lemma RemoveKeepsRecency(c: Cache, r: Cache, k: Word, ex: set<Word>)
    requires Distinct(c.s) && RecentExcept(c, ex)
    requires r.s == Remove(c.s, k) && r.clock == c.clock
    requires r.index == c.index - {k}
    ensures RecentExcept(r, ex - {k})
  {
    hide Distinct, Remove;
    forall i, j | 0 <= i < j < |r.s| && r.s[i] !in ex - {k} && r.s[j] !in ex - {k}
      ensures Time(r, r.s[i]) > Time(r, r.s[j])
    {
      RemoveShifts(c.s, k, i);
      RemoveShifts(c.s, k, j);
    }
    forall x, i | x in r.index && !r.index[x].inS && x !in ex - {k} && 0 <= i < |r.s| && r.s[i] !in ex - {k}
      ensures r.index[x].time < Time(r, r.s[i])
    {
      RemoveShifts(c.s, k, i);
    }
  }

  /** Where the `i`th entry of `Remove(s, x)` stands in `s`. */
  function Shift(s: seq<Word>, x: Word, i: nat): nat {
    if x in s && i >= IndexOf(s, x) then i + 1 else i
  }

  lemma RemoveShifts(s: seq<Word>, x: Word, i: nat)
    requires Distinct(s) && i < |Remove(s, x)|
    ensures Shift(s, x, i) < |s| && Remove(s, x)[i] == s[Shift(s, x, i)] && Remove(s, x)[i] != x
  {
  }

  /** The block accessed last goes to the top. */
  lemma RaiseRestoresRecency(c: Cache, k: Word)
    requires Shape(c) && k in c.index && RecentExcept(c, {k}) && c.index[k].time == c.clock
    ensures Recent(Raise(c, k))
  {
    ToTopRestoresRecency(c, Raise(c, k), k);
  }

  lemma ToTopRestoresRecency(c: Cache, r: Cache, k: Word)
    requires Distinct(c.s) && (forall i :: 0 <= i < |c.s| ==> c.s[i] in c.index)
    requires k in c.index && RecentExcept(c, {k}) && c.index[k].time == c.clock
    requires r.s == [k] + Remove(c.s, k) && r.clock == c.clock
    requires r.index == c.index[k := c.index[k].(inS := true)]
    ensures Recent(r)
  {
    hide Distinct, Remove;
    forall i, j | 0 <= i < j < |r.s|
      ensures Time(r, r.s[i]) > Time(r, r.s[j])
    {
      BelowTop(c, r, k, j);
      if i > 0 {
        BelowTop(c, r, k, i);
      }
    }
    forall x, i | x in r.index && !r.index[x].inS && 0 <= i < |r.s|
      ensures r.index[x].time < Time(r, r.s[i])
    {
      if i > 0 {
        BelowTop(c, r, k, i);
      }
    }
  }

  lemma BelowTop(c: Cache, r: Cache, k: Word, i: nat)
    requires Distinct(c.s) && (forall i :: 0 <= i < |c.s| ==> c.s[i] in c.index)
    requires k in c.index && RecentExcept(c, {k})
    requires r.s == [k] + Remove(c.s, k) && r.index == c.index[k := c.index[k].(inS := true)]
    requires 0 < i < |r.s|
    ensures Shift(c.s, k, i - 1) < |c.s| && r.s[i] == c.s[Shift(c.s, k, i - 1)] && r.s[i] != k
    ensures Time(r, r.s[i]) == Time(c, r.s[i]) < c.clock
  {
    RemoveShifts(c.s, k, i - 1);
    assert r.s[i] == Remove(c.s, k)[i - 1];
  }

  lemma TouchStartsAccess(c: Cache, k: Word)
    requires Shape(c) && Recent(c) && k in c.index
    ensures RecentExcept(Touch(c, k), {k})
  {
  }

  // ---------- Operations ----------

  lemma GetLirKeeps(c: Cache, key: Word)
    requires Inv(c) && key != NULL && key in c.index && c.index[key].kind == Lir
    ensures Inv(Get(c, key).0) && BottomIsLir(Get(c, key).0)
  {
    hide Shape;
    var c1 := Hit(Touch(c, key));
    TouchKeepsBooks(c, key);
    TouchStartsAccess(c, key);
    RaiseKeepsInv(c1, key);
    PruneKeepsInv(Raise(c1, key));
  }

  lemma RaiseKeepsInv(c: Cache, k: Word)
    requires Ready(c) && Books(c) && k in c.index && c.hirCapacity >= 1
    requires RecentExcept(c, {k}) && c.index[k].time == c.clock
    ensures Inv(Raise(c, k))
  {
    hide Shape;
    RaiseKeepsBooks(c, k);
    RaiseRestoresRecency(c, k);
  }

  lemma TouchKeepsBooks(c: Cache, k: Word)
    requires Shape(c) && Books(c) && k in c.index
    ensures Books(Touch(c, k))
  {
    UpdateAll(c.index, k, c.index[k].(time := c.clock + 1));
  }

  lemma PruneKeepsInv(c: Cache)
    requires Inv(c)
    ensures Inv(Prune(c)) && BottomIsLir(Prune(c))
  {
    hide Shape;
    PruneTrims(c);
    TrimKeepsBooks(c, Prune(c));
    ShrinkKeepsRecency(c, Prune(c), {});
  }

  lemma GetResidentKeeps(c: Cache, key: Word)
    requires Inv(c) && key != NULL && key in c.index && c.index[key].kind == Resident
    ensures Inv(Get(c, key).0)
  {
    hide Shape;
    TouchKeepsBooks(c, key);
    TouchStartsAccess(c, key);
    HitResidentKeeps(Hit(Touch(c, key)), key);
  }

  lemma HitResidentKeeps(c: Cache, key: Word)
    requires Ready(c) && Books(c) && c.hirCapacity >= 1
    requires key in c.index && c.index[key].kind == Resident
    requires RecentExcept(c, {key}) && c.index[key].time == c.clock
    ensures Inv(HitResident(c, key))
  {
    hide Shape;
    if c.index[key].inS {
      HitInStack(c, key);
      TradeKeepsMost(c, key);
      RaiseKeepsInv(TradePlaces(c, key), key);
    } else {
      HitOutsideStack(c, key);
      RaiseKeepsInv(c, key);
    }
  }

  /** The HIR-hit branch comes down to trading places and moving to the top; nothing is evicted. */
  lemma HitInStack(c: Cache, key: Word)
    requires Ready(c) && key in c.index && c.index[key].kind == Resident && c.index[key].inS
    ensures key in TradePlaces(c, key).index && HitResident(c, key) == Raise(TradePlaces(c, key), key)
  {
    PromoteEvictsNothing(c, key);
    LirsModel.TradeKeepsBlocks(c, key);
  }

  lemma HitOutsideStack(c: Cache, key: Word)
    requires Ready(c) && key in c.index && c.index[key].kind == Resident && !c.index[key].inS
    ensures HitResident(c, key) == Raise(c, key)
  {
  }

  lemma TradeKeepsMost(c: Cache, k: Word)
    requires Ready(c) && k in c.index && c.index[k].kind == Resident && c.index[k].inS
    requires Books(c) && RecentExcept(c, {k})
    ensures var r := TradePlaces(c, k);
            && Ready(r) && Books(r) && RecentExcept(r, {k}) && r.clock == c.clock && r.hirCapacity == c.hirCapacity
            && k in r.index && r.index[k].time == c.index[k].time
  {
    hide Shape;
    LirsModel.TradeKeepsBlocks(c, k);
    TradeKeepsBooks(c, k);
    TradeKeepsConfig(c, k);
    ShrinkKeepsRecency(c, TradePlaces(c, k), {k});
  }

  lemma TradeKeepsConfig(c: Cache, k: Word)
    requires Shape(c) && k in c.index && c.index[k].kind == Resident && c.index[k].inS
    ensures var r := TradePlaces(c, k);
            && r.clock == c.clock && r.capacity == c.capacity && r.hirCapacity == c.hirCapacity
            && r.maxSize == c.maxSize && r.callback == c.callback
            && r.stats.totalSize == c.stats.totalSize
  {
    hide Shape;
    PruneTrims(Exchange(TurnLir(c, k)));
  }

  lemma GetGhostKeeps(c: Cache, key: Word)
    requires Inv(c) && key != NULL && key in c.index && c.index[key].kind == Ghost
    ensures Inv(Get(c, key).0) && BottomIsLir(Get(c, key).0)
  {
    hide Shape;
    var c1 := Miss(Touch(c, key));
    TouchStartsAccess(c, key);
    TouchKeepsBooks(c, key);
    var c2 := DropFromS(c1, key);
    RemoveAll(c1.index, key);
    RemoveKeepsRecency(c1, c2, key, {key});
    assert {key} - {key} == {};
    PruneKeepsInv(c2);
  }

  /** A hit on a ghost is a miss that destroys the ghost. */
  lemma GhostHitDestroys(c: Cache, key: Word)
    requires Ready(c) && key != NULL && key in c.index && c.index[key].kind == Ghost
    ensures Get(c, key).1 == NULL && key !in Get(c, key).0.index
    ensures Get(c, key).0.stats.misses == c.stats.misses + 1
  {
    PruneTrims(DropFromS(Miss(Touch(c, key)), key));
  }

  lemma AdmitKeepsBooks(c: Cache, key: Word, value: Word, size: Word)
    requires Shape(c) && Books(c) && key !in c.index
    ensures Books(Admit(c, key, value, size))
  {
    LirsFitInStack(c);
    UpdateAll(c.index, key, Admit(c, key, value, size).index[key]);
  }

  lemma AdmitKeepsRecency(c: Cache, r: Cache, key: Word)
    requires Recent(c) && key !in c.index && (forall x :: x in c.s ==> x in c.index)
    requires r.s == [key] + c.s && r.clock == c.clock + 1 && key in r.index
    requires r.index[key].time == r.clock && r.index[key].inS
    requires r.index == c.index[key := r.index[key]]
    ensures Recent(r)
  {
    forall i, j | 0 <= i < j < |r.s|
      ensures Time(r, r.s[i]) > Time(r, r.s[j])
    {
      assert r.s[j] == c.s[j - 1] && c.s[j - 1] in c.index;
      if i > 0 {
        assert r.s[i] == c.s[i - 1] && c.s[i - 1] in c.index;
      }
    }
    forall x, i | x in r.index && !r.index[x].inS && 0 <= i < |r.s|
      ensures r.index[x].time < Time(r, r.s[i])
    {
      if i > 0 {
        assert r.s[i] == c.s[i - 1] && c.s[i - 1] in c.index;
      }
    }
  }

  lemma AdmitIsRecent(c: Cache, key: Word, value: Word, size: Word)
    requires Shape(c) && Recent(c) && key !in c.index
    ensures Recent(Admit(c, key, value, size)) && Admit(c, key, value, size).hirCapacity == c.hirCapacity
  {
    AdmitKeepsRecency(c, Admit(c, key, value, size), key);
  }

  /** Evicting makes ghosts of HIR blocks, never of the LIR block at the bottom. */
  lemma {:induction false} EvictKeepsRecency(c: Cache)
    requires Shape(c) && Recent(c)
    ensures Recent(EvictHir(c)) && (BottomIsLir(c) ==> BottomIsLir(EvictHir(c)))
    decreases |c.q|
  {
    if c.q != [] && c.qSize > c.hirCapacity {
      EvictHeadKeepsRecency(c);
      EvictKeepsRecency(EvictHead(c));
    }
  }

  lemma EvictHeadKeepsRecency(c: Cache)
    requires Shape(c) && c.q != [] && Recent(c)
    ensures Recent(EvictHead(c)) && (BottomIsLir(c) ==> BottomIsLir(EvictHead(c)))
  {
    ShrinkKeepsRecency(c, EvictHead(c), {});
    assert c.q[0] in c.q;
  }

  lemma OverwriteKeeps(c: Cache, key: Word, value: Word, size: Word)
    requires Inv(c) && key in c.index
    ensures Inv(Overwrite(c, key, value, size))
  {
    var r := Overwrite(c, key, value, size);
    UpdateAll(c.index, key, c.index[key].(value := value, size := size));
    ShrinkKeepsRecency(c, r, {});
  }

  /** Pruning and then evicting, as `lirs_put` does last. */
  lemma SettleKeeps(c: Cache)
    requires Shape(c) && Books(c) && Recent(c) && c.hirCapacity >= 1
    ensures Inv(EvictHir(Prune(c))) && BottomIsLir(EvictHir(Prune(c)))
  {
    hide Shape;
    PruneTrims(c);
    TrimKeepsBooks(c, Prune(c));
    ShrinkKeepsRecency(c, Prune(c), {});
    EvictKeepsBooks(Prune(c));
    EvictKeepsRecency(Prune(c));
  }

  lemma PutKeeps(c: Cache, key: Word, value: Word, size: Word, gotBlock: bool)
    requires Inv(c)
    ensures Inv(Put(c, key, value, size, gotBlock).0)
    ensures key != NULL && key !in c.index && Put(c, key, value, size, gotBlock).1 == 0 ==>
              BottomIsLir(Put(c, key, value, size, gotBlock).0)
  {
    hide Shape;
    if key == NULL {
    } else if key in c.index {
      OverwriteKeeps(c, key, value, size);
    } else if OverBudget(c, size) {
      PruneKeepsInv(c);
    } else if gotBlock {
      AdmitKeepsBooks(c, key, value, size);
      AdmitIsRecent(c, key, value, size);
      SettleKeeps(Admit(c, key, value, size));
    }
  }

  lemma DeleteKeeps(c: Cache, key: Word)
    requires Inv(c)
    ensures Inv(Delete(c, key).0)
    ensures Delete(c, key).1 == 0 ==> BottomIsLir(Delete(c, key).0)
  {
    hide Shape;
    if key != NULL && key in c.index {
      UnlinkKeeps(c, key);
      PruneKeepsInv(Unlink(c, key));
    }
  }

  lemma UnlinkKeeps(c: Cache, key: Word)
    requires Inv(c) && key in c.index
    ensures Inv(Unlink(c, key))
  {
    RemoveDistinct(c.q, key);
    RemoveAll(c.index, key);
    RemoveKeepsRecency(c, Unlink(c, key), key, {});
    assert {} - {key} == {};
  }

  lemma StepKeepsInvariant(c: Cache, op: Op)
    requires Inv(c)
    ensures Inv(Step(c, op))
  {
    hide Shape;
    match op
    case GetOp(key) =>
      if key != NULL && key in c.index {
        match c.index[key].kind
        case Lir => GetLirKeeps(c, key);
        case Resident => GetResidentKeeps(c, key);
        case Ghost => GetGhostKeeps(c, key);
      }
    case PutOp(key, value, size, gotBlock) => PutKeeps(c, key, value, size, gotBlock);
    case DeleteOp(key) => DeleteKeeps(c, key);
    case ClearOp => ClearKeeps(c);
  }

  lemma ClearKeeps(c: Cache)
    requires Inv(c)
    ensures Inv(Clear(c))
  {
    var r := Clear(c);
    forall kind ensures Count(r.index, kind) == 0 {
      assert OfKind(r.index, kind) == {};
    }
  }

  lemma CreateEstablishesInvariant(capacity: Word, maxSize: Word, callback: bool)
    ensures Inv(Create(capacity, maxSize, callback))
  {
    var r := Create(capacity, maxSize, callback);
    forall kind ensures Count(r.index, kind) == 0 {
      assert OfKind(r.index, kind) == {};
    }
  }

  // ---------- Runs ----------

  /** The state after a sequence of operations, in order. */
  ghost function Run(c: Cache, ops: seq<Op>): (r: Cache)
    requires Inv(c)
    ensures Inv(r)
    decreases |ops|
  {
    if ops == [] then c
    else
      StepKeepsInvariant(Run(c, ops[..|ops| - 1]), Last(ops));
      Step(Run(c, ops[..|ops| - 1]), Last(ops))
  }

  /** What the structure looks like between operations, in one place. */
  ghost predicate WellFormed(c: Cache) {
    && Distinct(c.s) && Distinct(c.q) && c.sSize == |c.s| && c.qSize == |c.q| <= c.hirCapacity
    && Elements(c.q) == OfKind(c.index, Resident)
    && OfKind(c.index, Lir) + OfKind(c.index, Ghost) <= Elements(c.s)
    && c.index.Keys == Elements(c.s) + Elements(c.q)
    && (forall k :: k in c.index ==> (c.index[k].inS <==> k in c.s) && (c.index[k].inQ <==> k in c.q))
    && c.stats.lirCount == Count(c.index, Lir)
    && c.stats.hirCount == |c.q|
    && c.stats.ghostCount >= Count(c.index, Ghost)
  }

  /** S lists blocks by last access, newest first, and leaves out only older ones. */
  ghost predicate ByRecency(c: Cache) {
    && (forall i, j :: 0 <= i < j < |c.s| ==> Time(c, c.s[i]) > Time(c, c.s[j]))
    && (forall k, i :: k in c.index && k !in c.s && 0 <= i < |c.s| ==> Time(c, k) < Time(c, c.s[i]))
  }

  lemma InvariantMeansWellFormed(c: Cache)
    requires Inv(c)
    ensures WellFormed(c)
  {
    hide RecentExcept;
    TrackedIsListed(c);
    QueueHoldsResidents(c);
  }

  lemma InvariantMeansByRecency(c: Cache)
    requires Inv(c)
    ensures ByRecency(c)
  {
    hide Books, Distinct;
  }

  /** Every state reachable by get, put, remove and clear is well formed. */
  lemma ReachableStatesAreWellFormed(capacity: Word, maxSize: Word, callback: bool, ops: seq<Op>)
    ensures Inv(Create(capacity, maxSize, callback))
    ensures var c := Run(Create(capacity, maxSize, callback), ops); WellFormed(c) && ByRecency(c)
  {
    hide Inv, WellFormed, ByRecency;
    CreateEstablishesInvariant(capacity, maxSize, callback);
    InvariantMeansWellFormed(Run(Create(capacity, maxSize, callback), ops));
    InvariantMeansByRecency(Run(Create(capacity, maxSize, callback), ops));
  }

  lemma TrackedIsListed(c: Cache)
    requires Shape(c)
    ensures c.index.Keys == Elements(c.s) + Elements(c.q)
    ensures OfKind(c.index, Lir) + OfKind(c.index, Ghost) <= Elements(c.s)
  {
    forall k | k in c.index ensures k in Elements(c.s) + Elements(c.q) {
      assert Filed(c.index[k]);
    }
  }

  /** Setting the callback disturbs nothing. */
  lemma CallbackKeepsInv(c: Cache, on: bool)
    requires Inv(c)
    ensures Inv(c.(callback := on))
  {
    hide Filed;
    RecentSame(c, c.(callback := on));
  }

  lemma RecentSame(c: Cache, r: Cache)
    requires Recent(c) && Shape(c) && r.s == c.s && r.index == c.index && r.clock == c.clock
    ensures Recent(r)
  {
  }
}
