/** Who owns a value: over every run, what is handed over is held by one block or has been released once. */
module LirsOwnership {
  import opened Words
  import opened Seqs
  import opened LirsModel
  import opened LirsInvariant
  import opened LirsRefinement

  // ---------- Sums over the tracked blocks ----------

  ghost function Sum(m: map<Word, Entry>, f: (Word, Entry) -> int): int
    decreases |m|
  {
    if m == map[] then 0
    else var k :| k in m; f(k, m[k]) + Sum(m - {k}, f)
  }

  lemma {:induction false} SumRemove(m: map<Word, Entry>, k: Word, f: (Word, Entry) -> int)
    requires k in m
    ensures Sum(m, f) == f(k, m[k]) + Sum(m - {k}, f)
    decreases |m|
  {
    var p :| p in m && Sum(m, f) == f(p, m[p]) + Sum(m - {p}, f);
    if p != k {
      SumRemove(m - {p}, k, f);
      SumRemove(m - {k}, p, f);
      assert m - {p} - {k} == m - {k} - {p};
    }
  }

  lemma SumUpdate(m: map<Word, Entry>, k: Word, e: Entry, f: (Word, Entry) -> int)
    ensures Sum(m[k := e], f) == Sum(m, f) - (if k in m then f(k, m[k]) else 0) + f(k, e)
  {
    SumRemove(m[k := e], k, f);
    assert m[k := e] - {k} == m - {k};
    if k in m {
      SumRemove(m, k, f);
    } else {
      assert m - {k} == m;
    }
  }

  // ---------- Custody of what was handed over ----------

  /** A property of a key, value and size handed over together. */
  ghost predicate NeverNull(p: Release -> bool) {
    forall r :: p(r) ==> r.value != NULL
  }

  ghost function ValueIs(v: Word): Release -> bool {
    (r: Release) => r.value == v
  }

  ghost function SameAs(x: Release): Release -> bool {
    (r: Release) => r == x
  }

  ghost function Holds(p: Release -> bool): (Word, Entry) -> int {
    (k: Word, e: Entry) => if p(Release(k, e.value, e.size)) then 1 else 0
  }

  /** How many tracked blocks, ghosts included, hold what has the property. */
  ghost function Held(c: Cache, p: Release -> bool): int {
    Sum(c.index, Holds(p))
  }

  /** How often such data have been passed to the callback. */
  function Times(rs: seq<Release>, p: Release -> bool): nat {
    if rs == [] then 0 else Times(rs[..|rs| - 1], p) + (if p(Last(rs)) then 1 else 0)
  }

  lemma {:induction false} TimesConcat(a: seq<Release>, b: seq<Release>, p: Release -> bool)
    ensures Times(a + b, p) == Times(a, p) + Times(b, p)
    decreases |b|
  {
    if b == [] {
      assert a + b == a;
    } else {
      assert (a + b)[..|a + b| - 1] == a + b[..|b| - 1];
      TimesConcat(a, b[..|b| - 1], p);
    }
  }

  ghost function Custody(c: Cache, p: Release -> bool): int {
    Held(c, p) + Times(c.released, p)
  }

  lemma FireCounts(c: Cache, k: Word, e: Entry, p: Release -> bool)
    requires c.callback && NeverNull(p)
    ensures Times(c.released + Fire(c, k, e), p) == Times(c.released, p) + Holds(p)(k, e)
  {
    TimesConcat(c.released, Fire(c, k, e), p);
    assert Times([], p) == 0;
    if e.value != NULL {
      var rel := Release(k, e.value, e.size);
      assert [rel][..0] == [];
      assert Times([rel], p) == Times([], p) + (if p(rel) then 1 else 0);
    }
  }

  lemma DestroyKeepsCustody(c: Cache, k: Word, p: Release -> bool)
    requires k in c.index && c.callback && NeverNull(p)
    ensures Custody(Destroy(c, k), p) == Custody(c, p)
  {
    SumRemove(c.index, k, Holds(p));
    FireCounts(c, k, c.index[k], p);
  }

  lemma RefileKeepsCustody(c: Cache, r: Cache, k: Word, p: Release -> bool)
    requires k in c.index && k in r.index && r.index == c.index[k := r.index[k]]
    requires r.index[k].value == c.index[k].value && r.index[k].size == c.index[k].size && r.released == c.released
    ensures Custody(r, p) == Custody(c, p)
  {
    SumUpdate(c.index, k, r.index[k], Holds(p));
  }

  lemma PopKeepsCustody(c: Cache, p: Release -> bool)
    requires Shape(c) && c.s != [] && c.index[Last(c.s)].kind != Lir && c.callback && NeverNull(p)
    ensures Custody(PopBottom(c), p) == Custody(c, p) && PopBottom(c).callback
  {
    var k := Last(c.s);
    var popped := c.(s := c.s[..|c.s| - 1], sSize := c.sSize - 1, index := c.index[k := c.index[k].(inS := false)]);
    RefileKeepsCustody(c, popped, k, p);
    if c.index[k].kind == Ghost {
      DestroyKeepsCustody(popped, k, p);
    }
  }

  lemma {:induction false} PruneKeepsCustody(c: Cache, p: Release -> bool)
    requires Shape(c) && c.callback && NeverNull(p)
    ensures Custody(Prune(c), p) == Custody(c, p) && Prune(c).callback
    decreases |c.s|
  {
    if c.s != [] && c.index[Last(c.s)].kind != Lir {
      PopKeepsCustody(c, p);
      PruneKeepsCustody(PopBottom(c), p);
    }
  }

  lemma EvictHeadKeepsCustody(c: Cache, p: Release -> bool)
    requires Shape(c) && c.q != [] && c.callback && NeverNull(p)
    ensures Custody(EvictHead(c), p) == Custody(c, p) && EvictHead(c).callback
  {
    var k := c.q[0];
    var e := c.index[k];
    var evicted := c.(index := c.index[k := e.(inQ := false, kind := Ghost)]);
    RefileKeepsCustody(c, evicted, k, p);
    if !e.inS {
      DestroyKeepsCustody(evicted, k, p);
    }
  }

  lemma {:induction false} EvictKeepsCustody(c: Cache, p: Release -> bool)
    requires Shape(c) && c.callback && NeverNull(p)
    ensures Custody(EvictHir(c), p) == Custody(c, p) && EvictHir(c).callback
    decreases |c.q|
  {
    if c.q != [] && c.qSize > c.hirCapacity {
      EvictHeadKeepsCustody(c, p);
      EvictKeepsCustody(EvictHead(c), p);
    }
  }

  lemma TradeKeepsCustody(c: Cache, k: Word, p: Release -> bool)
    requires Shape(c) && k in c.index && c.index[k].kind == Resident && c.index[k].inS && c.callback && NeverNull(p)
    ensures Custody(TradePlaces(c, k), p) == Custody(c, p) && TradePlaces(c, k).callback
  {
    var c1 := TurnLir(c, k);
    RefileKeepsCustody(c, c1, k, p);
    var bottom := Last(c1.s);
    if c1.index[bottom].kind == Lir {
      RefileKeepsCustody(c1, Demote(c1, bottom), bottom, p);
      PopKeepsCustody(Demote(c1, bottom), p);
    }
    PruneKeepsCustody(Exchange(c1), p);
  }

  // ---------- Operations ----------

  lemma GetKeepsCustody(c: Cache, key: Word, p: Release -> bool)
    requires Inv(c) && c.callback && NeverNull(p)
    ensures Custody(Get(c, key).0, p) == Custody(c, p) && Get(c, key).0.callback
  {
    hide Shape, Prune, Books, RecentExcept, Sum, Times;
    if key != NULL && key in c.index {
      var c1 := Touch(c, key);
      RefileKeepsCustody(c, c1, key, p);
      match c.index[key].kind
      case Lir =>
        RefileKeepsCustody(Hit(c1), Raise(Hit(c1), key), key, p);
        PruneKeepsCustody(Raise(Hit(c1), key), p);
      case Resident =>
        HitKeepsCustody(Hit(c1), key, p);
      case Ghost =>
        DestroyKeepsCustody(Miss(c1), key, p);
        PruneKeepsCustody(DropFromS(Miss(c1), key), p);
    }
  }

  lemma HitKeepsCustody(c: Cache, key: Word, p: Release -> bool)
    requires Ready(c) && key in c.index && c.index[key].kind == Resident && c.callback && NeverNull(p)
    ensures Custody(HitResident(c, key), p) == Custody(c, p) && HitResident(c, key).callback
  {
    if c.index[key].inS {
      HitInStack(c, key);
      TradeKeepsCustody(c, key, p);
      RefileKeepsCustody(TradePlaces(c, key), Raise(TradePlaces(c, key), key), key, p);
    } else {
      RefileKeepsCustody(c, Raise(c, key), key, p);
    }
  }

  /** Whether this operation hands `value` over to the cache. */
  predicate TakesOver(c: Cache, key: Word, value: Word, size: Word, gotBlock: bool) {
    Accepts(c, key, size, gotBlock) || (key != NULL && key in c.index && c.index[key].value != value)
  }

  lemma PutTakesCustody(c: Cache, key: Word, value: Word, size: Word, gotBlock: bool, p: Release -> bool)
    requires Inv(c) && c.callback && NeverNull(p)
    ensures var r := Put(c, key, value, size, gotBlock).0;
            && Custody(r, p) ==
               Custody(c, p) +
               (if TakesOver(c, key, value, size, gotBlock) && p(Release(key, value, size)) then 1 else 0)
            && r.callback
  {
    if key == NULL {
    } else if key in c.index {
      var e := c.index[key];
      SumUpdate(c.index, key, e.(value := value, size := size), Holds(p));
      FireCounts(c, key, e, p);
    } else if OverBudget(c, size) {
      PruneKeepsCustody(c, p);
    } else if gotBlock {
      var c1 := Admit(c, key, value, size);
      SumUpdate(c.index, key, c1.index[key], Holds(p));
      PruneKeepsCustody(c1, p);
      EvictKeepsCustody(Prune(c1), p);
    }
  }

  lemma DeleteKeepsCustody(c: Cache, key: Word, p: Release -> bool)
    requires Inv(c) && c.callback && NeverNull(p)
    ensures Custody(Delete(c, key).0, p) == Custody(c, p) && Delete(c, key).0.callback
  {
    if key != NULL && key in c.index {
      DestroyKeepsCustody(c, key, p);
      PruneKeepsCustody(Unlink(c, key), p);
    }
  }

  /** Destroying the listed blocks one by one releases exactly what they hold. */
  lemma {:induction false} FireAllCounts(c: Cache, ks: seq<Word>, m: map<Word, Entry>, p: Release -> bool)
    requires Distinct(ks) && (forall k :: k in ks ==> k in m)
    requires (forall k :: k in m ==> k in c.index && m[k] == c.index[k]) && c.callback && NeverNull(p)
    ensures Sum(m, Holds(p)) == Times(FireAll(c, ks), p) + Sum(m - Elements(ks), Holds(p))
    decreases |ks|
  {
    if ks == [] {
      assert m - Elements(ks) == m;
    } else {
      var k := ks[0];
      SumRemove(m, k, Holds(p));
      FireAllCounts(c, ks[1..], m - {k}, p);
      assert Elements(ks) == {k} + Elements(ks[1..]);
      assert m - {k} - Elements(ks[1..]) == m - Elements(ks);
      FireCounts(c.(released := []), k, m[k], p);
      assert [] + Fire(c, k, m[k]) == Fire(c, k, m[k]);
      TimesConcat(Fire(c, k, m[k]), FireAll(c, ks[1..]), p);
    }
  }

  lemma {:induction false} OnlyInQDistinct(c: Cache, ks: seq<Word>)
    requires Distinct(ks) && (forall k :: k in ks ==> k in c.index)
    ensures Distinct(OnlyInQ(c, ks))
  {
    if ks != [] {
      OnlyInQDistinct(c, ks[1..]);
    }
  }

  /** S and the blocks only in Q are all there is. */
  lemma ListsCoverAll(c: Cache)
    requires Shape(c)
    ensures var m, rest := c.index - Elements(c.s), OnlyInQ(c, c.q);
            && Distinct(rest) && (forall k :: k in rest ==> k in m) && m - Elements(rest) == map[]
  {
    OnlyInQDistinct(c, c.q);
    var m, rest := c.index - Elements(c.s), OnlyInQ(c, c.q);
    forall k | k in m ensures k in rest {
      assert Filed(c.index[k]);
    }
  }

  lemma ClearIs(c: Cache)
    requires Shape(c)
    ensures Clear(c).index == map[] && Clear(c).callback == c.callback
    ensures Clear(c).released == c.released + FireAll(c, c.s) + FireAll(c, OnlyInQ(c, c.q))
  {
  }

  lemma ClearReleasesAll(c: Cache, p: Release -> bool)
    requires Inv(c) && c.callback && NeverNull(p)
    ensures Custody(Clear(c), p) == Custody(c, p) && Clear(c).callback
  {
    assert Shape(c) && Distinct(c.s) && forall k :: k in c.s ==> k in c.index;
    var rest := OnlyInQ(c, c.q);
    hide Shape, Clear, FireAll, OnlyInQ;
    ListsCoverAll(c);
    ClearIs(c);
    var m := c.index - Elements(c.s);
    FireAllCounts(c, c.s, c.index, p);
    FireAllCounts(c, rest, m, p);
    TimesConcat(c.released, FireAll(c, c.s), p);
    TimesConcat(c.released + FireAll(c, c.s), FireAll(c, rest), p);
  }

  // ---------- Runs ----------

  /** How often the run's puts hand such data over to the cache. */
  ghost function Accepted(c: Cache, ops: seq<Op>, p: Release -> bool): nat
    requires Inv(c)
    decreases |ops|
  {
    if ops == [] then 0
    else
      Accepted(c, ops[..|ops| - 1], p) + Takes(Run(c, ops[..|ops| - 1]), Last(ops), p)
  }

  /** How often one operation hands such data over. */
  ghost function Takes(c: Cache, op: Op, p: Release -> bool): nat {
    match op
    case PutOp(key, value, size, gotBlock) =>
      if TakesOver(c, key, value, size, gotBlock) && p(Release(key, value, size)) then 1 else 0
    case _ => 0
  }

  lemma StepCustody(c: Cache, op: Op, p: Release -> bool)
    requires Inv(c) && c.callback && NeverNull(p)
    ensures Custody(Step(c, op), p) == Custody(c, p) + Takes(c, op, p) && Step(c, op).callback
  {
    match op
    case GetOp(key) => GetKeepsCustody(c, key, p);
    case PutOp(key, value, size, gotBlock) => PutTakesCustody(c, key, value, size, gotBlock, p);
    case DeleteOp(key) => DeleteKeepsCustody(c, key, p);
    case ClearOp => ClearReleasesAll(c, p);
  }

  lemma {:induction false} CustodyOverRuns(c: Cache, ops: seq<Op>, p: Release -> bool)
    requires Inv(c) && c.callback && NeverNull(p)
    ensures Custody(Run(c, ops), p) == Custody(c, p) + Accepted(c, ops, p) && Run(c, ops).callback
    decreases |ops|
  {
    hide Inv, Custody, Takes;
    if ops != [] {
      CustodyOverRuns(c, ops[..|ops| - 1], p);
      StepCustody(Run(c, ops[..|ops| - 1]), Last(ops), p);
    }
  }

  lemma {:induction false} SumNonNegative(m: map<Word, Entry>, f: (Word, Entry) -> int)
    requires forall k, e :: f(k, e) >= 0
    ensures Sum(m, f) >= 0
    decreases |m|
  {
    if m != map[] {
      var k :| k in m && Sum(m, f) == f(k, m[k]) + Sum(m - {k}, f);
      SumNonNegative(m - {k}, f);
    }
  }

  /** Over every run, what was accepted is either still held or has been released, as often as it was accepted. */
  lemma HandoversAreConserved(capacity: Word, maxSize: Word, ops: seq<Op>, p: Release -> bool)
    requires NeverNull(p)
    ensures var start := Create(capacity, maxSize, true);
            Inv(start) && (var c := Run(start, ops);
            && Accepted(start, ops, p) == Held(c, p) + Times(c.released, p)
            && 0 <= Held(c, p))
  {
    CreateEstablishesInvariant(capacity, maxSize, true);
    var start := Create(capacity, maxSize, true);
    CustodyOverRuns(start, ops, p);
    SumNonNegative(Run(start, ops).index, Holds(p));
  }

  /** Every accepted value is either still held or has been released, and never more often than accepted. */
  lemma ValuesAreConserved(capacity: Word, maxSize: Word, ops: seq<Op>, v: Word)
    requires v != NULL
    ensures var start := Create(capacity, maxSize, true);
            Inv(start) && (var c := Run(start, ops);
            && Accepted(start, ops, ValueIs(v)) == Held(c, ValueIs(v)) + Times(c.released, ValueIs(v))
            && 0 <= Held(c, ValueIs(v)))
  {
    HandoversAreConserved(capacity, maxSize, ops, ValueIs(v));
  }

  /**
   Each key, value and size accepted together is still held together, by the block of that key, or the callback has
   been called with just these three, as often as they were accepted.
   */
  lemma CallsAreConserved(capacity: Word, maxSize: Word, ops: seq<Op>, x: Release)
    requires x.value != NULL
    ensures var start := Create(capacity, maxSize, true);
            Inv(start) && (var c := Run(start, ops);
            Accepted(start, ops, SameAs(x)) ==
            Times(c.released, SameAs(x)) +
            (if x.key in c.index && c.index[x.key].value == x.value && c.index[x.key].size == x.size then 1 else 0))
  {
    HandoversAreConserved(capacity, maxSize, ops, SameAs(x));
    HeldOnce(Run(Create(capacity, maxSize, true), ops).index, x);
  }

  lemma HeldOnce(m: map<Word, Entry>, x: Release)
    ensures Sum(m, Holds(SameAs(x))) ==
            if x.key in m && m[x.key].value == x.value && m[x.key].size == x.size then 1 else 0
  {
    if x.key in m {
      SumRemove(m, x.key, Holds(SameAs(x)));
      HeldNowhere(m - {x.key}, x);
    } else {
      HeldNowhere(m, x);
    }
  }

  lemma {:induction false} HeldNowhere(m: map<Word, Entry>, x: Release)
    requires x.key !in m
    ensures Sum(m, Holds(SameAs(x))) == 0
    decreases |m|
  {
    if m != map[] {
      var k :| k in m;
      SumRemove(m, k, Holds(SameAs(x)));
      HeldNowhere(m - {k}, x);
    }
  }

  /** A value handed over once is never returned by `lirs_get` after its release. */
  lemma GetNeverReturnsReleased(capacity: Word, maxSize: Word, ops: seq<Op>, key: Word)
    ensures var start := Create(capacity, maxSize, true);
            Inv(start) && (var c := Run(start, ops);
            var (r, v) := Get(c, key);
            v != NULL && Accepted(start, ops, ValueIs(v)) <= 1 ==>
              Times(c.released, ValueIs(v)) == 0 && Times(r.released, ValueIs(v)) == 0)
  {
    CreateEstablishesInvariant(capacity, maxSize, true);
    var start := Create(capacity, maxSize, true);
    var c := Run(start, ops);
    var (r, v) := Get(c, key);
    if v != NULL {
      ValuesAreConserved(capacity, maxSize, ops, v);
      CustodyOverRuns(start, ops, ValueIs(v));
      GetKeepsCustody(c, key, ValueIs(v));
      GetReadsMap(c, key);
      assert key in ResidentMap(r);
      HoldsAtLeastOne(c, key, v);
      HoldsAtLeastOne(r, key, v);
    }
  }

  lemma HoldsAtLeastOne(c: Cache, k: Word, v: Word)
    requires k in c.index && c.index[k].value == v
    ensures Held(c, ValueIs(v)) >= 1
  {
    SumRemove(c.index, k, Holds(ValueIs(v)));
    SumNonNegative(c.index - {k}, Holds(ValueIs(v)));
  }
}
