/** The open-addressing table of src/utils/hash.h: linear probing with tombstones. */
module HashTable {
  import opened Words
  import opened Seqs
  import opened Hash

  const EMPTY: Word32 := 0
  const TOMBSTONE: Word32 := 1

  predicate Live(key: Word32) {
    key != EMPTY && key != TOMBSTONE
  }

  datatype Table = Table(keys: seq<Word32>, values: seq<Word>, count: int, tombstones: int)

  // ---------- Cyclic probing ----------

  /** The slot `d` steps after `h` in a ring of `n`. */
  function Cyc(h: nat, d: nat, n: nat): (i: nat)
    requires h < n && d <= n
    ensures i < n
  {
    if h + d < n then h + d else h + d - n
  }

  lemma CycZero(h: nat, n: nat)
    requires h < n
    ensures Cyc(h, 0, n) == h
  {
  }

  /** How many steps lead from `h` to `i`. */
  function Dist(h: nat, i: nat, n: nat): (d: nat)
    requires h < n && i < n
    ensures d < n && Cyc(h, d, n) == i
    ensures forall e :: 0 <= e < n && Cyc(h, e, n) == i ==> e == d
  {
    if i >= h then i - h else i - h + n
  }

  function HomeOf(key: Word32, n: nat): (i: nat)
    requires n >= 1
    ensures i < n
  {
    Home(Murmur3(key), n)
  }

  /** `(idx + 1) & (capacity - 1)` */
  lemma MaskSteps(h: nat, d: nat, n: nat)
    requires IsPow2(n) && h < n && d < n
    ensures BitAnd(Cyc(h, d, n) + 1, n - 1) == Cyc(h, d + 1, n)
  {
    var k :| n == Pow2(k);
    var i := Cyc(h, d, n) + 1;
    MaskIsModulo(i, k);
    if i == n {
      ModuloUnique(i, n, 1, 0);
    } else {
      ModuloUnique(i, n, 0, i);
    }
  }

  /** The first step from `d` on at which a probe for `key` stops, or the capacity. */
  function ProbeFrom(keys: seq<Word32>, key: Word32, stop: Word32 -> bool, d: nat): (r: nat)
    requires |keys| >= 1 && d <= |keys|
    ensures d <= r <= |keys|
    ensures forall e :: d <= e < r ==> !stop(At(keys, key, e))
    ensures r < |keys| ==> stop(At(keys, key, r))
    decreases |keys| - d
  {
    if d == |keys| || stop(At(keys, key, d)) then d else ProbeFrom(keys, key, stop, d + 1)
  }

  /** The content of the slot `d` steps after the home of `key`. */
  function At(keys: seq<Word32>, key: Word32, d: nat): Word32
    requires |keys| >= 1 && d < |keys|
  {
    keys[Cyc(HomeOf(key, |keys|), d, |keys|)]
  }

  function FindStop(key: Word32): Word32 -> bool {
    (k: Word32) => k == key || k == EMPTY
  }

  function PlaceStop(key: Word32): Word32 -> bool {
    (k: Word32) => k == key || k == EMPTY || k == TOMBSTONE
  }

  /** `hash_table32_lookup`: the slot whose value it points to, or -1 for NULL. */
  function Lookup(t: Table, key: Word32): int
    requires |t.keys| >= 1
  {
    if !Live(key) then -1
    else
      var d := ProbeFrom(t.keys, key, FindStop(key), 0);
      if d < |t.keys| && At(t.keys, key, d) == key then Cyc(HomeOf(key, |t.keys|), d, |t.keys|) else -1
  }

  /** The load check `count + tombstones >= capacity * 0.75`. */
  predicate Loaded(t: Table) {
    4 * (t.count + t.tombstones) >= 3 * |t.keys|
  }

  /** The slot an insertion writes to, or the capacity. */
  function Place(keys: seq<Word32>, key: Word32): (d: nat)
    requires |keys| >= 1
    ensures d <= |keys|
  {
    ProbeFrom(keys, key, PlaceStop(key), 0)
  }

  /** `hash_table32_insert` */
  function Insert(t: Table, key: Word32, value: Word): (r: (Table, int))
    requires |t.keys| == |t.values| >= 1
    ensures |r.0.keys| == |r.0.values| == |t.keys|
  {
    if !Live(key) then (t, -1)
    else if Loaded(t) then (t, -2)
    else
      var d := Place(t.keys, key);
      if d == |t.keys| then (t, -3)
      else
        var i := Cyc(HomeOf(key, |t.keys|), d, |t.keys|);
        var t1 := t.(keys := t.keys[i := key], values := t.values[i := value]);
        if t.keys[i] == key then (t1, 0)
        else (t1.(count := t.count + 1,
                  tombstones := if t.keys[i] == TOMBSTONE then t.tombstones - 1 else t.tombstones), 0)
  }

  /** `hash_table32_remove` */
  function Delete(t: Table, key: Word32): (r: (Table, int))
    requires |t.keys| == |t.values| >= 1
    ensures |r.0.keys| == |r.0.values| == |t.keys|
  {
    if !Live(key) then (t, -1)
    else
      var i := Lookup(t, key);
      if i == -1 then (t, -2)
      else (t.(keys := t.keys[i := TOMBSTONE], values := t.values[i := 0],
               count := t.count - 1, tombstones := t.tombstones + 1), 0)
  }

  /** `hash_table32_init` and `hash_table32_clear` */
  function Fresh(capacity: nat): Table {
    Table(seq(capacity, _ => EMPTY), seq(capacity, _ => 0), 0, 0)
  }

  // ---------- The invariant ----------

  ghost function Slots(keys: seq<Word32>, p: Word32 -> bool): set<nat> {
    set i: nat | i < |keys| && p(keys[i])
  }

  ghost function IsLive(): Word32 -> bool { (k: Word32) => Live(k) }

  ghost function Is(x: Word32): Word32 -> bool { (k: Word32) => k == x }

  /** No key occupies two slots. */
  ghost predicate Unique(keys: seq<Word32>) {
    forall i, j :: 0 <= i < j < |keys| && Live(keys[i]) ==> keys[i] != keys[j]
  }

  /** No empty slot lies between the home of a stored key and its slot. */
  ghost predicate Reachable(keys: seq<Word32>) {
    |keys| >= 1 &&
    forall i, d :: 0 <= i < |keys| && Live(keys[i]) && 0 <= d < Dist(HomeOf(keys[i], |keys|), i, |keys|) ==>
      At(keys, keys[i], d) != EMPTY
  }

  ghost predicate Counted(t: Table) {
    && t.count == |Slots(t.keys, IsLive())|
    && t.tombstones == |Slots(t.keys, Is(TOMBSTONE))|
  }

  ghost predicate Good(t: Table) {
    && IsPow2(|t.keys|) && |t.keys| == |t.values|
    && Unique(t.keys) && Reachable(t.keys) && Counted(t)
  }

  /** The finite map a table stands for. */
  ghost function Contents(t: Table): map<Word32, Word>
    requires |t.keys| == |t.values|
  {
    map k | k in t.keys && Live(k) :: t.values[IndexOf(t.keys, k)]
  }

  // ---------- Counting slots ----------

  lemma SlotsUpdate(keys: seq<Word32>, i: nat, x: Word32, p: Word32 -> bool)
    requires i < |keys|
    ensures |Slots(keys[i := x], p)| == |Slots(keys, p)| - (if p(keys[i]) then 1 else 0) + (if p(x) then 1 else 0)
  {
    var rest := Slots(keys, p) - {i};
    assert Slots(keys, p) == if p(keys[i]) then rest + {i} else rest;
    assert Slots(keys[i := x], p) == if p(x) then rest + {i} else rest;
  }

  ghost function Any(): Word32 -> bool { (k: Word32) => true }

  lemma {:induction false} AllSlots(keys: seq<Word32>)
    ensures |Slots(keys, Any())| == |keys|
    decreases |keys|
  {
    if keys != [] {
      var n := |keys| - 1;
      AllSlots(keys[..n]);
      SlotsAppend(keys[..n], keys[n], Any());
      assert keys[..n] + [keys[n]] == keys;
    }
  }

  /** `count + tombstones` is the number of slots that are not empty. */
  lemma OccupiedSlots(t: Table)
    requires Counted(t)
    ensures t.count + t.tombstones + |Slots(t.keys, Is(EMPTY))| == |t.keys|
  {
    var live, dead, free := Slots(t.keys, IsLive()), Slots(t.keys, Is(TOMBSTONE)), Slots(t.keys, Is(EMPTY));
    AllSlots(t.keys);
    var used := live + dead;
    assert live !! dead && |used| == |live| + |dead|;
    SlotsCovered(t.keys);
    assert Slots(t.keys, Any()) == used + free && used !! free;
    assert |used + free| == |used| + |free|;
  }

  lemma SlotsCovered(keys: seq<Word32>)
    ensures var used := Slots(keys, IsLive()) + Slots(keys, Is(TOMBSTONE));
            used !! Slots(keys, Is(EMPTY)) && used + Slots(keys, Is(EMPTY)) == Slots(keys, Any())
  {
  }

  /** Three quarters of the slots or more are not empty. */
  ghost predicate Crowded(keys: seq<Word32>) {
    4 * (|keys| - |Slots(keys, Is(EMPTY))|) >= 3 * |keys|
  }

  lemma LoadedIffCrowded(t: Table)
    requires Counted(t)
    ensures Loaded(t) <==> Crowded(t.keys)
  {
    OccupiedSlots(t);
  }

  lemma EmptySlotExists(t: Table) returns (i: nat)
    requires Counted(t) && t.count + t.tombstones < |t.keys|
    ensures i < |t.keys| && t.keys[i] == EMPTY
  {
    OccupiedSlots(t);
    i :| i in Slots(t.keys, Is(EMPTY));
  }

  // ---------- Lookup ----------

  /** A probe meets every slot before it gives up. */
  lemma ProbeReaches(keys: seq<Word32>, key: Word32, stop: Word32 -> bool, i: nat)
    requires i < |keys| && stop(keys[i])
    ensures ProbeFrom(keys, key, stop, 0) <= Dist(HomeOf(key, |keys|), i, |keys|)
  {
    assert At(keys, key, Dist(HomeOf(key, |keys|), i, |keys|)) == keys[i];
  }

  /** Lookup finds exactly the stored keys. */
  lemma LookupFindsStored(t: Table, key: Word32)
    requires Good(t)
    ensures if Live(key) && key in t.keys then 0 <= Lookup(t, key) < |t.keys| && t.keys[Lookup(t, key)] == key
            else Lookup(t, key) == -1
  {
    if Live(key) && key in t.keys {
      var i := IndexOf(t.keys, key);
      ProbeReaches(t.keys, key, FindStop(key), i);
    }
  }

  /** A probe for a missing key stops at an empty slot as long as there is one. */
  lemma MissStopsAtEmpty(t: Table, key: Word32)
    requires Good(t) && Live(key) && key !in t.keys && t.count + t.tombstones < |t.keys|
    ensures var d := ProbeFrom(t.keys, key, FindStop(key), 0); d < |t.keys| && At(t.keys, key, d) == EMPTY
  {
    var i := EmptySlotExists(t);
    ProbeReaches(t.keys, key, FindStop(key), i);
  }

  lemma StoredOnce(t: Table, i: nat)
    requires Unique(t.keys) && i < |t.keys| && Live(t.keys[i])
    ensures IndexOf(t.keys, t.keys[i]) == i
  {
  }

  lemma LookupReadsContents(t: Table, key: Word32)
    requires Good(t)
    ensures Live(key) && key in Contents(t) <==> Lookup(t, key) != -1
    ensures Lookup(t, key) != -1 ==> t.values[Lookup(t, key)] == Contents(t)[key]
  {
    LookupFindsStored(t, key);
    if Lookup(t, key) != -1 {
      StoredOnce(t, Lookup(t, key));
    }
  }

  // ---------- Insert ----------

  /** The load check leaves an empty slot, so insertion never returns -3. */
  lemma InsertNeverFull(t: Table, key: Word32)
    requires Good(t) && !Loaded(t)
    ensures Place(t.keys, key) < |t.keys|
  {
    var i := EmptySlotExists(t);
    ProbeReaches(t.keys, key, PlaceStop(key), i);
  }

  /** The slot an insertion writes to. */
  function Target(t: Table, key: Word32): nat
    requires |t.keys| >= 1 && Place(t.keys, key) < |t.keys|
    ensures Target(t, key) < |t.keys|
  {
    Cyc(HomeOf(key, |t.keys|), Place(t.keys, key), |t.keys|)
  }

  /** The key is new, or its own slot comes before any tombstone on its path. */
  predicate Direct(t: Table, key: Word32)
    requires |t.keys| >= 1 && Place(t.keys, key) < |t.keys|
  {
    key in t.keys ==> t.keys[Target(t, key)] == key
  }

  /** The insertion stops at the key itself or does not find it anywhere. */
  predicate Safe(t: Table, key: Word32)
    requires |t.keys| >= 1
  {
    Place(t.keys, key) < |t.keys| && Direct(t, key)
  }

  /** Inserting an absent key is always safe below the load limit. */
  lemma AbsentIsSafe(t: Table, key: Word32)
    requires Good(t) && !Loaded(t) && key !in t.keys
    ensures Safe(t, key)
  {
    InsertNeverFull(t, key);
  }

  lemma InsertKeepsCount(t: Table, key: Word32, value: Word)
    requires |t.keys| == |t.values| >= 1 && Counted(t) && Live(key) && !Loaded(t) && Place(t.keys, key) < |t.keys|
    ensures Counted(Insert(t, key, value).0)
  {
    var i := Target(t, key);
    SlotsUpdate(t.keys, i, key, IsLive());
    SlotsUpdate(t.keys, i, key, Is(TOMBSTONE));
  }

  lemma InsertKeepsReachable(t: Table, key: Word32)
    requires Reachable(t.keys) && Live(key) && Place(t.keys, key) < |t.keys|
    ensures Reachable(t.keys[Target(t, key) := key])
  {
    var n, p := |t.keys|, Target(t, key);
    var r := t.keys[p := key];
    forall i, d | 0 <= i < n && Live(r[i]) && 0 <= d < Dist(HomeOf(r[i], n), i, n)
      ensures At(r, r[i], d) != EMPTY
    {
      if i == p {
        assert d < Place(t.keys, key);
        assert At(t.keys, key, d) != EMPTY;
      } else {
        assert At(t.keys, t.keys[i], d) != EMPTY;
      }
    }
  }

  /** An insertion keeps the table well formed exactly when it does not stop short of the key's own slot. */
  lemma InsertGoodIffDirect(t: Table, key: Word32, value: Word)
    requires Good(t) && Live(key) && !Loaded(t)
    ensures Place(t.keys, key) < |t.keys|
    ensures Good(Insert(t, key, value).0) <==> Direct(t, key)
  {
    InsertNeverFull(t, key);
    InsertKeepsCount(t, key, value);
    InsertKeepsReachable(t, key);
    var p := Target(t, key);
    var r := t.keys[p := key];
    assert Insert(t, key, value).0.keys == r;
    if Direct(t, key) {
      UniqueAfterInsert(t.keys, p, key);
    } else {
      var i := IndexOf(t.keys, key);
      assert r[i] == key == r[p];
    }
  }

  lemma UniqueAfterInsert(keys: seq<Word32>, p: nat, key: Word32)
    requires Unique(keys) && p < |keys| && (key in keys ==> keys[p] == key)
    ensures Unique(keys[p := key])
  {
    var r := keys[p := key];
    forall i, j | 0 <= i < j < |r| && Live(r[i])
      ensures r[i] != r[j]
    {
      if i == p {
        assert keys[j] in keys;
      } else if j == p {
        assert keys[i] in keys;
      }
    }
  }

  /** Writing one slot of a table whose keys stay unique changes one entry of the map. */
  lemma WriteUpdatesContents(t: Table, r: Table, p: nat, key: Word32, value: Word)
    requires |t.keys| == |t.values| && p < |t.keys| && Live(key)
    requires r.keys == t.keys[p := key] && r.values == t.values[p := value]
    requires Unique(t.keys) && Unique(r.keys) && (t.keys[p] == key || !Live(t.keys[p]))
    ensures Contents(r) == Contents(t)[key := value]
  {
    forall k | Live(k)
      ensures k in r.keys <==> k == key || k in t.keys
      ensures k in r.keys ==> Contents(r)[k] == if k == key then value else Contents(t)[k]
    {
      WriteOneEntry(t, r, p, key, value, k);
    }
  }

  lemma WriteOneEntry(t: Table, r: Table, p: nat, key: Word32, value: Word, k: Word32)
    requires |t.keys| == |t.values| && p < |t.keys| && Live(key) && Live(k)
    requires r.keys == t.keys[p := key] && r.values == t.values[p := value]
    requires Unique(t.keys) && Unique(r.keys) && (t.keys[p] == key || !Live(t.keys[p]))
    ensures k in r.keys <==> k == key || k in t.keys
    ensures k in r.keys ==> Contents(r)[k] == if k == key then value else Contents(t)[k]
  {
    assert r.keys[p] == key;
    if k == key {
      StoredOnce(r, p);
    } else if k in t.keys {
      var i := IndexOf(t.keys, k);
      assert r.keys[i] == k;
      StoredOnce(r, i);
    }
  }

  lemma InsertUpdatesContents(t: Table, key: Word32, value: Word)
    requires Good(t) && Live(key) && !Loaded(t) && Safe(t, key)
    ensures Insert(t, key, value).1 == 0
    ensures Good(Insert(t, key, value).0) && Contents(Insert(t, key, value).0) == Contents(t)[key := value]
  {
    InsertGoodIffDirect(t, key, value);
    WriteUpdatesContents(t, Insert(t, key, value).0, Target(t, key), key, value);
  }

  // ---------- Remove ----------

  lemma DeleteKeepsReachable(keys: seq<Word32>, p: nat)
    requires Reachable(keys) && p < |keys|
    ensures Reachable(keys[p := TOMBSTONE])
  {
    var n := |keys|;
    var r := keys[p := TOMBSTONE];
    forall i, d | 0 <= i < n && Live(r[i]) && 0 <= d < Dist(HomeOf(r[i], n), i, n)
      ensures At(r, r[i], d) != EMPTY
    {
      assert At(keys, keys[i], d) != EMPTY;
    }
  }

  lemma DeleteUpdatesContents(t: Table, key: Word32)
    requires Good(t) && Live(key)
    ensures Good(Delete(t, key).0) && Contents(Delete(t, key).0) == Contents(t) - {key}
    ensures Delete(t, key).1 == if key in t.keys then 0 else -2
    ensures Delete(t, key).0.count + Delete(t, key).0.tombstones == t.count + t.tombstones
  {
    LookupFindsStored(t, key);
    if key in t.keys {
      var p := Lookup(t, key);
      DeleteKeepsReachable(t.keys, p);
      SlotsUpdate(t.keys, p, TOMBSTONE, IsLive());
      SlotsUpdate(t.keys, p, TOMBSTONE, Is(TOMBSTONE));
      EraseUpdatesContents(t, Delete(t, key).0, p);
    }
  }

  lemma EraseUpdatesContents(t: Table, r: Table, p: nat)
    requires |t.keys| == |t.values| && p < |t.keys| && Live(t.keys[p]) && Unique(t.keys)
    requires r.keys == t.keys[p := TOMBSTONE] && r.values == t.values[p := 0]
    ensures Unique(r.keys) && Contents(r) == Contents(t) - {t.keys[p]}
  {
    forall k | Live(k)
      ensures k in r.keys <==> k != t.keys[p] && k in t.keys
      ensures k in r.keys ==> Contents(r)[k] == Contents(t)[k]
    {
      if k in t.keys {
        var i := IndexOf(t.keys, k);
        if k != t.keys[p] {
          assert r.keys[i] == k;
        }
      }
      if k in r.keys {
        var i := IndexOf(r.keys, k);
        assert t.keys[i] == k;
        StoredOnce(t, i);
      }
    }
  }

  lemma FreshIsGood(capacity: nat)
    requires IsPow2(capacity)
    ensures Good(Fresh(capacity)) && Contents(Fresh(capacity)) == map[]
  {
    var t := Fresh(capacity);
    assert Slots(t.keys, IsLive()) == {} && Slots(t.keys, Is(TOMBSTONE)) == {};
    assert |t.keys| >= 1;
  }

  // ---------- Runs ----------

  datatype Op = InsertOp(key: Word32, value: Word) | DeleteOp(key: Word32) | ClearOp

  function Step(t: Table, op: Op): Table
    requires |t.keys| == |t.values| >= 1
  {
    match op
    case InsertOp(key, value) => Insert(t, key, value).0
    case DeleteOp(key) => Delete(t, key).0
    case ClearOp => Fresh(|t.keys|)
  }

  /** What the operation does to the finite map; an insertion over the load limit is refused. */
  ghost function MapStep(m: map<Word32, Word>, op: Op, refused: bool): map<Word32, Word> {
    match op
    case InsertOp(key, value) => if Live(key) && !refused then m[key := value] else m
    case DeleteOp(key) => m - {key}
    case ClearOp => map[]
  }

  lemma InsertRefinesMap(t: Table, key: Word32, value: Word)
    requires Good(t) && (Live(key) && !Crowded(t.keys) ==> Safe(t, key))
    ensures var (r, code) := Insert(t, key, value);
            && Good(r) && |r.keys| == |t.keys|
            && Contents(r) == MapStep(Contents(t), InsertOp(key, value), Crowded(t.keys))
            && (code == 0 <==> Live(key) && !Crowded(t.keys)) && code != -3
  {
    LoadedIffCrowded(t);
    if Live(key) && !Loaded(t) {
      InsertUpdatesContents(t, key, value);
    }
  }

  /**
   What an insertion and a removal answer: the two reserved keys are invalid, an insertion is refused exactly when three
   quarters of the slots are taken, and otherwise there is always room.
   */
  lemma Codes(t: Table, key: Word32, value: Word)
    requires Good(t)
    ensures var (inserted, removed) := (Insert(t, key, value).1, Delete(t, key).1);
            var taken := |t.keys| - |Slots(t.keys, Is(EMPTY))|;
            && (inserted == -1 <==> key == 0 || key == 1)
            && (inserted == -2 <==> key != 0 && key != 1 && 4 * taken >= 3 * |t.keys|)
            && (inserted == 0 <==> key != 0 && key != 1 && 4 * taken < 3 * |t.keys|)
            && (removed == -1 <==> key == 0 || key == 1)
            && (removed == -2 <==> key != 0 && key != 1 && key !in t.keys)
            && (removed == 0 <==> key != 0 && key != 1 && key in t.keys)
  {
    LoadedIffCrowded(t);
    hide Reachable, Unique;
    if Live(key) && !Loaded(t) {
      InsertNeverFull(t, key);
    }
    LookupFindsStored(t, key);
  }

  lemma DeleteRefinesMap(t: Table, key: Word32)
    requires Good(t)
    ensures var r := Delete(t, key).0;
            Good(r) && |r.keys| == |t.keys| && Contents(r) == Contents(t) - {key}
  {
    if Live(key) {
      DeleteUpdatesContents(t, key);
    } else {
      assert Contents(t) - {key} == Contents(t);
    }
  }

  /** Any operation but an insertion that would stop at a tombstone before the key's own slot. */
  ghost predicate Harmless(t: Table, op: Op)
    requires |t.keys| >= 1
  {
    op.InsertOp? && Live(op.key) && !Crowded(t.keys) ==> Safe(t, op.key)
  }

  lemma StepRefinesMap(t: Table, op: Op)
    requires Good(t) && Harmless(t, op)
    ensures Good(Step(t, op)) && Contents(Step(t, op)) == MapStep(Contents(t), op, Crowded(t.keys))
    ensures |Step(t, op).keys| == |t.keys|
  {
    hide Unique, Reachable, Counted, Contents, Insert, Delete, Crowded;
    match op
    case InsertOp(key, value) => InsertRefinesMap(t, key, value);
    case DeleteOp(key) => DeleteRefinesMap(t, key);
    case ClearOp => FreshIsGood(|t.keys|);
  }

  /** With four slots or more, an empty one always remains. */
  lemma RoomRemains(t: Table, op: Op)
    requires Good(t) && |t.keys| >= 4 && t.count + t.tombstones < |t.keys|
    ensures Step(t, op).count + Step(t, op).tombstones < |t.keys|
  {
    if op.DeleteOp? && Live(op.key) {
      DeleteUpdatesContents(t, op.key);
    }
  }

  /** Slots without a key point nowhere. */
  predicate Blank(t: Table)
    requires |t.keys| == |t.values|
  {
    forall i :: 0 <= i < |t.keys| && !Live(t.keys[i]) ==> t.values[i] == 0
  }

  lemma StepKeepsBlank(t: Table, op: Op)
    requires Good(t) && Blank(t)
    ensures |Step(t, op).keys| == |Step(t, op).values| && Blank(Step(t, op))
  {
    hide Reachable, Unique, Counted;
    if op.DeleteOp? {
      LookupFindsStored(t, op.key);
    }
  }

  /** One operation keeps the table well formed exactly when it is harmless. */
  lemma StepGoodIff(t: Table, op: Op)
    requires Good(t)
    ensures Good(Step(t, op)) <==> Harmless(t, op)
  {
    LoadedIffCrowded(t);
    hide Unique, Reachable, Counted, Contents, Insert, Delete, Crowded;
    if Harmless(t, op) {
      StepRefinesMap(t, op);
    } else {
      InsertGoodIffDirect(t, op.key, op.value);
    }
  }

  /** The runs that keep the table well formed: insertions of absent keys among them, removals and clears. */
  ghost predicate Admissible(t: Table, ops: seq<Op>)
    requires Good(t)
    decreases |ops|
  {
    ops == [] ||
    (Harmless(t, ops[0]) &&
     (StepRefinesMap(t, ops[0]); Admissible(Step(t, ops[0]), ops[1..])))
  }

  ghost function Run(t: Table, ops: seq<Op>): Table
    requires Good(t) && Admissible(t, ops)
    decreases |ops|
  {
    if ops == [] then t
    else
      StepRefinesMap(t, ops[0]);
      Run(Step(t, ops[0]), ops[1..])
  }

  /** Which operations of the run the load limit refuses. */
  ghost function Refusals(t: Table, ops: seq<Op>): (r: seq<bool>)
    requires Good(t) && Admissible(t, ops)
    ensures |r| == |ops|
    decreases |ops|
  {
    if ops == [] then []
    else
      StepRefinesMap(t, ops[0]);
      [Crowded(t.keys)] + Refusals(Step(t, ops[0]), ops[1..])
  }

  /** The run on the finite map. */
  ghost function MapRun(m: map<Word32, Word>, ops: seq<Op>, refused: seq<bool>): map<Word32, Word>
    requires |refused| == |ops|
    decreases |ops|
  {
    if ops == [] then m else MapRun(MapStep(m, ops[0], refused[0]), ops[1..], refused[1..])
  }

  /** Over every admissible run the table stands for the finite map, and small loads never fill it. */
  lemma {:induction false} RunsRefineMap(t: Table, ops: seq<Op>)
    requires Good(t) && Admissible(t, ops)
    ensures var r := Run(t, ops);
            && Good(r) && |r.keys| == |t.keys|
            && Contents(r) == MapRun(Contents(t), ops, Refusals(t, ops))
            && (|t.keys| >= 4 && t.count + t.tombstones < |t.keys| ==> r.count + r.tombstones < |r.keys|)
            && (Blank(t) ==> Blank(r))
    decreases |ops|
  {
    if ops != [] {
      StepRefinesMap(t, ops[0]);
      if |t.keys| >= 4 && t.count + t.tombstones < |t.keys| {
        RoomRemains(t, ops[0]);
      }
      if Blank(t) {
        StepKeepsBlank(t, ops[0]);
      }
      RunsRefineMap(Step(t, ops[0]), ops[1..]);
      var rest := Refusals(Step(t, ops[0]), ops[1..]);
      assert ([Crowded(t.keys)] + rest)[1..] == rest;
    }
  }

  ghost function LiveKeys(keys: seq<Word32>): set<Word32> {
    set k | k in keys && Live(k)
  }

  /** `count` is the number of entries of the map. */
  lemma CountIsSize(t: Table)
    requires Good(t)
    ensures t.count == |Contents(t)|
  {
    LiveKeysAreCounted(t.keys);
    assert Contents(t).Keys == LiveKeys(t.keys);
    assert |Contents(t)| == |Contents(t).Keys|;
  }

  lemma {:induction false} LiveKeysAreCounted(keys: seq<Word32>)
    requires Unique(keys)
    ensures |LiveKeys(keys)| == |Slots(keys, IsLive())|
    decreases |keys|
  {
    if keys != [] {
      var n := |keys| - 1;
      assert keys[..n] + [keys[n]] == keys;
      LiveKeysAreCounted(keys[..n]);
      LiveKeysAppend(keys[..n], keys[n]);
      SlotsAppend(keys[..n], keys[n], IsLive());
    }
  }

  lemma SlotsAppend(keys: seq<Word32>, k: Word32, p: Word32 -> bool)
    ensures |Slots(keys + [k], p)| == |Slots(keys, p)| + (if p(k) then 1 else 0)
  {
    assert Slots(keys + [k], p) == Slots(keys, p) + (if p(k) then {|keys|} else {});
  }

  lemma LiveKeysAppend(keys: seq<Word32>, k: Word32)
    requires Unique(keys + [k])
    ensures LiveKeys(keys + [k]) == LiveKeys(keys) + (if Live(k) then {k} else {})
    ensures Live(k) ==> k !in LiveKeys(keys)
  {
    if k in keys {
      var i := IndexOf(keys, k);
      assert (keys + [k])[i] == (keys + [k])[|keys|];
    }
  }

  // ---------- Inserting a stored key again ----------

  /** Five keys in four slots: two of them start their probes in the same place. */
  lemma SharedHome() returns (x: Word32, y: Word32)
    ensures Live(x) && Live(y) && x != y && HomeOf(x, 4) == HomeOf(y, 4)
  {
    hide HomeOf;
    var h2, h3, h4, h5, h6 := HomeOf(2, 4), HomeOf(3, 4), HomeOf(4, 4), HomeOf(5, 4), HomeOf(6, 4);
    if h2 == h3 { return 2, 3; }
    if h2 == h4 || h3 == h4 { return (if h2 == h4 then 2 else 3), 4; }
    if h2 == h5 || h3 == h5 || h4 == h5 { return (if h2 == h5 then 2 else if h3 == h5 then 3 else 4), 5; }
    return (if h2 == h6 then 2 else if h3 == h6 then 3 else if h4 == h6 then 4 else 5), 6;
  }

  lemma LookupDependsOnKeys(t: Table, r: Table, key: Word32)
    requires |t.keys| >= 1 && r.keys == t.keys
    ensures Lookup(r, key) == Lookup(t, key)
  {
  }

  /** An insertion that stops short of the key's own slot stops at a tombstone. */
  lemma StopsAtTombstone(t: Table, key: Word32)
    requires Good(t) && Live(key) && !Loaded(t) && !Safe(t, key)
    ensures Place(t.keys, key) < |t.keys| && key in t.keys && t.keys[Target(t, key)] == TOMBSTONE
  {
    InsertNeverFull(t, key);
    var n, d := |t.keys|, Place(t.keys, key);
    var i := IndexOf(t.keys, key);
    var e := Dist(HomeOf(key, n), i, n);
    assert At(t.keys, key, e) == key;
    assert At(t.keys, key, d) == t.keys[Target(t, key)];
    if d < e {
      assert At(t.keys, t.keys[i], d) != EMPTY;
    }
  }

  /** A lookup after the insertion finds the slot just written. */
  lemma LookupAfterInsert(t: Table, key: Word32, value: Word)
    requires Good(t) && Live(key) && !Loaded(t) && Place(t.keys, key) < |t.keys|
    ensures Insert(t, key, value).0.keys == t.keys[Target(t, key) := key]
    ensures Lookup(Insert(t, key, value).0, key) == Target(t, key)
  {
    var n, d, p := |t.keys|, Place(t.keys, key), Target(t, key);
    var r := t.keys[p := key];
    forall e | 0 <= e < d ensures !FindStop(key)(At(r, key, e)) {
      assert !PlaceStop(key)(At(t.keys, key, e));
      assert Cyc(HomeOf(key, n), e, n) != p;
    }
    assert At(r, key, d) == key;
    FirstStop(r, key, 0, d);
  }

  lemma {:induction false} FirstStop(keys: seq<Word32>, key: Word32, e: nat, d: nat)
    requires |keys| >= 1 && e <= d < |keys| && At(keys, key, d) == key
    requires forall k :: e <= k < d ==> !FindStop(key)(At(keys, key, k))
    ensures ProbeFrom(keys, key, FindStop(key), e) == d
    decreases d - e
  {
    if e < d {
      FirstStop(keys, key, e + 1, d);
    }
  }

  /** Inserting a key and removing it again makes it disappear exactly when the insertion was direct. */
  lemma InsertThenRemoveIff(t: Table, key: Word32, value: Word)
    requires Good(t) && Live(key) && !Loaded(t)
    ensures Place(t.keys, key) < |t.keys|
    ensures Lookup(Delete(Insert(t, key, value).0, key).0, key) == -1 <==> Direct(t, key)
  {
    InsertNeverFull(t, key);
    var t1 := Insert(t, key, value).0;
    var t2 := Delete(t1, key).0;
    if Direct(t, key) {
      InsertUpdatesContents(t, key, value);
      DeleteUpdatesContents(t1, key);
      LookupReadsContents(t2, key);
    } else {
      StopsAtTombstone(t, key);
      LookupAfterInsert(t, key, value);
      assert t2.keys == t.keys;
      LookupDependsOnKeys(t, t2, key);
      LookupFindsStored(t, key);
    }
  }

  /**
   Such an insertion in a run: in a table of four slots, with `y` stored behind a key that is then removed, a second
   insertion of `y` stops at the tombstone and writes a second copy, and removing `y` leaves the old value to be found.
   */
  lemma ReinsertLeavesSecondCopy() returns (x: Word32, y: Word32)
    ensures Live(x) && Live(y)
    ensures var t1 := Insert(Fresh(4), x, 10).0;
            var t2 := Insert(t1, y, 20).0;
            var t3 := Delete(t2, x).0;
            var (t4, inserted) := Insert(t3, y, 30);
            var (t5, deleted) := Delete(t4, y);
            && inserted == 0 && !Unique(t4.keys)
            && deleted == 0 && Lookup(t5, y) != -1
  {
    x, y := SharedHome();
    hide HomeOf;
    var h := HomeOf(x, 4);
    var g := Cyc(h, 1, 4);
    var t0 := Fresh(4);
    assert At(t0.keys, x, 0) == EMPTY;
    var t1 := Insert(t0, x, 10).0;
    assert t1.keys == t0.keys[h := x];
    assert At(t1.keys, y, 0) == x && At(t1.keys, y, 1) == EMPTY;
    var t2 := Insert(t1, y, 20).0;
    assert t2.keys == t1.keys[g := y] && t2.values[g] == 20;
    assert At(t2.keys, x, 0) == x;
    var t3 := Delete(t2, x).0;
    assert t3.keys == t2.keys[h := TOMBSTONE] && t3.values[g] == 20;
    assert At(t3.keys, y, 0) == TOMBSTONE;
    var t4 := Insert(t3, y, 30).0;
    assert t4.keys == t3.keys[h := y] && t4.keys[g] == y && t4.values[g] == 20;
    assert At(t4.keys, y, 0) == y;
    var t5 := Delete(t4, y).0;
    assert t5.keys == t4.keys[h := TOMBSTONE] && t5.values[g] == 20;
    assert At(t5.keys, y, 0) == TOMBSTONE && At(t5.keys, y, 1) == y;
  }

  // ---------- The table in memory ----------

  class HashTable32 {
    const capacity: nat
    const keys: array<Word32>
    const values: array<Word>
    var count: int
    var tombstones: int

    ghost function Abs(): Table
      reads this, keys, values
    {
      Table(keys[..], values[..], count, tombstones)
    }

    ghost predicate Valid()
      reads this, keys, values
    {
      keys.Length == values.Length == capacity && IsPow2(capacity) && capacity >= 1
    }

    /** `hash_table32_init`; masking needs the capacity to be a power of two. */
    constructor (capacity: nat)
      requires IsPow2(capacity) && capacity >= 1
      ensures Valid() && fresh(keys) && fresh(values) && this.capacity == capacity
      ensures Abs() == Fresh(capacity)
    {
      this.capacity := capacity;
      keys := new Word32[capacity](_ => EMPTY);
      values := new Word[capacity](_ => 0);
      count, tombstones := 0, 0;
      new;
      assert keys[..] == seq(capacity, _ => EMPTY);
      assert values[..] == seq(capacity, _ => 0);
    }

    /** `hash_table32_lookup`: the slot it points into, or -1 for NULL. */
    method Find(key: Word32) returns (slot: int)
      requires Valid()
      ensures slot == Lookup(Abs(), key)
    {
      if key == EMPTY || key == TOMBSTONE {
        return -1;
      }
      hide HomeOf, Cyc;
      var idx := HomeOf(key, capacity);
      CycZero(idx, capacity);
      var probeCount := 0;
      while probeCount < capacity
        invariant 0 <= probeCount <= capacity
        invariant probeCount < capacity ==> idx == Cyc(HomeOf(key, capacity), probeCount, capacity)
        invariant ProbeFrom(keys[..], key, FindStop(key), 0) == ProbeFrom(keys[..], key, FindStop(key), probeCount)
      {
        var slotKey := keys[idx];
        assert slotKey == At(keys[..], key, probeCount);
        if slotKey == key {
          return idx;
        }
        if slotKey == EMPTY {
          return -1;
        }
        MaskSteps(HomeOf(key, capacity), probeCount, capacity);
        idx := BitAnd(idx + 1, capacity - 1);
        probeCount := probeCount + 1;
      }
      return -1;
    }

    method Store(idx: nat, key: Word32, value: Word)
      requires Valid() && idx < capacity
      modifies keys, values
      ensures keys[..] == old(keys[..])[idx := key] && values[..] == old(values[..])[idx := value]
    {
      keys[idx] := key;
      values[idx] := value;
    }

    /** The probe loop of `hash_table32_insert`: the slot to write to, or -1. */
    method FindPlace(key: Word32) returns (slot: int)
      requires Valid()
      ensures var d := Place(keys[..], key);
              slot == if d == capacity then -1 else Cyc(HomeOf(key, capacity), d, capacity)
    {
      hide HomeOf, Cyc;
      var idx := HomeOf(key, capacity);
      CycZero(idx, capacity);
      var probeCount := 0;
      while probeCount < capacity
        invariant 0 <= probeCount <= capacity
        invariant probeCount < capacity ==> idx == Cyc(HomeOf(key, capacity), probeCount, capacity)
        invariant Place(keys[..], key) == ProbeFrom(keys[..], key, PlaceStop(key), probeCount)
      {
        var slotKey := keys[idx];
        assert slotKey == At(keys[..], key, probeCount);
        if slotKey == key || slotKey == EMPTY || slotKey == TOMBSTONE {
          return idx;
        }
        MaskSteps(HomeOf(key, capacity), probeCount, capacity);
        idx := BitAnd(idx + 1, capacity - 1);
        probeCount := probeCount + 1;
      }
      return -1;
    }

    /** `hash_table32_insert` */
    method Put(key: Word32, value: Word) returns (code: int)
      requires Valid()
      modifies this, keys, values
      ensures Valid() && (Abs(), code) == Insert(old(Abs()), key, value)
    {
      if key == EMPTY || key == TOMBSTONE {
        return -1;
      }
      if 4 * (count + tombstones) >= 3 * capacity {
        return -2;
      }
      hide HomeOf, Cyc, Place, ProbeFrom, At, Lookup;
      var idx := FindPlace(key);
      if idx == -1 {
        return -3;
      }
      if keys[idx] != key {
        if keys[idx] == TOMBSTONE {
          tombstones := tombstones - 1;
        }
        count := count + 1;
      }
      Store(idx, key, value);
      return 0;
    }

    /** `hash_table32_remove` */
    method Remove(key: Word32) returns (code: int)
      requires Valid()
      modifies this, keys, values
      ensures Valid() && (Abs(), code) == Delete(old(Abs()), key)
    {
      if key == EMPTY || key == TOMBSTONE {
        return -1;
      }
      var slot := Find(key);
      if slot == -1 {
        return -2;
      }
      ghost var t := Abs();
      keys[slot] := TOMBSTONE;
      values[slot] := 0;
      count := count - 1;
      tombstones := tombstones + 1;
      assert keys[..] == t.keys[slot := TOMBSTONE];
      assert values[..] == t.values[slot := 0];
      return 0;
    }

    /** `hash_table32_clear` */
    method Clear()
      requires Valid()
      modifies this, keys, values
      ensures Valid() && Abs() == Fresh(capacity)
    {
      forall i | 0 <= i < keys.Length {
        keys[i] := EMPTY;
      }
      forall i | 0 <= i < values.Length {
        values[i] := 0;
      }
      count, tombstones := 0, 0;
      assert keys[..] == seq(capacity, _ => EMPTY);
      assert values[..] == seq(capacity, _ => 0);
    }
  }
}
