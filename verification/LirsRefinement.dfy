/** The cache as seen by its user: a map of resident keys that only `lirs_put` and `lirs_remove` change. */
module LirsRefinement {
  import opened Words
  import opened Seqs
  import opened LirsModel
  import opened LirsInvariant

  ghost function ResidentMap(c: Cache): map<Word, Word> {
    Residents(c.index)
  }

  ghost function Residents(m: map<Word, Entry>): map<Word, Word> {
    map k | k in m && m[k].kind != Ghost :: m[k].value
  }

  /** `lirs_size` */
  function Size(c: Cache): int {
    c.stats.lirCount + c.stats.hirCount
  }

  /** `lirs_contains` */
  predicate Contains(c: Cache, key: Word) {
    key != NULL && key in c.index && c.index[key].kind != Ghost
  }

  lemma SizeIsResidentCount(c: Cache)
    requires Inv(c)
    ensures Size(c) == |ResidentMap(c)|
    ensures forall key :: key != NULL ==> (Contains(c, key) <==> key in ResidentMap(c))
  {
    var lir, hir := OfKind(c.index, Lir), OfKind(c.index, Resident);
    assert ResidentMap(c).Keys == lir + hir && lir !! hir;
    assert |ResidentMap(c)| == |ResidentMap(c).Keys|;
  }

  lemma SameBlocksSameMap(c: Cache, r: Cache)
    requires SameBlocks(c, r)
    ensures ResidentMap(r) == ResidentMap(c)
  {
  }

  lemma PruneKeepsMap(c: Cache)
    requires Shape(c)
    ensures ResidentMap(Prune(c)) == ResidentMap(c)
  {
    PruneTrims(c);
    SameBlocksSameMap(c, Prune(c));
  }

  /** `lirs_get` reads the map and leaves it alone, whatever it promotes, demotes and prunes. */
  lemma GetReadsMap(c: Cache, key: Word)
    requires Ready(c)
    ensures Get(c, key).1 == (if key != NULL && key in ResidentMap(c) then ResidentMap(c)[key] else NULL)
    ensures ResidentMap(Get(c, key).0) == ResidentMap(c)
  {
    if key != NULL && key in c.index {
      var c1 := Touch(c, key);
      assert ResidentMap(c1) == ResidentMap(c);
      match c.index[key].kind
      case Lir => RaiseKeepsMap(Hit(c1), key);
      case Resident => HitKeepsMap(Hit(c1), key);
      case Ghost => DropKeepsMap(Miss(c1), key);
    }
  }

  lemma RaiseKeepsMap(c: Cache, key: Word)
    requires Shape(c) && key in c.index
    ensures ResidentMap(Prune(Raise(c, key))) == ResidentMap(Raise(c, key)) == ResidentMap(c)
  {
    SameBlocksSameMap(c, Raise(c, key));
    PruneKeepsMap(Raise(c, key));
  }

  lemma DropKeepsMap(c: Cache, key: Word)
    requires Shape(c) && key in c.index && c.index[key].kind == Ghost
    ensures ResidentMap(Prune(DropFromS(c, key))) == ResidentMap(c)
  {
    SameBlocksSameMap(c, DropFromS(c, key));
    PruneKeepsMap(DropFromS(c, key));
  }

  lemma HitKeepsMap(c: Cache, key: Word)
    requires Ready(c) && key in c.index && c.index[key].kind == Resident
    ensures ResidentMap(HitResident(c, key)) == ResidentMap(c)
  {
    if c.index[key].inS {
      HitInStack(c, key);
      TradeKeepsBlocks(c, key);
      var c1 := TradePlaces(c, key);
      SameBlocksSameMap(c, c1);
      RaiseKeepsMap(c1, key);
    } else {
      RaiseKeepsMap(c, key);
    }
  }

  /** A new block enters as HIR once S holds `capacity - hir_capacity` blocks. */
  predicate EntersAsHir(c: Cache) {
    c.sSize >= LirLimit(c)
  }

  /** The blocks that make room for a new one: the head of Q, when Q is full and the block goes there. */
  function Victim(c: Cache): set<Word> {
    if EntersAsHir(c) && |c.q| == c.hirCapacity && c.q != [] then {c.q[0]} else {}
  }

  predicate Accepts(c: Cache, key: Word, size: Word, gotBlock: bool) {
    key != NULL && key !in c.index && !OverBudget(c, size) && gotBlock
  }

  /** `lirs_put`, in all its cases, as an update of the map. */
  lemma PutUpdatesMap(c: Cache, key: Word, value: Word, size: Word, gotBlock: bool)
    requires Ready(c) && c.hirCapacity >= 1
    ensures ResidentMap(Put(c, key, value, size, gotBlock).0) ==
            if key != NULL && key in ResidentMap(c) then ResidentMap(c)[key := value]
            else if Accepts(c, key, size, gotBlock) then ResidentMap(c)[key := value] - Victim(c)
            else ResidentMap(c)
  {
    if key == NULL {
    } else if key in c.index {
      OverwriteUpdatesMap(c, key, value, size);
    } else if OverBudget(c, size) {
      PruneKeepsMap(c);
    } else if gotBlock {
      AdmitUpdatesMap(c, key, value, size);
    }
  }

  lemma OverwriteUpdatesMap(c: Cache, key: Word, value: Word, size: Word)
    requires Shape(c) && key in c.index
    ensures ResidentMap(Overwrite(c, key, value, size)) ==
            if key in ResidentMap(c) then ResidentMap(c)[key := value] else ResidentMap(c)
  {
  }

  lemma AdmitUpdatesMap(c: Cache, key: Word, value: Word, size: Word)
    requires Ready(c) && c.hirCapacity >= 1 && key !in c.index
    ensures ResidentMap(EvictHir(Prune(Admit(c, key, value, size)))) == ResidentMap(c)[key := value] - Victim(c)
  {
    var c1 := Admit(c, key, value, size);
    AdmitAddsToMap(c, key, value, size);
    PruneKeepsMap(c1);
    PruneTrims(c1);
    EvictAtMostOne(Prune(c1));
  }

  lemma AdmitAddsToMap(c: Cache, key: Word, value: Word, size: Word)
    requires Ready(c) && c.hirCapacity >= 1 && key !in c.index
    ensures var r := Admit(c, key, value, size);
            && ResidentMap(r) == ResidentMap(c)[key := value]
            && r.hirCapacity == c.hirCapacity && |r.q| <= c.hirCapacity + 1
            && Victim(c) == (if |r.q| > c.hirCapacity then {r.q[0]} else {})
  {
  }

  /** With one block too many in Q, exactly its head stops being resident. */
  lemma EvictAtMostOne(c: Cache)
    requires Shape(c) && |c.q| <= c.hirCapacity + 1
    ensures ResidentMap(EvictHir(c)) == ResidentMap(c) - (if |c.q| > c.hirCapacity then {c.q[0]} else {})
  {
    if |c.q| > c.hirCapacity {
      var r := EvictHead(c);
      assert EvictHir(c) == EvictHir(r);
      assert EvictHir(r) == r;
      EvictHeadDropsFromMap(c);
    }
  }

  lemma EvictHeadDropsFromMap(c: Cache)
    requires Shape(c) && c.q != []
    ensures ResidentMap(EvictHead(c)) == ResidentMap(c) - {c.q[0]}
  {
    var k := c.q[0];
    var g := c.index[k].(inQ := false, kind := Ghost);
    assert EvictHead(c).index == if c.index[k].inS then c.index[k := g] else c.index[k := g] - {k};
    GhostDropsFromMap(c.index, k, g);
  }

  lemma GhostDropsFromMap(m: map<Word, Entry>, k: Word, g: Entry)
    requires g.kind == Ghost
    ensures Residents(m[k := g]) == Residents(m) - {k} == Residents(m[k := g] - {k})
  {
  }

  /** The victim stays behind as a ghost, with its value, exactly when S still holds it. */
  lemma EvictionLeavesGhost(c: Cache)
    requires Shape(c) && c.q != []
    ensures var k := c.q[0];
            var r := EvictHead(c);
            && (k in r.index <==> c.index[k].inS)
            && (k in r.index ==> r.index[k].kind == Ghost && r.index[k].value == c.index[k].value
                                 && r.released == c.released)
            && (k !in r.index ==> r.released == c.released + Fire(c, k, c.index[k]))
  {
    assert c.q[0] in c.q;
  }

  /**
   A put that evicts leaves the evicted block behind as a ghost, unreleased and with its value, exactly when S still
   holds it after pruning.
   */
  lemma PutLeavesGhostIff(c: Cache, key: Word, value: Word, size: Word)
    requires Ready(c) && c.hirCapacity >= 1 && Accepts(c, key, size, true) && Victim(c) != {}
    ensures c.q != [] && c.q[0] in c.index
    ensures var k := c.q[0]; var p := Prune(Admit(c, key, value, size)); var r := Put(c, key, value, size, true).0;
            && (k in r.index <==> k in p.s)
            && (k in r.index ==>
                  r.index[k].kind == Ghost && r.index[k].value == c.index[k].value && r.released == p.released)
  {
    var c1 := Admit(c, key, value, size);
    var p := Prune(c1);
    assert c.q[0] in c.q;
    VictimAfterAdmit(c, key, value, size);
    PruneTrims(c1);
    hide Admit, Prune, Victim, Trimmed, EvictHead;
    OneTooMany(p);
    EvictionLeavesGhost(p);
  }

  lemma OneTooMany(c: Cache)
    requires Shape(c) && |c.q| == c.hirCapacity + 1
    ensures EvictHir(c) == EvictHead(c) && c.q[0] in c.index && (c.index[c.q[0]].inS <==> c.q[0] in c.s)
  {
    assert c.q[0] in c.q;
  }

  lemma VictimAfterAdmit(c: Cache, key: Word, value: Word, size: Word)
    requires Ready(c) && c.hirCapacity >= 1 && Accepts(c, key, size, true) && Victim(c) != {}
    ensures var p := Prune(Admit(c, key, value, size));
            && |p.q| == p.hirCapacity + 1 && p.q[0] == c.q[0] && c.q[0] in c.index && c.q[0] in p.index
            && p.index[c.q[0]].value == c.index[c.q[0]].value
  {
    var c1 := Admit(c, key, value, size);
    assert c.q[0] in c.q && c1.q[0] == c.q[0] && c1.index[c.q[0]] == c.index[c.q[0]];
    PruneTrims(c1);
    assert c1.q[0] in c1.q;
    assert Prune(c1).q == c1.q && c1.q[0] in Prune(c1).index;
  }

  lemma DeleteRemovesFromMap(c: Cache, key: Word)
    requires Ready(c)
    ensures ResidentMap(Delete(c, key).0) == (if key == NULL then ResidentMap(c) else ResidentMap(c) - {key})
    ensures Delete(c, key).1 == 0 <==> key != NULL && key in c.index
    ensures key != NULL ==> key !in Delete(c, key).0.index
  {
    if key != NULL && key in c.index {
      UnlinkRemovesFromMap(c, key);
      PruneKeepsMap(Unlink(c, key));
      PruneTrims(Unlink(c, key));
    }
  }

  lemma UnlinkRemovesFromMap(c: Cache, key: Word)
    requires Shape(c) && key in c.index
    ensures ResidentMap(Unlink(c, key)) == ResidentMap(c) - {key} && key !in Unlink(c, key).index
  {
  }

  // ---------- A put read back ----------

  lemma CodeOfPut(c: Cache, key: Word, value: Word, size: Word, gotBlock: bool)
    requires Ready(c)
    ensures Put(c, key, value, size, gotBlock).1 == 0 <==>
            key != NULL && (key in c.index || Accepts(c, key, size, gotBlock))
  {
  }

  lemma NewKeyIsNoVictim(c: Cache, key: Word)
    requires Ready(c) && key !in c.index
    ensures key !in Victim(c)
  {
    assert c.q != [] ==> c.q[0] in c.q;
  }

  /** After a put that succeeds, a lookup returns the value exactly when the key was not a ghost. */
  lemma PutThenGet(c: Cache, key: Word, value: Word, size: Word, gotBlock: bool)
    requires Inv(c) && key != NULL && value != NULL && Put(c, key, value, size, gotBlock).1 == 0
    ensures Inv(Put(c, key, value, size, gotBlock).0)
    ensures Get(Put(c, key, value, size, gotBlock).0, key).1 == value <==>
            !(key in c.index && c.index[key].kind == Ghost)
  {
    PutKeeps(c, key, value, size, gotBlock);
    CodeOfPut(c, key, value, size, gotBlock);
    PutUpdatesMap(c, key, value, size, gotBlock);
    GetReadsMap(Put(c, key, value, size, gotBlock).0, key);
    if key !in c.index {
      NewKeyIsNoVictim(c, key);
    }
  }

  /**
   For each key the value put last, with success, since it was removed or the cache cleared; at first, what `c` holds.
   */
  ghost function LastPut(c: Cache, ops: seq<Op>): map<Word, Word>
    requires Inv(c)
    decreases |ops|
  {
    if ops == [] then ResidentMap(c)
    else NoteOp(Run(c, ops[..|ops| - 1]), Last(ops), LastPut(c, ops[..|ops| - 1]))
  }

  ghost function NoteOp(c: Cache, op: Op, m: map<Word, Word>): map<Word, Word>
    requires Ready(c)
  {
    match op
    case GetOp(_) => m
    case PutOp(key, value, size, gotBlock) =>
      if Put(c, key, value, size, gotBlock).1 == 0 then m[key := value] else m
    case DeleteOp(key) => if key == NULL then m else m - {key}
    case ClearOp => map[]
  }

  ghost predicate PartOf(a: map<Word, Word>, b: map<Word, Word>) {
    forall k :: k in a ==> k in b && b[k] == a[k]
  }

  lemma PutIsNoted(c: Cache, key: Word, value: Word, size: Word, gotBlock: bool, m: map<Word, Word>)
    requires Inv(c) && PartOf(ResidentMap(c), m)
    ensures PartOf(ResidentMap(Put(c, key, value, size, gotBlock).0),
                   if Put(c, key, value, size, gotBlock).1 == 0 then m[key := value] else m)
  {
    assert key in ResidentMap(c) ==> key in c.index;
    hide Shape, Books, RecentExcept, Put, Victim, Accepts, ResidentMap;
    PutUpdatesMap(c, key, value, size, gotBlock);
    CodeOfPut(c, key, value, size, gotBlock);
  }

  lemma StepKeepsLastPut(c: Cache, op: Op, m: map<Word, Word>)
    requires Inv(c) && PartOf(ResidentMap(c), m)
    ensures PartOf(ResidentMap(Step(c, op)), NoteOp(c, op, m))
  {
    match op
    case GetOp(key) => GetReadsMap(c, key);
    case PutOp(key, value, size, gotBlock) => PutIsNoted(c, key, value, size, gotBlock, m);
    case DeleteOp(key) => DeleteRemovesFromMap(c, key);
    case ClearOp => assert ResidentMap(Clear(c)) == map[];
  }

  lemma {:induction false} ResidentsAreLastPut(c: Cache, ops: seq<Op>)
    requires Inv(c)
    ensures PartOf(ResidentMap(Run(c, ops)), LastPut(c, ops))
    decreases |ops|
  {
    hide Inv, Shape, ResidentMap, Step, NoteOp;
    if ops != [] {
      var before := ops[..|ops| - 1];
      ResidentsAreLastPut(c, before);
      StepKeepsLastPut(Run(c, before), Last(ops), LastPut(c, before));
    }
  }

  /** After any run from a new cache `lirs_get` returns NULL or the value put last for its key and not removed since. */
  lemma GetReturnsLastPut(capacity: Word, maxSize: Word, callback: bool, ops: seq<Op>, key: Word)
    ensures var start := Create(capacity, maxSize, callback);
            Inv(start) && (var (c, m) := (Run(start, ops), LastPut(start, ops));
            Get(c, key).1 != NULL ==> key in m && Get(c, key).1 == m[key])
  {
    var start := Create(capacity, maxSize, callback);
    CreateEstablishesInvariant(capacity, maxSize, callback);
    ResidentsAreLastPut(start, ops);
    GetReadsMap(Run(start, ops), key);
  }
}
