/**
 A run that leaves more blocks resident than the cache's capacity: the block count is bounded by
 `LirsLimits.SizeWithinSlack`, not by the capacity itself.
 */
module LirsWitness {
  import opened Words
  import opened Seqs
  import opened LirsModel
  import opened LirsInvariant
  import opened LirsRefinement
  import opened LirsLimits
  import opened LirsBins

  function B(key: Word, kind: Kind, time: nat, inS: bool): Entry {
    Entry(key, 1, kind, time, inS, kind == Resident)
  }

  function Add(key: Word): Op {
    PutOp(key, key, 1, true)
  }

  /** A cache for two blocks with this content. */
  ghost predicate At(c: Cache, s: seq<Word>, q: seq<Word>, m: map<Word, Entry>, lir: int, clock: nat) {
    && c.capacity == 2 && c.hirCapacity == 2 && c.maxSize == 100
    && c.s == s && c.sSize == |s| && c.q == q && c.qSize == |q| && c.index == m
    && c.stats.lirCount == lir && c.stats.hirCount == |q| && c.clock == clock && c.stats.totalSize == lir + |q|
  }

  ghost predicate At0(c: Cache) {
    At(c, [], [], map[], 0, 0)
  }

  ghost predicate At1(c: Cache) {
    At(c, [], [1], map[1 := B(1, Resident, 1, false)], 0, 1)
  }

  ghost predicate At2(c: Cache) {
    At(c, [], [1, 2], map[1 := B(1, Resident, 1, false), 2 := B(2, Resident, 2, false)], 0, 2)
  }

  ghost predicate At3(c: Cache) {
    At(c, [1], [1, 2], map[1 := B(1, Resident, 3, true), 2 := B(2, Resident, 2, false)], 0, 3)
  }

  ghost predicate At4(c: Cache) {
    At(c, [2, 1], [1, 2], map[1 := B(1, Resident, 3, true), 2 := B(2, Resident, 4, true)], 0, 4)
  }

  ghost predicate At5(c: Cache) {
    At(c, [2], [1], map[1 := B(1, Resident, 3, false), 2 := B(2, Lir, 5, true)], 1, 5)
  }

  ghost predicate At6(c: Cache) {
    At(c, [3, 2], [1, 3],
       map[1 := B(1, Resident, 3, false), 2 := B(2, Lir, 5, true), 3 := B(3, Resident, 6, true)], 1, 6)
  }

  ghost predicate At7(c: Cache) {
    At(c, [4, 3, 2], [3, 4],
       map[2 := B(2, Lir, 5, true), 3 := B(3, Resident, 6, true), 4 := B(4, Resident, 7, true)], 1, 7)
  }

  /** Block 3 has been evicted while S still holds it. */
  ghost predicate At8(c: Cache) {
    At(c, [5, 4, 3, 2], [4, 5],
       map[2 := B(2, Lir, 5, true), 3 := B(3, Ghost, 6, true), 4 := B(4, Resident, 7, true),
           5 := B(5, Resident, 8, true)],
       1, 8)
  }

  lemma PruneUnrolls(c: Cache)
    requires Shape(c) && c.s != [] && c.index[Last(c.s)].kind != Lir
    ensures Prune(c) == Prune(PopBottom(c))
    ensures |c.s| == 1 || c.index[c.s[|c.s| - 2]].kind == Lir ==> Prune(c) == PopBottom(c)
  {
  }

  lemma Step1(c: Cache)
    requires Ready(c) && At0(c)
    ensures At1(Step(c, Add(1)))
  {
    PruneUnrolls(Admit(c, 1, 1, 1));
  }

  lemma Step2(c: Cache)
    requires Ready(c) && At1(c)
    ensures At2(Step(c, Add(2)))
  {
    PruneUnrolls(Admit(c, 2, 2, 1));
  }

  lemma Step3(c: Cache)
    requires Ready(c) && At2(c)
    ensures At3(Step(c, GetOp(1)))
  {
  }

  lemma Step4(c: Cache)
    requires Ready(c) && At3(c)
    ensures At4(Step(c, GetOp(2)))
  {
  }

  /** The block under the promoted one is HIR, so it is pruned rather than demoted. */
  lemma PromoteSecond(c: Cache)
    requires Ready(c) && At(c, [2, 1], [1, 2], map[1 := B(1, Resident, 3, true), 2 := B(2, Resident, 5, true)], 0, 5)
    ensures At(TradePlaces(c, 2), [2], [1], map[1 := B(1, Resident, 3, false), 2 := B(2, Lir, 5, true)], 1, 5)
  {
    var c1 := TurnLir(c, 2);
    assert At(c1, [2, 1], [1], map[1 := B(1, Resident, 3, true), 2 := B(2, Lir, 5, true)], 1, 5);
    PruneUnrolls(c1);
  }

  lemma SameMapFive(a: Entry, b: Entry)
    ensures map[1 := a, 2 := b][2 := b] == map[1 := a, 2 := b]
  {
  }

  lemma Step5(c: Cache)
    requires Ready(c) && At4(c)
    ensures At5(Step(c, GetOp(2)))
  {
    var c1 := Hit(Touch(c, 2));
    PromoteSecond(c1);
    HitInStack(c1, 2);
    hide Shape, TradePlaces, HitResident;
    SameMapFive(B(1, Resident, 3, false), B(2, Lir, 5, true));
  }

  lemma Step6(c: Cache)
    requires Ready(c) && At5(c)
    ensures At6(Step(c, Add(3)))
  {
  }

  /** Nothing is pruned while an LIR block is at the bottom. */
  lemma PruneStays(c: Cache)
    requires Shape(c) && c.s != [] && c.index[Last(c.s)].kind == Lir
    ensures Prune(c) == c
  {
    assert c.index[Last(c.s)].inS;
  }

  lemma EvictUnrolls(c: Cache)
    requires Shape(c) && |c.q| == c.hirCapacity + 1
    ensures EvictHir(c) == EvictHead(c)
  {
  }

  lemma AdmitFour(c: Cache)
    requires Ready(c) && At6(c)
    ensures At(Admit(c, 4, 4, 1), [4, 3, 2], [1, 3, 4],
               c.index[4 := B(4, Resident, 7, true)], 1, 7)
  {
  }

  lemma EvictFirst(c: Cache, m: map<Word, Entry>)
    requires Shape(c) && At(c, [4, 3, 2], [1, 3, 4], m, 1, 7) && 1 in m && m[1] == B(1, Resident, 3, false)
    ensures At(EvictHead(c), [4, 3, 2], [3, 4], m - {1}, 1, 7)
  {
    var k := c.q[0];
    assert c.index[k := c.index[k].(inQ := false, kind := Ghost)] - {k} == m - {1};
  }

  lemma Step7(c: Cache)
    requires Ready(c) && At6(c)
    ensures At7(Step(c, Add(4)))
  {
    AdmitFour(c);
    var c1 := Admit(c, 4, 4, 1);
    hide Admit, Prune, EvictHir, EvictHead, Shape, B;
    PruneStays(c1);
    EvictUnrolls(c1);
    EvictFirst(c1, c1.index);
    SameMapSeven(B(1, Resident, 3, false), B(2, Lir, 5, true), B(3, Resident, 6, true), B(4, Resident, 7, true));
  }

  lemma AdmitFive(c: Cache)
    requires Ready(c) && At7(c)
    ensures At(Admit(c, 5, 5, 1), [5, 4, 3, 2], [3, 4, 5],
               c.index[5 := B(5, Resident, 8, true)], 1, 8)
  {
  }

  lemma EvictSecond(c: Cache, m: map<Word, Entry>)
    requires Shape(c) && At(c, [5, 4, 3, 2], [3, 4, 5], m, 1, 8) && 3 in m && m[3] == B(3, Resident, 6, true)
    ensures At(EvictHead(c), [5, 4, 3, 2], [4, 5], m[3 := B(3, Ghost, 6, true)], 1, 8)
  {
  }

  lemma SameMapSeven(a: Entry, b: Entry, d: Entry, e: Entry)
    ensures map[1 := a, 2 := b, 3 := d][4 := e] - {1} == map[2 := b, 3 := d, 4 := e]
  {
  }

  lemma SameMapEight(a: Entry, b: Entry, d: Entry, e: Entry, f: Entry)
    ensures map[2 := a, 3 := b, 4 := d][5 := e][3 := f] == map[2 := a, 3 := f, 4 := d, 5 := e]
  {
  }

  lemma Step8(c: Cache)
    requires Ready(c) && At7(c)
    ensures At8(Step(c, Add(5)))
  {
    AdmitFive(c);
    var c1 := Admit(c, 5, 5, 1);
    hide Admit, Prune, EvictHir, EvictHead, Shape, B;
    PruneStays(c1);
    EvictUnrolls(c1);
    EvictSecond(c1, c1.index);
    SameMapEight(B(2, Lir, 5, true), B(3, Resident, 6, true), B(4, Resident, 7, true), B(5, Resident, 8, true),
                 B(3, Ghost, 6, true));
  }

  lemma RunAppend(c: Cache, ops: seq<Op>, op: Op)
    requires Inv(c)
    ensures Run(c, ops + [op]) == Step(Run(c, ops), op)
  {
    assert (ops + [op])[..|ops + [op]| - 1] == ops;
  }

  lemma Advance(start: Cache, ops: seq<Op>, op: Op)
    requires Inv(start)
    ensures Ready(Run(start, ops)) && Run(start, ops + [op]) == Step(Run(start, ops), op)
  {
    hide Shape, Books, RecentExcept;
    RunAppend(start, ops, op);
  }

  function Start(): Cache {
    Create(2, 100, false)
  }

  lemma StartsEmpty()
    ensures Inv(Start()) && At0(Run(Start(), []))
  {
    hide Inv, Shape, Books, RecentExcept;
    CreateEstablishesInvariant(2, 100, false);
  }

  /** Two puts and a hit on each block. */
  lemma ReachFour() returns (ops: seq<Op>)
    ensures ops == [Add(1), Add(2), GetOp(1), GetOp(2)]
    ensures Inv(Start()) && At4(Run(Start(), ops))
  {
    hide Inv, Ready, Step, Start, At0, At1, At2, At3, At4, At5, At6, At7, At8;
    StartsEmpty();
    ops := [];
    Advance(Start(), ops, Add(1));
    Step1(Run(Start(), ops));
    ops := ops + [Add(1)];
    Advance(Start(), ops, Add(2));
    Step2(Run(Start(), ops));
    ops := ops + [Add(2)];
    Advance(Start(), ops, GetOp(1));
    Step3(Run(Start(), ops));
    ops := ops + [GetOp(1)];
    Advance(Start(), ops, GetOp(2));
    Step4(Run(Start(), ops));
    ops := ops + [GetOp(2)];
  }

  /** A second hit and a third put. */
  lemma ReachSix() returns (ops: seq<Op>)
    ensures ops == [Add(1), Add(2), GetOp(1), GetOp(2), GetOp(2), Add(3)]
    ensures Inv(Start()) && At5(Run(Start(), ops[..5])) && At6(Run(Start(), ops))
  {
    ops := ReachFour();
    hide Inv, Ready, Step, Start, At0, At1, At2, At3, At4, At5, At6, At7, At8;
    Advance(Start(), ops, GetOp(2));
    Step5(Run(Start(), ops));
    ops := ops + [GetOp(2)];
    Advance(Start(), ops, Add(3));
    Step6(Run(Start(), ops));
    assert (ops + [Add(3)])[..5] == ops;
    ops := ops + [Add(3)];
  }

  /** Two more puts turn block 3 into a ghost. */
  lemma ReachEight() returns (ops: seq<Op>)
    ensures ops == [Add(1), Add(2), GetOp(1), GetOp(2), GetOp(2), Add(3), Add(4), Add(5)]
    ensures Inv(Start()) && At8(Run(Start(), ops))
  {
    ops := ReachSix();
    hide Inv, Ready, Step, Start, At0, At1, At2, At3, At4, At5, At6, At7, At8;
    Advance(Start(), ops, Add(4));
    Step7(Run(Start(), ops));
    ops := ops + [Add(4)];
    Advance(Start(), ops, Add(5));
    Step8(Run(Start(), ops));
    ops := ops + [Add(5)];
  }

  /** Two puts, three hits and a third put: three blocks in a cache for two. */
  lemma CapacityCanBeExceeded() returns (ops: seq<Op>)
    ensures ops == [Add(1), Add(2), GetOp(1), GetOp(2), GetOp(2), Add(3)]
    ensures Inv(Start()) && Size(Run(Start(), ops)) == 3 > Start().capacity
  {
    ops := ReachSix();
  }

  /** A hit without a partner need not exceed the capacity: the fifth of these operations does not. */
  lemma UnpairedHitWithinCapacity() returns (ops: seq<Op>)
    ensures Inv(Start()) && FindsNoPartner(Run(Start(), ops), 2)
    ensures Size(Step(Run(Start(), ops), GetOp(2))) == Start().capacity
  {
    ops := ReachFour();
    Step5(Run(Start(), ops));
  }

  /** Removing a ghost leaves `total_size` below the bytes in use. */
  lemma GhostRemovalBreaksTotal() returns (ops: seq<Op>)
    ensures Inv(Start())
    ensures var c := Run(Start(), ops); OffBy(c, 0) && 3 in c.index && c.index[3].kind == Ghost
    ensures var r := Step(Run(Start(), ops), DeleteOp(3));
            ResidentBytes(r) == 3 && r.stats.totalSize == 2 && !OffBy(r, 0)
  {
    ops := ReachEight();
    hide Step, OffBy, ResidentBytes;
    RemoveGhost(Run(Start(), ops));
  }

  lemma GhostRemoved(c: Cache)
    requires Ready(c) && At8(c)
    ensures var r := Step(c, DeleteOp(3));
            && r.index == c.index - {3} && r.stats.totalSize == 2
            && r.stats.lirCount == 1 && r.stats.hirCount == 2
  {
    var r := Unlink(c, 3);
    assert Last(r.s) == 2 by {
      assert IndexOf(c.s, 3) == 2;
    }
    PruneStays(r);
  }

  lemma EightIsUniform(c: Cache)
    requires At8(c)
    ensures Uniform(c.index, 1) && Uniform(c.index - {3}, 1) && Size(c) == c.stats.totalSize == 3
  {
  }

  lemma RemoveGhost(c: Cache)
    requires Inv(c) && At8(c)
    ensures OffBy(c, 0)
    ensures var r := Step(c, DeleteOp(3)); ResidentBytes(r) == 3 && r.stats.totalSize == 2 && !OffBy(r, 0)
  {
    GhostRemoved(c);
    EightIsUniform(c);
    var r := Step(c, DeleteOp(3));
    StepKeepsInvariant(c, DeleteOp(3));
    hide Inv, Step, ResidentBytes, ResidentMap, At8, Uniform, Shape;
    SizeIsResidentCount(c);
    SizeIsResidentCount(r);
    ResidentBytesUniform(c, 1);
    ResidentBytesUniform(r, 1);
    WrapSmall(3);
  }

  // ---------- Below a capacity of two ----------

  /** While S is below its limit a new block enters as LIR, and nothing leaves. */
  lemma AdmitAsLir(c: Cache, key: Word)
    requires Inv(c) && Accepts(c, key, 1, true) && !EntersAsHir(c)
    ensures var r := Step(c, Add(key));
            && Size(r) == Size(c) + 1 && r.sSize <= c.sSize + 1
            && r.index.Keys <= c.index.Keys + {key}
            && r.stats.totalSize == Add64(c.stats.totalSize, 1)
  {
    var c1 := Admit(c, key, key, 1);
    assert c1.stats.lirCount == c.stats.lirCount + 1 && c1.stats.hirCount == c.stats.hirCount && c1.q == c.q;
    assert c1.index.Keys == c.index.Keys + {key};
    PruneTrims(c1);
    hide Admit, Prune, EvictHir, Shape;
    NothingToEvict(Prune(c1));
  }

  lemma NothingToEvict(c: Cache)
    requires Shape(c) && |c.q| <= c.hirCapacity
    ensures EvictHir(c) == c
  {
  }

  /** A new cache with no room for HIR blocks, whose limit on S wraps. */
  ghost predicate Wrapped(c: Cache) {
    && Inv(c) && c.capacity == 1 && LirLimit(c) == 0xFFFF_FFFF_FFFF_FFFF && c.maxSize == 100
    && Size(c) == 0 && c.stats.totalSize == 0 && c.index == map[] && c.sSize == 0
  }

  lemma TinyIsWrapped(callback: bool)
    ensures Wrapped(Create(1, 100, callback))
  {
    CreateEstablishesInvariant(1, 100, callback);
    ModuloUnique(-1, 0x1_0000_0000_0000_0000, -1, 0xFFFF_FFFF_FFFF_FFFF);
  }

  lemma SecondAccepted(start: Cache, one: Cache)
    requires Wrapped(start) && SameLimits(start, one) && one.sSize <= 1 && one.index.Keys <= {7}
    requires one.stats.totalSize == Add64(0, 1)
    ensures Accepts(one, 8, 1, true) && !EntersAsHir(one)
  {
    hide Inv;
    WrapSmall(1);
    WrapSmall(2);
    assert LirLimit(one) == LirLimit(start);
  }

  lemma FirstAccepted(start: Cache)
    requires Wrapped(start)
    ensures Accepts(start, 7, 1, true) && !EntersAsHir(start)
  {
    WrapSmall(1);
  }

  lemma FirstPut(start: Cache)
    requires Wrapped(start)
    ensures Ready(start)
    ensures var one := Step(start, Add(7));
            && Inv(one) && Size(one) == 1 && Accepts(one, 8, 1, true) && !EntersAsHir(one)
  {
    FirstAccepted(start);
    StepKeepsInvariant(start, Add(7));
    StepKeepsLimits(start, Add(7));
    hide Step, Accepts, EntersAsHir, Shape, Books, RecentExcept;
    AdmitAsLir(start, 7);
    SecondAccepted(start, Step(start, Add(7)));
  }

  lemma SecondPut(one: Cache)
    requires Inv(one) && Size(one) == 1 && Accepts(one, 8, 1, true) && !EntersAsHir(one)
    ensures Size(Step(one, Add(8))) == 2
  {
    hide Inv, Step, Accepts, EntersAsHir;
    AdmitAsLir(one, 8);
  }

  lemma RunOfTwo(c: Cache, a: Op, b: Op)
    requires Inv(c)
    ensures Inv(Step(c, a)) && Run(c, [a, b]) == Step(Step(c, a), b)
  {
    hide Inv, Step;
    RunAppend(c, [], a);
    RunAppend(c, [a], b);
    assert [] + [a] == [a] && [a] + [b] == [a, b];
    StepKeepsInvariant(c, a);
  }

  lemma TwoPuts(start: Cache, a: Op, b: Op)
    requires Wrapped(start) && a == Add(7) && b == Add(8)
    ensures Size(Run(start, [a, b])) == 2 && Unpaired(start, [a, b]) == 0
  {
    hide Inv, Step, Accepts, EntersAsHir, Run, Unpaired, LirLimit;
    FirstPut(start);
    RunOfTwo(start, a, b);
    NoHitsNoneUnpaired(start, [a, b]);
    SecondPut(Step(start, a));
  }

  /** Two puts, and no hit, into a cache of capacity one: both enter as LIR, and two blocks stay. */
  lemma TinyCachePassesCapacity()
    ensures var start := Create(1, 100, false);
            && Inv(start) && Unpaired(start, [Add(7), Add(8)]) == 0
            && Size(Run(start, [Add(7), Add(8)])) == 2 > start.capacity
  {
    hide Shape, Books, RecentExcept, Step, Run, Unpaired, Size;
    TinyIsWrapped(false);
    TwoPuts(Create(1, 100, false), Add(7), Add(8));
  }

  lemma {:induction false} NoHitsNoneUnpaired(c: Cache, ops: seq<Op>)
    requires Inv(c) && forall i :: 0 <= i < |ops| ==> !ops[i].GetOp?
    ensures Unpaired(c, ops) == 0
    decreases |ops|
  {
    hide Inv, FindsNoPartner;
    if ops != [] {
      assert ops[|ops| - 1] == Last(ops);
      NoHitsNoneUnpaired(c, ops[..|ops| - 1]);
    }
  }
}
