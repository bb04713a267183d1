/**
 Which region an allocation hands out, over every run: free regions are reused before new ones are made, the longest
 free one first.
 */
module RegionRuns {
  import opened Seqs
  import opened RegionModel

  // ---------- One allocation ----------

  /**
   `gc_region_alloc` takes the first free region if there is one, whatever `max` leaves room for, and makes one only
   when every region is in use.
   */
  lemma AllocReuses(m: Manager, kind: int, granted: bool)
    requires Sound(m)
    ensures Usable(m)
    ensures var (t, f) := Alloc(m, kind, granted);
            if m.lists[EMPTY] != [] then
              && f == Found(m.lists[EMPTY][0]) && |t.regions| == |m.regions| && t.total == m.total
              && (forall r :: 0 <= r < |m.regions| && r != f.id ==> t.regions[r] == m.regions[r])
            else if |m.regions| < m.max && granted then
              && f == Found(|m.regions|) && |t.regions| == |m.regions| + 1 && t.total == m.total + 0x20_0000
              && (forall r :: 0 <= r < |m.regions| ==>
                    t.regions[r] == m.regions[r] && ListOf(m.regions[r].kind) != EMPTY)
            else f == NoRegion && t == m
  {
    SoundIsUsable(m);
    hide Unlink, Append, Bump;
    if m.lists[EMPTY] == [] {
      forall r: nat | r < |m.regions| ensures ListOf(m.regions[r].kind) != EMPTY {
        assert r in m.lists[EMPTY] <==> r < |m.regions| && ListOf(m.regions[r].kind) == EMPTY;
      }
    }
  }

  // ---------- The order of the lists ----------

  /** `after` is some of `before` in the same order, with at most one region at its end that is new or in `again`. */
  ghost predicate Fifo(before: seq<nat>, after: seq<nat>, again: set<nat>) {
    forall i, j :: 0 <= i < j < |after| ==>
      && after[i] in before && after[i] !in again
      && (after[j] !in before || after[j] in again || Ahead(before, after[i], after[j]))
  }

  lemma FifoOld(before: seq<nat>, o: seq<nat>, again: set<nat>)
    requires Keeps(before, o) && forall r :: r in again ==> r !in o
    ensures Fifo(before, o, again)
  {
    hide Ahead;
  }

  lemma FifoNew(before: seq<nat>, o: seq<nat>, r: nat, again: set<nat>)
    requires Keeps(before, o) && (r !in before || r in again) && forall x :: x in again ==> x !in o
    ensures Fifo(before, o + [r], again)
  {
    hide Ahead;
    assert forall i :: 0 <= i < |o| ==> (o + [r])[i] == o[i];
  }

  /** The region that an allocation of an unknown type takes off the free list and puts back at its end. */
  ghost function PutBack(m: Manager, op: Op, k: nat): set<nat>
    requires Shaped(m)
  {
    if op.AllocOp? && k == EMPTY && m.lists[EMPTY] != [] then {m.lists[EMPTY][0]} else {}
  }

  lemma RefiledOrder(m: Manager, r: nat, n: nat, k: nat)
    requires Sound(m) && r < |m.regions| && n < KINDS && k < KINDS && r !in m.lists[n]
    ensures Fifo(m.lists[k], Append(Unlink(m.lists, r), n, r)[k], {})
    ensures Fifo(m.lists[k], Unlink(m.lists, r)[k], {})
  {
    hide UsedBytes, TotalBytes, Counted, Keeps;
    var l := m.lists[k];
    RemoveKeeps(l, r);
    FifoOld(l, Remove(l, r), {});
    if k == n {
      FifoNew(l, Remove(l, r), r, {});
    }
  }

  lemma SameOrder(l: seq<nat>, again: set<nat>)
    requires Distinct(l) && forall r :: r in again ==> r !in l
    ensures Fifo(l, l, again)
  {
    SuffixKeeps(l, 0);
    assert l[0..] == l;
    FifoOld(l, l, again);
  }

  lemma NotListed(m: Manager, r: nat, k: nat)
    requires Filed(m.regions, m.lists) && k < KINDS && (r >= |m.regions| || ListOf(m.regions[r].kind) != k)
    ensures r !in m.lists[k] && Distinct(m.lists[k])
  {
    assert r in m.lists[k] <==> r < |m.regions| && ListOf(m.regions[r].kind) == k;
  }

  /** A region that was on no list, or is just off the free one, goes to the end of its list. */
  lemma AppendOrder(l: seq<nat>, r: nat, joins: bool)
    requires Distinct(l) && r !in l
    ensures Fifo(l, if joins then l + [r] else l, {})
  {
    SameOrder(l, {});
    SuffixKeeps(l, 0);
    assert l[0..] == l;
    FifoNew(l, l, r, {});
  }

  lemma TakeOrder(l: seq<nat>, joins: bool)
    requires Distinct(l) && l != []
    ensures Fifo(l, if joins then l[1..] + [l[0]] else l[1..], {l[0]})
  {
    SuffixKeeps(l, 1);
    FifoOld(l, l[1..], {l[0]});
    FifoNew(l, l[1..], l[0], {l[0]});
  }

  lemma AllocOrder(m: Manager, kind: int, granted: bool, k: nat)
    requires Sound(m) && k < KINDS && Usable(m)
    ensures Fifo(m.lists[k], Alloc(m, kind, granted).0.lists[k], PutBack(m, AllocOp(kind, granted), k))
  {
    hide Fifo, UsedBytes, TotalBytes, Counted;
    var n, free := ListOf(kind), m.lists[EMPTY];
    SameOrder(m.lists[k], {});
    if free != [] {
      var r := free[0];
      assert r in free;
      assert ListOf(m.regions[r].kind) == EMPTY;
      if k == EMPTY {
        TakeOrder(free, n == EMPTY);
      } else {
        NotListed(m, r, k);
        AppendOrder(m.lists[k], r, n == k);
      }
    } else if |m.regions| < m.max && granted {
      NotListed(m, |m.regions|, k);
      AppendOrder(m.lists[k], |m.regions|, n == k);
    }
  }

  lemma PromoteOrder(m: Manager, r: nat, k: nat)
    requires Sound(m) && r < |m.regions| && k < KINDS
    ensures Fifo(m.lists[k], Promote(m, r).lists[k], {})
  {
    hide Fifo, UsedBytes, TotalBytes, Counted, Filed, Unlink, Append, Bump;
    var kind := m.regions[r].kind;
    if kind == YOUNG || kind == SURVIVOR {
      NotListed(m, r, kind + 1);
      RefiledOrder(m, r, kind + 1, k);
    } else {
      var n := if ListOf(kind) == EMPTY then OLD else EMPTY;
      NotListed(m, r, n);
      RefiledOrder(m, r, n, k);
    }
  }

  /** Every list is first-in first-out under every allowed call. */
  lemma StepKeepsOrder(m: Manager, op: Op, k: nat)
    requires Sound(m) && Usable(m) && Allowed(m, op) && k < KINDS
    ensures Fifo(m.lists[k], Step(m, op).lists[k], PutBack(m, op, k))
  {
    hide Fifo, UsedBytes, TotalBytes, Counted, Promote, Unlink, Append;
    match op
    case AllocOp(kind, granted) => AllocOrder(m, kind, granted, k);
    case FreeOp(r) =>
      NotListed(m, r, EMPTY);
      RefiledOrder(m, r, EMPTY, k);
    case PromoteOp(r) => PromoteOrder(m, r, k);
    case AgeOp(r) => AgeOrder(m, r, k);
  }

  lemma AgeOrder(m: Manager, r: nat, k: nat)
    requires Sound(m) && r < |m.regions| && k < KINDS
    ensures Fifo(m.lists[k], Age(m, r).lists[k], {})
  {
    hide Fifo, UsedBytes, TotalBytes, Promote;
    var x := m.regions[r].(age := m.regions[r].age + 1);
    var t := m.(regions := m.regions[r := x]);
    AgeOnly(m.regions, m.lists, r, x);
    BytesUpdate(m.regions, r, x);
    PromoteOrder(t, r, k);
    SameOrder(m.lists[k], {});
  }

  // ---------- Every run ----------

  /** The call puts the region at the end of list `k`. */
  ghost predicate Joins(m: Manager, op: Op, k: nat, r: nat)
    requires Usable(m) && Allowed(m, op) && k < KINDS
  {
    r in Step(m, op).lists[k] && (r !in m.lists[k] || r in PutBack(m, op, k))
  }

  /** At which call of the run, counted from one, the region last joined list `k`. */
  ghost function JoinedAt(max: nat, ops: seq<Op>, k: nat, r: nat): nat
    requires k < KINDS
    decreases |ops|
  {
    if ops == [] then 0
    else
      var front := ops[..|ops| - 1];
      var m := Run(max, front);
      if Usable(m) && Allowed(m, Last(ops)) && Joins(m, Last(ops), k, r) then |ops| else JoinedAt(max, front, k, r)
  }

  lemma {:induction false} JoinedWithin(max: nat, ops: seq<Op>, k: nat, r: nat)
    requires k < KINDS
    ensures JoinedAt(max, ops, k, r) <= |ops|
    decreases |ops|
  {
    if ops != [] {
      JoinedWithin(max, ops[..|ops| - 1], k, r);
    }
  }

  ghost predicate ByJoining(max: nat, ops: seq<Op>, k: nat, l: seq<nat>)
    requires k < KINDS
  {
    forall i, j :: 0 <= i < j < |l| ==> JoinedAt(max, ops, k, l[i]) < JoinedAt(max, ops, k, l[j])
  }

  lemma AheadIsBefore(l: seq<nat>, x: nat, y: nat)
    requires Ahead(l, x, y)
    ensures exists i, j :: 0 <= i < j < |l| && l[i] == x && l[j] == y
  {
  }

  /** After every run each list is sorted by when its regions joined it. */
  lemma {:induction false} ListsAreByJoining(max: nat, ops: seq<Op>, k: nat)
    requires k < KINDS
    ensures Usable(Run(max, ops)) && ByJoining(max, ops, k, Run(max, ops).lists[k])
    decreases |ops|
  {
    RunIsSound(max, ops);
    hide Sound, Step, Allowed, OneSize, Ahead;
    if ops != [] {
      var front, op := ops[..|ops| - 1], Last(ops);
      ListsAreByJoining(max, front, k);
      var m, l := Run(max, front), Run(max, ops).lists[k];
      RunIsSound(max, front);
      if Allowed(m, op) {
        StepKeepsOrder(m, op, k);
        forall i, j | 0 <= i < j < |l| ensures JoinedAt(max, ops, k, l[i]) < JoinedAt(max, ops, k, l[j]) {
          JoinedWithin(max, front, k, l[i]);
          if !Joins(m, op, k, l[j]) {
            AheadIsBefore(m.lists[k], l[i], l[j]);
          }
        }
      }
    }
  }

  /** A region that is reused has been free the longest. */
  lemma ReusedIsLongestFree(max: nat, ops: seq<Op>, kind: int, granted: bool, r: nat)
    requires Usable(Run(max, ops)) && r in Run(max, ops).lists[EMPTY]
    ensures var m := Run(max, ops); var f := Alloc(m, kind, granted).1;
            && f.Found? && f.id in m.lists[EMPTY]
            && (r != f.id ==> JoinedAt(max, ops, EMPTY, f.id) < JoinedAt(max, ops, EMPTY, r))
  {
    ListsAreByJoining(max, ops, EMPTY);
    hide JoinedAt, Run;
    var l := Run(max, ops).lists[EMPTY];
    var i := IndexOf(l, r);
    assert l[0] in l;
  }

  // ---------- No more regions than needed ----------

  /** How many regions are in use. */
  function InUse(m: Manager): int
    requires Shaped(m)
  {
    |m.lists[YOUNG]| + |m.lists[SURVIVOR]| + |m.lists[OLD]| + |m.lists[HUMONGOUS]| + |m.lists[PINNED]|
  }

  lemma InUseAndFree(m: Manager)
    requires Sound(m)
    ensures InUse(m) + |m.lists[EMPTY]| == |m.regions|
  {
    CountsAddUp(m.regions, m.lists);
    SixLengths(m.lists);
  }

  lemma SixLengths(l: seq<seq<nat>>)
    requires |l| == KINDS
    ensures LengthSum(l) == |l[0]| + |l[1]| + |l[2]| + |l[3]| + |l[4]| + |l[5]|
  {
    var l5, l4, l3, l2, l1 := l[..5], l[..4], l[..3], l[..2], l[..1];
    assert l5[..4] == l4 && l4[..3] == l3 && l3[..2] == l2 && l2[..1] == l1 && l1[..0] == [];
    assert LengthSum(l1) == |l[0]|;
    assert LengthSum(l2) == LengthSum(l1) + |l[1]|;
    assert LengthSum(l3) == LengthSum(l2) + |l[2]|;
    assert LengthSum(l4) == LengthSum(l3) + |l[3]|;
    assert LengthSum(l5) == LengthSum(l4) + |l[4]|;
  }

  /** The calls of a program that allocates regions for use. */
  predicate ForUse(ops: seq<Op>) {
    forall i :: 0 <= i < |ops| && ops[i].AllocOp? ==> YOUNG <= ops[i].kind <= PINNED
  }

  /** Such a call makes no more regions than are in use afterwards, and none while one is free. */
  lemma StepMakesFew(m: Manager, op: Op)
    requires Sound(m) && Usable(m) && Allowed(m, op) && (op.AllocOp? ==> YOUNG <= op.kind <= PINNED)
    ensures var t := Step(m, op);
            Sound(t) && InUse(t) <= |t.regions| && |t.regions| >= |m.regions|
            && (|t.regions| == |m.regions| || |t.regions| == InUse(t))
  {
    StepKeepsSound(m, op);
    InUseAndFree(Step(m, op));
    hide Sound, InUse, Unlink, Append, Bump;
  }

  /** How many regions the run has in use after its first `i` calls. */
  ghost function InUseAfter(max: nat, ops: seq<Op>, i: nat): int
    requires i <= |ops|
  {
    RunIsSound(max, ops[..i]);
    InUse(Run(max, ops[..i]))
  }

  lemma InUseInFront(max: nat, ops: seq<Op>, i: nat)
    requires i < |ops|
    ensures InUseAfter(max, ops[..|ops| - 1], i) == InUseAfter(max, ops, i)
  {
    assert ops[..|ops| - 1][..i] == ops[..i];
  }

  lemma InUseAtEnd(max: nat, ops: seq<Op>)
    ensures Sound(Run(max, ops)) && InUseAfter(max, ops, |ops|) == InUse(Run(max, ops))
  {
    RunIsSound(max, ops);
    assert ops[..|ops|] == ops;
  }

  /** Over every run for use, the number of regions is the largest number ever in use at once. */
  lemma {:induction false} RegionsAreThePeak(max: nat, ops: seq<Op>)
    requires ForUse(ops)
    ensures var made := |Run(max, ops).regions|;
            && (forall i :: 0 <= i <= |ops| ==> InUseAfter(max, ops, i) <= made)
            && (exists i :: 0 <= i <= |ops| && InUseAfter(max, ops, i) == made)
    decreases |ops|
  {
    InUseAtEnd(max, ops);
    hide InUseAfter, Sound, Step, Allowed, InUse;
    var made := |Run(max, ops).regions|;
    if ops == [] {
      StartIsUnused(max);
      assert InUseAfter(max, ops, 0) == made;
    } else {
      var front, op := ops[..|ops| - 1], Last(ops);
      var m := Run(max, front);
      RegionsAreThePeak(max, front);
      RunIsSound(max, front);
      InUseAtEnd(max, front);
      assert op == ops[|ops| - 1];
      if Allowed(m, op) {
        StepMakesFew(m, op);
      } else {
        assert InUseAfter(max, front, |front|) <= made;
      }
      forall i | 0 <= i < |ops| ensures InUseAfter(max, ops, i) <= made {
        InUseInFront(max, ops, i);
      }
      var i :| 0 <= i <= |front| && InUseAfter(max, front, i) == |m.regions|;
      InUseInFront(max, ops, i);
      var j := if made == |m.regions| then i else |ops|;
      assert InUseAfter(max, ops, j) == made;
    }
  }

  lemma StartIsUnused(max: nat)
    ensures InUse(Start(max)) == 0
  {
  }
}
