/** Q is first-in first-out over every run, and what the counters of hits, misses and evictions count. */
module LirsQueue {
  import opened Words
  import opened Seqs
  import opened LirsModel
  import opened LirsInvariant
  import opened LirsRefinement
  import opened LirsEffects

  // ---------- One operation ----------

  /**
   The operation puts the block at the end of Q: it was not there before, or it is a HIR block in S that is hit and
   changes places with itself at S's bottom.
   */
  ghost predicate Enters(c: Cache, op: Op, k: Word)
    requires Ready(c)
  {
    k in Step(c, op).q && (k !in c.q || (op == GetOp(k) && k != NULL && k in c.s))
  }

  /** After the operation Q is some of what was there, in order, and at most one newcomer. */
  ghost predicate OldThenNew(c: Cache, op: Op, o: seq<Word>, tail: seq<Word>)
    requires Ready(c)
  {
    && Step(c, op).q == o + tail && |tail| <= 1 && Keeps(c.q, o)
    && (forall k :: k in o ==> !Enters(c, op, k)) && (forall k :: k in tail ==> Enters(c, op, k))
  }

  lemma NothingEnters(c: Cache, op: Op, o: seq<Word>)
    requires Ready(c) && Step(c, op).q == o && Keeps(c.q, o)
    requires op.GetOp? && op.key != NULL ==> op.key !in c.s || op.key !in o
    ensures OldThenNew(c, op, o, [])
  {
    hide Step, Shape;
    assert o + [] == o;
    assert forall k :: k in o ==> exists i :: 0 <= i < |o| && o[i] == k;
  }

  lemma OneEnters(c: Cache, op: Op, o: seq<Word>, k: Word)
    requires Ready(c) && Step(c, op).q == o + [k] && Keeps(c.q, o)
    requires op.GetOp? ==> op.key !in o
    requires k !in c.q || (op == GetOp(k) && k != NULL && k in c.s)
    ensures OldThenNew(c, op, o, [k])
  {
    hide Step, Shape;
    assert forall x :: x in o ==> exists i :: 0 <= i < |o| && o[i] == x;
    assert (o + [k])[|o|] == k;
  }

  lemma HitQueue(c: Cache, key: Word) returns (o: seq<Word>, tail: seq<Word>)
    requires Ready(c) && key != NULL && Promotes(c, key) && Step(c, GetOp(key)).q == QueueAfterGet(c, key)
    ensures OldThenNew(c, GetOp(key), o, tail)
  {
    hide Step, Remove, Keeps, OldThenNew;
    RemoveKeeps(c.q, key);
    BottomTracked(c);
    o := Remove(c.q, key);
    if Trades(c, key) {
      tail := [Last(c.s)];
      assert c.s[|c.s| - 1] in c.s;
      OneEnters(c, GetOp(key), o, Last(c.s));
    } else {
      tail := [];
      NothingEnters(c, GetOp(key), o);
    }
  }

  lemma GetQueue(c: Cache, key: Word) returns (o: seq<Word>, tail: seq<Word>)
    requires Ready(c)
    ensures OldThenNew(c, GetOp(key), o, tail)
  {
    hide OldThenNew, Keeps, Enters;
    SuffixKeeps(c.q, 0);
    assert c.q[0..] == c.q;
    if key != NULL && key in c.index {
      GetEffect(c, key);
      if Promotes(c, key) {
        o, tail := HitQueue(c, key);
        return;
      }
      assert key in c.q ==> key !in c.s;
    }
    NothingEnters(c, GetOp(key), c.q);
    o, tail := c.q, [];
  }

  lemma PutQueue(c: Cache, key: Word, value: Word, size: Word, gotBlock: bool) returns (o: seq<Word>, tail: seq<Word>)
    requires Ready(c) && c.hirCapacity >= 1
    ensures OldThenNew(c, PutOp(key, value, size, gotBlock), o, tail)
  {
    var op := PutOp(key, value, size, gotBlock);
    SuffixKeeps(c.q, 0);
    assert Distinct(c.q);
    hide OldThenNew, Keeps, Enters, Shape;
    assert c.q[0..] == c.q;
    o, tail := c.q, [];
    if Put(c, key, value, size, gotBlock).1 != 0 {
      RefusedPutEffect(c, key, value, size, gotBlock);
    } else {
      PutCodes(c, key, value, size, gotBlock);
      if key in c.index {
        OverwriteEffect(c, key, value, size, gotBlock);
      } else {
        PutEffect(c, key, value, size, gotBlock);
        if !EntersLir(c) {
          var n := if PushesOut(c) then 1 else 0;
          SuffixKeeps(c.q, n);
          o, tail := c.q[n..], [key];
          NotQueued(c, key);
          OneEnters(c, op, o, key);
          return;
        }
      }
    }
    NothingEnters(c, op, c.q);
  }

  lemma NotQueued(c: Cache, key: Word)
    requires Shape(c) && key !in c.index
    ensures key !in c.q
  {
  }

  lemma StepQueue(c: Cache, op: Op) returns (o: seq<Word>, tail: seq<Word>)
    requires Ready(c) && c.hirCapacity >= 1
    ensures OldThenNew(c, op, o, tail)
  {
    hide OldThenNew, Keeps, Enters;
    match op
    case GetOp(key) => o, tail := GetQueue(c, key);
    case PutOp(key, value, size, gotBlock) => o, tail := PutQueue(c, key, value, size, gotBlock);
    case DeleteOp(key) =>
      o, tail := c.q, [];
      SuffixKeeps(c.q, 0);
      assert c.q[0..] == c.q;
      if key != NULL && key in c.index {
        DeleteEffect(c, key);
        RemoveKeeps(c.q, key);
        o := Remove(c.q, key);
      }
      NothingEnters(c, op, o);
    case ClearOp =>
      o, tail := [], [];
      NothingKept(c.q);
      NothingEnters(c, op, o);
  }

  lemma NothingKept(q: seq<Word>)
    ensures Keeps(q, [])
  {
  }

  /**
   Q is first-in first-out: of two blocks in Q after an operation the front one was there before, and the other one
   was behind it or has just entered.
   */
  lemma StepKeepsQueueOrder(c: Cache, op: Op, i: nat, j: nat)
    requires Inv(c) && i < j < |Step(c, op).q|
    ensures var q := Step(c, op).q;
            !Enters(c, op, q[i]) && (Enters(c, op, q[j]) || Ahead(c.q, q[i], q[j]))
  {
    hide Enters, Ahead, Step, Shape;
    var o, tail := StepQueue(c, op);
    var q := o + tail;
    assert q[i] == o[i];
    assert q[j] == if j < |o| then o[j] else tail[j - |o|];
  }

  // ---------- Every run ----------

  /** At which operation of the run, counted from one, the block last entered Q. */
  ghost function EnteredAt(c: Cache, ops: seq<Op>, k: Word): nat
    requires Inv(c)
    decreases |ops|
  {
    if ops == [] then 0
    else
      var front := ops[..|ops| - 1];
      if Enters(Run(c, front), Last(ops), k) then |ops| else EnteredAt(c, front, k)
  }

  lemma {:induction false} EnteredWithin(c: Cache, ops: seq<Op>, k: Word)
    requires Inv(c)
    ensures EnteredAt(c, ops, k) <= |ops|
    decreases |ops|
  {
    if ops != [] {
      EnteredWithin(c, ops[..|ops| - 1], k);
    }
  }

  ghost predicate ByEntry(c: Cache, ops: seq<Op>, q: seq<Word>)
    requires Inv(c)
  {
    forall i, j :: 0 <= i < j < |q| ==> EnteredAt(c, ops, q[i]) < EnteredAt(c, ops, q[j])
  }

  /** After every run Q is sorted by when its blocks entered. */
  lemma {:induction false} QueueIsByEntry(c: Cache, ops: seq<Op>)
    requires Inv(c) && c.q == []
    ensures ByEntry(c, ops, Run(c, ops).q)
    decreases |ops|
  {
    hide Shape, Books, RecentExcept, Step, Enters, Ahead;
    if ops != [] {
      var front := ops[..|ops| - 1];
      QueueIsByEntry(c, front);
      var before := Run(c, front);
      var q := Run(c, ops).q;
      forall i, j | 0 <= i < j < |q| ensures EnteredAt(c, ops, q[i]) < EnteredAt(c, ops, q[j]) {
        StepKeepsQueueOrder(before, Last(ops), i, j);
        EnteredWithin(c, front, q[i]);
        if !Enters(before, Last(ops), q[j]) {
          AheadIs(before.q, q[i], q[j]);
        }
      }
    }
  }

  lemma AheadIs(q: seq<Word>, x: Word, y: Word)
    requires Ahead(q, x, y)
    ensures x in q && y in q && IndexOf(q, x) < IndexOf(q, y)
    ensures exists i, j :: 0 <= i < j < |q| && q[i] == x && q[j] == y
  {
  }

  /** Of the blocks in Q the one a put displaces entered first. */
  lemma DisplacedEnteredFirst(c: Cache, ops: seq<Op>, op: Op, k: Word)
    requires Inv(c) && c.q == [] && op.PutOp?
    requires var before := Run(c, ops); k in ResidentMap(before) && k !in ResidentMap(Step(before, op))
    ensures var q := Run(c, ops).q;
            k in q && forall x :: x in q && x != k ==> EnteredAt(c, ops, k) < EnteredAt(c, ops, x)
  {
    var before := Run(c, ops);
    hide Shape, Books, RecentExcept, EnteredAt, ResidentMap;
    PutUpdatesMap(before, op.key, op.value, op.size, op.gotBlock);
    assert k in Victim(before);
    QueueIsByEntry(c, ops);
  }

  // ---------- Counters ----------

  /** A lookup that finds its key resident. */
  ghost predicate Finds(c: Cache, op: Op) {
    op.GetOp? && op.key != NULL && op.key in ResidentMap(c)
  }

  ghost predicate Misses(c: Cache, op: Op) {
    op.GetOp? && op.key != NULL && op.key !in ResidentMap(c)
  }

  /** A put that makes some other key no longer resident. */
  ghost predicate Displaces(c: Cache, op: Op)
    requires Ready(c)
  {
    op.PutOp? && exists k :: k in ResidentMap(c) && k !in ResidentMap(Step(c, op))
  }

  lemma GetCounts(c: Cache, key: Word)
    requires Ready(c)
    ensures var r, op := Get(c, key).0, GetOp(key);
            && r.stats.hits == c.stats.hits + (if Finds(c, op) then 1 else 0)
            && r.stats.misses == c.stats.misses + (if Misses(c, op) then 1 else 0)
            && r.stats.evictions == c.stats.evictions
  {
    hide Shape;
    if key != NULL && key in c.index {
      GetEffect(c, key);
    }
  }

  lemma VictimIs(c: Cache)
    requires Shape(c)
    ensures Victim(c) == if PushesOut(c) then {c.q[0]} else {}
  {
  }

  lemma PutCounts(c: Cache, key: Word, value: Word, size: Word, gotBlock: bool)
    requires Inv(c)
    ensures var r, op := Put(c, key, value, size, gotBlock).0, PutOp(key, value, size, gotBlock);
            && r.stats.hits == c.stats.hits && r.stats.misses == c.stats.misses
            && r.stats.evictions == c.stats.evictions + (if Displaces(c, op) then 1 else 0)
  {
    var op := PutOp(key, value, size, gotBlock);
    hide Books, RecentExcept, Put, Accepts, Victim, EntersLir;
    VictimIs(c);
    PutUpdatesMap(c, key, value, size, gotBlock);
    PutCodes(c, key, value, size, gotBlock);
    CodeOfPut(c, key, value, size, gotBlock);
    if Put(c, key, value, size, gotBlock).1 != 0 {
      RefusedPutEffect(c, key, value, size, gotBlock);
    } else if key in c.index {
      OverwriteEffect(c, key, value, size, gotBlock);
    } else {
      PutEffect(c, key, value, size, gotBlock);
      if PushesOut(c) {
        HeadIsResident(c);
        assert c.q[0] in ResidentMap(c) && c.q[0] !in ResidentMap(Step(c, op));
      }
    }
  }

  lemma StepCounts(c: Cache, op: Op)
    requires Inv(c)
    ensures var st := Step(c, op).stats;
            && st.hits == c.stats.hits + (if Finds(c, op) then 1 else 0)
            && st.misses == c.stats.misses + (if Misses(c, op) then 1 else 0)
            && st.evictions == c.stats.evictions + (if Displaces(c, op) then 1 else 0)
  {
    hide Shape, Books, RecentExcept, Get, Put, Delete;
    match op
    case GetOp(key) => GetCounts(c, key);
    case PutOp(key, value, size, gotBlock) => PutCounts(c, key, value, size, gotBlock);
    case DeleteOp(key) => DeleteCounts(c, key);
    case ClearOp =>
  }

  lemma DeleteCounts(c: Cache, key: Word)
    requires Ready(c)
    ensures var st := Delete(c, key).0.stats;
            st.hits == c.stats.hits && st.misses == c.stats.misses && st.evictions == c.stats.evictions
  {
    hide Shape;
    if key != NULL && key in c.index {
      DeleteEffect(c, key);
    }
  }

  datatype Tally = Tally(found: nat, missed: nat, displaced: nat)

  /** How many operations of a run were lookups of a resident key, other lookups, and puts that displaced a key. */
  ghost function TallyOf(c: Cache, ops: seq<Op>): Tally
    requires Inv(c)
    decreases |ops|
  {
    if ops == [] then Tally(0, 0, 0)
    else
      var front := ops[..|ops| - 1];
      var t, before, op := TallyOf(c, front), Run(c, front), Last(ops);
      Tally(t.found + (if Finds(before, op) then 1 else 0),
            t.missed + (if Misses(before, op) then 1 else 0),
            t.displaced + (if Displaces(before, op) then 1 else 0))
  }

  /** Over every run, clears included, the three counters are exactly these numbers. */
  lemma {:induction false} CountersOverRuns(c: Cache, ops: seq<Op>)
    requires Inv(c)
    ensures var st, t := Run(c, ops).stats, TallyOf(c, ops);
            && st.hits == c.stats.hits + t.found && st.misses == c.stats.misses + t.missed
            && st.evictions == c.stats.evictions + t.displaced
    decreases |ops|
  {
    hide Shape, Books, RecentExcept, Step, Finds, Misses, Displaces;
    if ops != [] {
      var front := ops[..|ops| - 1];
      CountersOverRuns(c, front);
      StepCounts(Run(c, front), Last(ops));
    }
  }
}
