/**
 The detector of src/debug/leak_detector.c: records move between the allocation list, the hash chains and the list
 of spare records.
 */
module LeakDetector {
  import opened Words
  import opened Seqs
  import opened Hash
  import opened LeakModel
  import opened LeakReport

  const HASH_SIZE: int := 8192
  const MAX_ALLOCATIONS: int := 100000

  /** `leak_hash_index` */
  function Bucket(ptr: Word): (b: nat)
    ensures b < HASH_SIZE
  {
    Home(HashPtr(ptr), HASH_SIZE)
  }

  class Record {
    var ptr: Word
    var size: Word
    var stack: Trace
    var time: Word

    constructor ()
      ensures ptr == NULL && size == 0 && stack == [] && time == 0
    {
      ptr, size, stack, time := NULL, 0, [], 0;
    }

    function Value(): Item
      reads this
    {
      Item(ptr, size, stack, time)
    }
  }

  function Items(all: seq<Record>): (s: seq<Item>)
    reads all
    ensures |s| == |all|
  {
    if all == [] then [] else Items(all[..|all| - 1]) + [Last(all).Value()]
  }

  /** What a bucket must hold: the records hashed there, newest first. */
  function Chain(all: seq<Record>, b: nat): seq<Record>
    reads all
  {
    if all == [] then []
    else
      var rest := Chain(all[..|all| - 1], b);
      if Bucket(Last(all).ptr) == b then [Last(all)] + rest else rest
  }

  /** The newest record of `ptr`, if any. */
  function Newest(all: seq<Record>, ptr: Word): Record?
    reads all
  {
    if all == [] then null
    else if Last(all).ptr == ptr then Last(all)
    else Newest(all[..|all| - 1], ptr)
  }

  /** The first hit in a chain is the newest record of the pointer. */
  lemma {:induction false} FirstHitIsNewest(all: seq<Record>, ptr: Word, i: nat)
    requires i <= |Chain(all, Bucket(ptr))|
    requires forall j :: 0 <= j < i ==> Chain(all, Bucket(ptr))[j].ptr != ptr
    requires i < |Chain(all, Bucket(ptr))| ==> Chain(all, Bucket(ptr))[i].ptr == ptr
    ensures Newest(all, ptr) == if i < |Chain(all, Bucket(ptr))| then Chain(all, Bucket(ptr))[i] else null
    decreases |all|
  {
    hide Bucket;
    if all != [] {
      var front := all[..|all| - 1];
      var c, d := Chain(all, Bucket(ptr)), Chain(front, Bucket(ptr));
      if Last(all).ptr == ptr {
        assert c[0] == Last(all);
      } else if Bucket(Last(all).ptr) == Bucket(ptr) {
        assert c[0] == Last(all);
        assert forall j :: 0 <= j < i - 1 ==> d[j] == c[j + 1];
        FirstHitIsNewest(front, ptr, i - 1);
      } else {
        FirstHitIsNewest(front, ptr, i);
      }
    }
  }

  lemma RemoveLast<T>(s: seq<T>)
    requires Distinct(s) && s != []
    ensures Remove(s, Last(s)) == s[..|s| - 1]
  {
  }

  lemma {:induction false} IndexInFront<T>(s: seq<T>, x: T)
    requires s != [] && x in s[..|s| - 1]
    ensures IndexOf(s, x) == IndexOf(s[..|s| - 1], x)
    decreases |s|
  {
    if s[0] != x {
      assert s[..|s| - 1][1..] == s[1..][..|s| - 2];
      IndexInFront(s[1..], x);
    }
  }

  lemma RemoveFromFront<T>(s: seq<T>, x: T)
    requires s != [] && x in s[..|s| - 1]
    ensures Remove(s, x) == Remove(s[..|s| - 1], x) + [Last(s)]
  {
    hide IndexOf;
    IndexInFront(s, x);
    var front, p := s[..|s| - 1], IndexOf(s, x);
    assert front[..p] == s[..p];
    assert front[p + 1..] + [Last(s)] == s[p + 1..];
  }

  /** Taking a record off the list takes it out of every chain. */
  lemma {:induction false} ChainRemove(all: seq<Record>, r: Record, b: nat)
    requires Distinct(all) && r in all
    ensures Chain(Remove(all, r), b) == Remove(Chain(all, b), r)
    ensures r in Chain(all, b) <==> Bucket(r.ptr) == b
    decreases |all|
  {
    hide Bucket;
    var front := all[..|all| - 1];
    ChainElements(front, b);
    if r == Last(all) {
      RemoveLast(all);
      assert r !in front;
      if Bucket(r.ptr) == b {
        assert Chain(all, b) == [r] + Chain(front, b);
        assert ([r] + Chain(front, b))[1..] == Chain(front, b);
      }
    } else {
      assert r in front;
      RemoveFromFront(all, r);
      var smaller := Remove(front, r);
      assert (smaller + [Last(all)])[..|smaller|] == smaller;
      ChainRemove(front, r, b);
      if Bucket(Last(all).ptr) == b {
        RemoveFromRest(Last(all), Chain(front, b), r);
      }
    }
  }

  lemma RemoveFromRest<T>(x: T, s: seq<T>, y: T)
    requires x != y
    ensures Remove([x] + s, y) == [x] + Remove(s, y)
  {
    var t := [x] + s;
    if y in s {
      IndexInRest(x, s, y);
      CutInRest(x, s, IndexOf(s, y));
    } else {
      assert y !in t;
    }
  }

  lemma IndexInRest<T>(x: T, s: seq<T>, y: T)
    requires x != y && y in s
    ensures y in [x] + s && IndexOf([x] + s, y) == IndexOf(s, y) + 1
  {
    assert ([x] + s)[1..] == s;
  }

  lemma CutInRest<T>(x: T, s: seq<T>, i: nat)
    requires i < |s|
    ensures ([x] + s)[..i + 1] + ([x] + s)[i + 2..] == [x] + (s[..i] + s[i + 1..])
  {
  }

  lemma {:induction false} ChainElements(all: seq<Record>, b: nat)
    ensures forall r :: r in Chain(all, b) ==> r in all && Bucket(r.ptr) == b
    decreases |all|
  {
    hide Bucket;
    if all != [] {
      ChainElements(all[..|all| - 1], b);
    }
  }

  lemma ChainAdd(all: seq<Record>, r: Record, b: nat)
    ensures Chain(all + [r], b) == if Bucket(r.ptr) == b then [r] + Chain(all, b) else Chain(all, b)
  {
    hide Bucket;
    assert (all + [r])[..|all|] == all;
  }

  lemma ItemsAdd(all: seq<Record>, r: Record)
    ensures Items(all + [r]) == Items(all) + [r.Value()]
  {
  }

  /** A pointer without a newest record is not outstanding. */
  lemma {:induction false} NewestExists(all: seq<Record>, ptr: Word)
    ensures Newest(all, ptr) == null <==> !Outstanding(Items(all), ptr)
    ensures var r := Newest(all, ptr); r != null ==> r in all && r.ptr == ptr
    decreases |all|
  {
    if all != [] {
      var front := all[..|all| - 1];
      NewestExists(front, ptr);
      var s, t := Items(all), Items(front);
      assert s == t + [Last(all).Value()];
      assert s[|all| - 1] == Last(all).Value();
      assert forall k :: 0 <= k < |t| ==> s[k] == t[k];
    }
  }

  /** Removing the newest record of a pointer drops the newest item of that pointer. */
  lemma {:induction false} NewestDrops(all: seq<Record>, r: Record, ptr: Word)
    requires Distinct(all) && Newest(all, ptr) == r
    ensures r in all && Items(Remove(all, r)) == DropNewest(Items(all), ptr)
    decreases |all|
  {
    hide Remove, Outstanding;
    NewestExists(all, ptr);
    var front := all[..|all| - 1];
    assert Items(all)[..|all| - 1] == Items(front);
    if Last(all).ptr == ptr {
      RemoveLast(all);
    } else {
      NewestDrops(front, r, ptr);
      RemoveFromFront(all, r);
      ItemsAdd(Remove(front, r), Last(all));
    }
  }

  /** Every chain holds exactly the listed records of its bucket. */
  ghost predicate Chained(chains: seq<seq<Record>>, all: seq<Record>)
    reads all
  {
    |chains| == HASH_SIZE && forall b :: 0 <= b < |chains| ==> chains[b] == Chain(all, b)
  }

  lemma ChainedAdd(chains: seq<seq<Record>>, all: seq<Record>, r: Record)
    requires Chained(chains, all)
    ensures Chained(chains[Bucket(r.ptr) := [r] + chains[Bucket(r.ptr)]], all + [r])
  {
    hide Bucket;
    forall b | 0 <= b < |chains|
      ensures Chain(all + [r], b) == chains[Bucket(r.ptr) := [r] + chains[Bucket(r.ptr)]][b]
    {
      ChainAdd(all, r, b);
    }
  }

  lemma ChainedRemove(chains: seq<seq<Record>>, all: seq<Record>, r: Record)
    requires Chained(chains, all) && Distinct(all) && r in all
    ensures Chained(chains[Bucket(r.ptr) := Remove(chains[Bucket(r.ptr)], r)], Remove(all, r))
  {
    hide Bucket;
    RemoveDistinct(all, r);
    forall b | 0 <= b < |chains|
      ensures Chain(Remove(all, r), b) == chains[Bucket(r.ptr) := Remove(chains[Bucket(r.ptr)], r)][b]
    {
      ChainRemove(all, r, b);
      ChainElements(all, b);
    }
  }

  class Detector {
    var enabled: bool
    var tracking: bool
    var numRecords: nat
    var maxRecords: nat
    const table: array<seq<Record>>
    var allocation: seq<Record>
    var free: seq<Record>
    var totalAllocations: nat
    var totalDeallocations: nat
    var leakedAllocations: nat
    var leakedBytes: nat
    var peakAllocations: nat
    var peakBytes: nat

    ghost predicate Valid()
      reads this, table, allocation
    {
      && enabled && table.Length == HASH_SIZE
      && Separate(allocation, free)
      && numRecords == |allocation|
      && Chained(table[..], allocation)
      && Sound(Abs())
    }

    function Abs(): Pool
      reads this, allocation
    {
      Pool(Items(allocation), |free|, maxRecords, tracking, totalAllocations, totalDeallocations,
           peakAllocations, peakBytes)
    }

    /** `leak_detector_init` on the zeroed global. */
    constructor ()
      ensures Valid() && enabled && Abs() == EmptyPool(100000) && fresh(table)
    {
      enabled, tracking := true, false;
      numRecords, maxRecords := 0, MAX_ALLOCATIONS;
      table := new seq<Record>[HASH_SIZE](_ => []);
      allocation, free := [], [];
      totalAllocations, totalDeallocations, leakedAllocations, leakedBytes := 0, 0, 0, 0;
      peakAllocations, peakBytes := 0, 0;
    }

    /** `leak_detector_start_tracking` and `leak_detector_stop_tracking` of an initialised detector. */
    method Track(on: bool)
      requires Valid()
      modifies this`tracking
      ensures Valid() && Abs() == Step(old(Abs()), LeakModel.Track(on))
    {
      tracking := on;
    }

    /** A spare record, or a new one while the limit allows it. */
    method TakeRecord(granted: bool) returns (record: Record?)
      requires Separate(allocation, free) && numRecords == |allocation|
      modifies this`free
      ensures record != null <==> old(CanRecord(Abs(), granted))
      ensures record == null ==> free == old(free)
      ensures record != null ==>
                && (fresh(record) || record in old(free))
                && free == (if old(free) != [] then old(free)[1..] else [])
                && record !in allocation && record !in free && Separate(allocation, free)
    {
      if free != [] {
        record := free[0];
        TakeFirst(allocation, free);
        free := free[1..];
      } else if numRecords < maxRecords {
        if !granted {
          return null;
        }
        record := new Record();
      } else {
        record := null;
      }
    }

    /** Fills a record in and puts it at the head of its chain and at the end of the allocation list. */
    method Enlist(record: Record, ptr: Word, size: Word, stack: Trace, time: Word)
      requires table.Length == HASH_SIZE && Chained(table[..], allocation)
      requires Separate(allocation, free) && record !in allocation && record !in free
      modifies this`allocation, table, record
      ensures Chained(table[..], allocation) && Separate(allocation, free)
      ensures Items(allocation) == old(Items(allocation)) + [Item(ptr, size, stack, time)]
    {
      hide Chained, Bucket, Separate, Items;
      record.ptr, record.size, record.stack, record.time := ptr, size, stack, time;
      assert Items(allocation) == old(Items(allocation));
      ghost var chains := table[..];
      var b := Bucket(ptr);
      table[b] := [record] + table[b];
      assert table[..] == chains[b := [record] + chains[b]];
      ChainedAdd(chains, allocation, record);
      ItemsAdd(allocation, record);
      AppendDistinct(allocation, free, record);
      allocation := allocation + [record];
    }

    /** `leak_detector_record_alloc`; `granted` says whether libc has memory for a new record. */
    method RecordAlloc(ptr: Word, size: Word, stack: Trace, time: Word, granted: bool)
      requires Valid()
      modifies this, table, free
      ensures Valid() && Abs() == Step(old(Abs()), Alloc(Item(ptr, size, stack, time), granted))
    {
      hide Chained, Bucket, Distinct, Separate, Items, Chain, Sound;
      StepKeepsSound(Abs(), Alloc(Item(ptr, size, stack, time), granted));
      if !enabled || !tracking || ptr == NULL {
        return;
      }
      var record := TakeRecord(granted);
      if record == null {
        return;
      }
      Enlist(record, ptr, size, stack, time);
      numRecords := numRecords + 1;
      totalAllocations := totalAllocations + 1;
      if numRecords > peakAllocations {
        peakAllocations := numRecords;
        peakBytes := peakBytes + size;
      }
    }

    /** `hlist_del` and `list_del` of a record in use. */
    method Unlist(record: Record)
      requires table.Length == HASH_SIZE && Chained(table[..], allocation)
      requires Separate(allocation, free) && record in allocation
      modifies this`allocation, table
      ensures Chained(table[..], allocation) && Separate(allocation, free)
      ensures allocation == Remove(old(allocation), record) && |allocation| == |old(allocation)| - 1
      ensures Items(allocation) == old(Items(Remove(allocation, record)))
      ensures record !in allocation && record !in free
    {
      hide Chained, Bucket, Chain, Remove, Items;
      ghost var chains := table[..];
      var b := Bucket(record.ptr);
      table[b] := Remove(table[b], record);
      assert table[..] == chains[b := Remove(chains[b], record)];
      ChainedRemove(chains, allocation, record);
      RemoveDistinct(allocation, record);
      allocation := Remove(allocation, record);
    }

    /** Walks the pointer's chain to its newest record. */
    method FindRecord(ptr: Word) returns (record: Record?)
      requires Valid()
      ensures record == Newest(allocation, ptr)
    {
      hide Bucket, Chain, Newest;
      var chain := table[Bucket(ptr)];
      var i := 0;
      while i < |chain| && chain[i].ptr != ptr
        invariant 0 <= i <= |chain|
        invariant forall j :: 0 <= j < i ==> chain[j].ptr != ptr
      {
        i := i + 1;
      }
      assert chain == Chain(allocation, Bucket(ptr));
      FirstHitIsNewest(allocation, ptr, i);
      record := if i < |chain| then chain[i] else null;
    }

    /** `leak_detector_record_dealloc` */
    method RecordDealloc(ptr: Word)
      requires Valid()
      modifies this, table, allocation
      ensures Valid() && Abs() == Step(old(Abs()), Dealloc(ptr))
    {
      hide Chained, Bucket, Distinct, Items, Chain, Sound, Newest, Remove, DropNewest, Outstanding;
      StepKeepsSound(Abs(), Dealloc(ptr));
      if !enabled || !tracking || ptr == NULL {
        return;
      }
      var record := FindRecord(ptr);
      NewestExists(allocation, ptr);
      if record == null {
        return;
      }
      NewestDrops(allocation, record, ptr);
      Unlist(record);
      Retire(record);
      numRecords := numRecords - 1;
      totalDeallocations := totalDeallocations + 1;
    }

    /** Empties a record that is on no list and keeps it as a spare. */
    method Retire(record: Record)
      requires Chained(table[..], allocation) && Separate(allocation, free) && record !in allocation && record !in free
      modifies this`free, record
      ensures Chained(table[..], allocation) && Separate(allocation, free)
      ensures |free| == |old(free)| + 1 && Items(allocation) == old(Items(allocation))
    {
      hide Chained, Items, Chain;
      record.ptr, record.size := NULL, 0;
      free := free + [record];
    }

    /** `leak_detector_clear`: every record in use becomes a spare one. */
    method ClearRecords()
      requires Valid()
      modifies this, table
      ensures Valid() && Abs() == Step(old(Abs()), Clear)
      ensures leakedAllocations == leakedBytes == 0
    {
      hide Chained, Bucket, Sound, Chain, Remove, Distinct;
      StepKeepsSound(Abs(), Clear);
      ghost var total := |allocation| + |free|;
      while allocation != []
        invariant enabled && tracking == old(tracking) && maxRecords == old(maxRecords)
        invariant totalAllocations == old(totalAllocations) && totalDeallocations == old(totalDeallocations)
        invariant peakAllocations == old(peakAllocations) && peakBytes == old(peakBytes)
        invariant Chained(table[..], allocation) && Separate(allocation, free)
        invariant |allocation| + |free| == total
        decreases |allocation|
      {
        var record := allocation[0];
        Unlist(record);
        AppendFree(allocation, free, record);
        free := free + [record];
      }
      numRecords := 0;
      leakedAllocations, leakedBytes := 0, 0;
    }

    /** `leak_detector_update_stats` */
    method UpdateStats()
      requires Valid()
      modifies this`leakedAllocations, this`leakedBytes
      ensures Valid() && Abs() == old(Abs())
      ensures leakedAllocations == |Abs().items| && leakedBytes == Bytes(Abs().items)
    {
      hide Chained, Sound, Separate, Items, Bytes;
      BytesBegin(allocation);
      var leaked := numRecords;
      var bytes := 0;
      var i := 0;
      while i < |allocation|
        invariant 0 <= i <= |allocation| && bytes == Bytes(Items(allocation[..i]))
      {
        BytesNext(allocation, i);
        bytes := bytes + allocation[i].size;
        i := i + 1;
      }
      assert allocation[..i] == allocation;
      leakedAllocations := leaked;
      leakedBytes := bytes;
    }

    /** `generate_leak_report`: stops before a record once the report is full. */
    method GenerateReport() returns (report: Report)
      requires Valid()
      ensures report == ReportOf(Abs().items)
    {
      hide Chained, Sound, Separate, Items, ReportOf, Extend;
      report := EMPTY;
      ReportBegin(allocation);
      var i := 0;
      while i < |allocation| && |report.entries| < REPORT_SIZE
        invariant 0 <= i <= |allocation| && report == ReportOf(Items(allocation[..i]))
      {
        ReportNext(allocation, i);
        report := AddToReport(report, allocation[i]);
        i := i + 1;
      }
      if i < |allocation| {
        ReportStaysFull(allocation, i, |allocation|);
      }
      assert allocation[..|allocation|] == allocation;
    }
  }

  /** One turn of the report loop: find the record's entry or open a new one. */
  method AddToReport(before: Report, record: Record) returns (report: Report)
    requires |before.entries| < REPORT_SIZE
    ensures report == Extend(before, record.Value())
  {
    var entries := before.entries;
    var found := FindEntry(entries, record);
    if found >= 0 {
      var e := entries[found];
      entries := entries[found := e.(count := e.count + 1, bytes := e.bytes + record.size, last := record.time)];
    } else {
      entries := entries + [Entry(record.size, record.stack, 1, record.size, record.time, record.time)];
    }
    report := Report(entries, before.bytes + record.size, before.objects + 1);
  }

  /** The index of the first entry of the record's size and stack, or -1. */
  method FindEntry(entries: seq<Entry>, record: Record) returns (found: int)
    ensures var i := Find(entries, PatternOf(record.Value())); found == if i < |entries| then i else -1
  {
    var i := 0;
    while i < |entries|
      invariant 0 <= i <= |entries|
      invariant forall j :: 0 <= j < i ==> EntryPattern(entries[j]) != PatternOf(record.Value())
    {
      if entries[i].size == record.size && |entries[i].stack| == |record.stack| {
        var same := true;
        var j := 0;
        while j < |record.stack| && j < STACK_DEPTH
          invariant 0 <= j <= |record.stack|
          invariant entries[i].stack[..j] == record.stack[..j]
        {
          if entries[i].stack[j] != record.stack[j] {
            same := false;
            break;
          }
          j := j + 1;
        }
        if same {
          assert entries[i].stack[..j] == entries[i].stack && record.stack[..j] == record.stack;
          return i;
        }
      }
      i := i + 1;
    }
    return -1;
  }

  lemma ReportBegin(all: seq<Record>)
    ensures ReportOf(Items(all[..0])) == EMPTY
  {
  }

  lemma ReportNext(all: seq<Record>, i: nat)
    requires i < |all|
    ensures ReportOf(Items(all[..i + 1])) == Extend(ReportOf(Items(all[..i])), all[i].Value())
  {
    assert all[..i + 1][..i] == all[..i];
    assert Items(all[..i + 1])[..i] == Items(all[..i]);
  }

  lemma {:induction false} ReportStaysFull(all: seq<Record>, i: nat, n: nat)
    requires i <= n <= |all| && |ReportOf(Items(all[..i])).entries| >= REPORT_SIZE
    ensures ReportOf(Items(all[..n])) == ReportOf(Items(all[..i]))
    decreases n
  {
    hide Items, ReportOf;
    if i < n {
      ReportStaysFull(all, i, n - 1);
      ReportNext(all, n - 1);
    }
  }

  lemma BytesBegin(all: seq<Record>)
    ensures Bytes(Items(all[..0])) == 0
  {
  }

  lemma BytesNext(all: seq<Record>, i: nat)
    requires i < |all|
    ensures Bytes(Items(all[..i + 1])) == Bytes(Items(all[..i])) + all[i].size
  {
    assert all[..i + 1][..i] == all[..i];
    assert Items(all[..i + 1])[..i] == Items(all[..i]);
  }

  lemma AppendFree(all: seq<Record>, free: seq<Record>, r: Record)
    requires Separate(all, free) && r !in all && r !in free
    ensures Separate(all, free + [r])
  {
  }

  ghost predicate Separate(all: seq<Record>, free: seq<Record>) {
    Distinct(all) && Distinct(free) && forall r :: r in all ==> r !in free
  }

  lemma TakeFirst(all: seq<Record>, free: seq<Record>)
    requires Separate(all, free) && free != []
    ensures Separate(all, free[1..]) && free[0] !in all && free[0] !in free[1..]
  {
  }

  lemma AppendDistinct(all: seq<Record>, free: seq<Record>, r: Record)
    requires Separate(all, free) && r !in all && r !in free
    ensures Separate(all + [r], free)
  {
  }
}
