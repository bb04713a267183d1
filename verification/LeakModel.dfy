/** The records of src/debug/leak_detector.c as a value, and what every run of events does to them. */
module LeakModel {
  import opened Words
  import opened Seqs

  const STACK_DEPTH: int := 16
  const NULL: Word := 0

  /** A captured call stack, as `backtrace` cuts it off. */
  type Trace = s: seq<Word> | |s| <= STACK_DEPTH

  /** What a record says about one outstanding allocation. */
  datatype Item = Item(ptr: Word, size: Word, stack: Trace, time: Word)

  /** The outstanding records, oldest first, and the counters. */
  datatype Pool = Pool(items: seq<Item>, spare: nat, max: nat, tracking: bool,
                       allocs: nat, deallocs: nat, peak: nat, peakBytes: nat)

  function EmptyPool(max: nat): Pool {
    Pool([], 0, max, false, 0, 0, 0, 0)
  }

  /** One call; `granted` says whether libc has memory for a new record. */
  datatype Event = Alloc(item: Item, granted: bool) | Dealloc(ptr: Word) | Clear | Track(on: bool)

  /** A record is at hand: a spare one, or a new one while the limit allows it. */
  predicate CanRecord(p: Pool, granted: bool) {
    p.spare > 0 || (|p.items| < p.max && granted)
  }

  function RecordAlloc(p: Pool, item: Item, granted: bool): Pool {
    if !p.tracking || item.ptr == NULL || !CanRecord(p, granted) then p
    else
      var items := p.items + [item];
      var q := p.(items := items, spare := if p.spare > 0 then p.spare - 1 else 0, allocs := p.allocs + 1);
      if |items| > p.peak then q.(peak := |items|, peakBytes := p.peakBytes + item.size) else q
  }

  predicate Outstanding(items: seq<Item>, ptr: Word) {
    exists k :: 0 <= k < |items| && items[k].ptr == ptr
  }

  /** The records without the newest one of `ptr`. */
  function DropNewest(items: seq<Item>, ptr: Word): (r: seq<Item>) {
    if items == [] then []
    else
      var front := items[..|items| - 1];
      if Last(items).ptr == ptr then front else DropNewest(front, ptr) + [Last(items)]
  }

  function RecordDealloc(p: Pool, ptr: Word): Pool {
    if !p.tracking || ptr == NULL || !Outstanding(p.items, ptr) then p
    else p.(items := DropNewest(p.items, ptr), spare := p.spare + 1, deallocs := p.deallocs + 1)
  }

  function ClearAll(p: Pool): Pool {
    p.(items := [], spare := p.spare + |p.items|)
  }

  function Step(p: Pool, e: Event): Pool {
    match e
    case Alloc(item, granted) => RecordAlloc(p, item, granted)
    case Dealloc(ptr) => RecordDealloc(p, ptr)
    case Clear => ClearAll(p)
    case Track(on) => p.(tracking := on)
  }

  function Run(p: Pool, es: seq<Event>): Pool {
    if es == [] then p else Step(Run(p, es[..|es| - 1]), Last(es))
  }

  // ---------- Switching tracking off and on ----------

  /** Whether tracking is on after the events: what the latest switch said. */
  function On(before: bool, es: seq<Event>): bool {
    if es == [] then before
    else match Last(es)
         case Track(on) => on
         case _ => On(before, es[..|es| - 1])
  }

  /** The events the detector takes notice of: those before which tracking was on, and the clears. */
  function Seen(before: bool, es: seq<Event>): seq<Event> {
    if es == [] then []
    else
      var front := es[..|es| - 1];
      match Last(es)
      case Track(_) => Seen(before, front)
      case Clear => Seen(before, front) + [Clear]
      case e => if On(before, front) then Seen(before, front) + [e] else Seen(before, front)
  }

  lemma RunAppend(p: Pool, es: seq<Event>, e: Event)
    ensures Run(p, es + [e]) == Step(Run(p, es), e)
  {
    assert (es + [e])[..|es|] == es;
  }

  /** A run with switches is the run of what was seen, with tracking on all the time. */
  lemma {:induction false} SwitchingSelects(p: Pool, es: seq<Event>)
    ensures Run(p, es) == Run(p.(tracking := true), Seen(p.tracking, es)).(tracking := On(p.tracking, es))
    decreases |es|
  {
    hide Step;
    if es != [] {
      var front, e := es[..|es| - 1], Last(es);
      SwitchingSelects(p, front);
      var q := Run(p.(tracking := true), Seen(p.tracking, front));
      SeenHasNoSwitch(p.tracking, front);
      StaysOn(p.(tracking := true), Seen(p.tracking, front));
      RunAppend(p.(tracking := true), Seen(p.tracking, front), e);
      SwitchedStep(q, On(p.tracking, front), e);
    }
  }

  lemma SwitchedStep(q: Pool, on: bool, e: Event)
    requires q.tracking
    ensures Step(q.(tracking := on), e) ==
            match e
            case Track(now) => q.(tracking := now)
            case Clear => Step(q, e).(tracking := on)
            case _ => (if on then Step(q, e) else q).(tracking := on)
  {
  }

  lemma {:induction false} SeenHasNoSwitch(before: bool, es: seq<Event>)
    ensures forall i :: 0 <= i < |Seen(before, es)| ==> !Seen(before, es)[i].Track?
    decreases |es|
  {
    if es != [] {
      SeenHasNoSwitch(before, es[..|es| - 1]);
    }
  }

  lemma {:induction false} StaysOn(p: Pool, es: seq<Event>)
    requires p.tracking && forall i :: 0 <= i < |es| ==> !es[i].Track?
    ensures Run(p, es).tracking
    decreases |es|
  {
    if es != [] {
      assert es[|es| - 1] == Last(es);
      StaysOn(p, es[..|es| - 1]);
    }
  }

  /** Without tracking an allocation or a deallocation leaves no trace, not even in a counter. */
  lemma OffSeesNothing(p: Pool, es: seq<Event>, e: Event)
    requires !On(p.tracking, es) && (e.Alloc? || e.Dealloc?)
    ensures Run(p, es + [e]) == Run(p, es)
  {
    SwitchingSelects(p, es);
    RunAppend(p, es, e);
  }

  /** The record is of an allocation made while tracking was on. */
  ghost predicate WasSeen(before: bool, es: seq<Event>, item: Item) {
    exists i :: 0 <= i < |es| && es[i].Alloc? && es[i].item == item && On(before, es[..i])
  }

  lemma SeenEarlier(before: bool, es: seq<Event>, item: Item)
    requires es != [] && WasSeen(before, es[..|es| - 1], item)
    ensures WasSeen(before, es, item)
  {
    var front := es[..|es| - 1];
    var i :| 0 <= i < |front| && front[i].Alloc? && front[i].item == item && On(before, front[..i]);
    assert front[..i] == es[..i] && es[i] == front[i];
  }

  /** No outstanding record is of an allocation made while tracking was off. */
  lemma {:induction false} RecordsWereSeen(p: Pool, es: seq<Event>, k: nat)
    requires p.items == [] && k < |Run(p, es).items|
    ensures WasSeen(p.tracking, es, Run(p, es).items[k])
    decreases |es|
  {
    hide WasSeen, DropNewest, Outstanding, CanRecord, On;
    var front, e := es[..|es| - 1], Last(es);
    var before, after := Run(p, front), Run(p, es);
    SwitchingSelects(p, front);
    if e.Alloc? && after != before && k == |before.items| {
      AllocIsSeen(p.tracking, es);
    } else {
      var j := k;
      if e.Dealloc? && after != before {
        var gone := DropNewestIsLast(before.items, e.ptr);
        j := if gone == -1 || k < gone then k else k + 1;
      }
      assert before.items[j] == after.items[k];
      RecordsWereSeen(p, front, j);
      SeenEarlier(p.tracking, es, after.items[k]);
    }
  }

  lemma AllocIsSeen(before: bool, es: seq<Event>)
    requires es != [] && Last(es).Alloc? && On(before, es[..|es| - 1])
    ensures WasSeen(before, es, Last(es).item)
  {
    assert es[|es| - 1] == Last(es);
  }

  /** What is freed while tracking is off stays on record. */
  lemma FreedUnseenStays(max: nat, item: Item)
    requires max > 0 && item.ptr != NULL
    ensures Run(EmptyPool(max), [Track(true), Alloc(item, true), Track(false), Dealloc(item.ptr)]).items == [item]
  {
    var start := EmptyPool(max);
    RunAppend(start, [], Track(true));
    RunAppend(start, [Track(true)], Alloc(item, true));
    RunAppend(start, [Track(true), Alloc(item, true)], Track(false));
    RunAppend(start, [Track(true), Alloc(item, true), Track(false)], Dealloc(item.ptr));
    assert [] + [Track(true)] == [Track(true)];
    assert [Track(true)] + [Alloc(item, true)] == [Track(true), Alloc(item, true)];
    assert [Track(true), Alloc(item, true)] + [Track(false)] == [Track(true), Alloc(item, true), Track(false)];
    assert [Track(true), Alloc(item, true), Track(false)] + [Dealloc(item.ptr)] ==
           [Track(true), Alloc(item, true), Track(false), Dealloc(item.ptr)];
  }

  /** The bytes of all outstanding records. */
  function Bytes(items: seq<Item>): nat {
    if items == [] then 0 else Bytes(items[..|items| - 1]) + Last(items).size
  }

  // ---------- One step ----------

  function Without(items: seq<Item>, k: nat): (r: seq<Item>)
    requires k < |items|
    ensures |r| == |items| - 1
    ensures forall i :: 0 <= i < |r| ==> r[i] == items[if i < k then i else i + 1]
  {
    items[..k] + items[k + 1..]
  }

  lemma WithoutExtends(items: seq<Item>, k: nat)
    requires k < |items| - 1
    ensures Without(items[..|items| - 1], k) + [Last(items)] == Without(items, k)
  {
  }

  /** The index of the newest item of `ptr`, or -1. */
  function NewestIndex(items: seq<Item>, ptr: Word): (k: int)
    ensures -1 <= k < |items|
    ensures k != -1 ==> items[k].ptr == ptr
    ensures forall j :: k < j < |items| ==> items[j].ptr != ptr
  {
    if items == [] then -1
    else
      var n := |items| - 1;
      if items[n].ptr == ptr then n else NewestIndex(items[..n], ptr)
  }

  lemma {:induction false} DropsAtNewest(items: seq<Item>, ptr: Word)
    ensures var k := NewestIndex(items, ptr);
            DropNewest(items, ptr) == if k == -1 then items else Without(items, k)
    decreases |items|
  {
    hide Without;
    if items != [] {
      var n := |items| - 1;
      if items[n].ptr == ptr {
        DropLast(items);
      } else {
        DropsAtNewest(items[..n], ptr);
        assert items == items[..n] + [items[n]];
        if NewestIndex(items[..n], ptr) != -1 {
          WithoutExtends(items, NewestIndex(items[..n], ptr));
        }
      }
    }
  }

  /** Exactly the last occurrence goes; without one nothing changes. */
  lemma DropNewestIsLast(items: seq<Item>, ptr: Word) returns (k: int)
    ensures k == -1 <==> !Outstanding(items, ptr)
    ensures k == -1 ==> DropNewest(items, ptr) == items
    ensures k != -1 ==>
              && 0 <= k < |items| && items[k].ptr == ptr
              && (forall j :: k < j < |items| ==> items[j].ptr != ptr)
              && DropNewest(items, ptr) == Without(items, k)
  {
    hide Without, DropNewest, NewestIndex;
    DropsAtNewest(items, ptr);
    k := NewestIndex(items, ptr);
  }

  lemma DropLast(items: seq<Item>)
    requires items != []
    ensures Without(items, |items| - 1) == items[..|items| - 1]
  {
  }

  lemma DropNewestLength(items: seq<Item>, ptr: Word)
    ensures |DropNewest(items, ptr)| == |items| - (if Outstanding(items, ptr) then 1 else 0)
  {
    var k := DropNewestIsLast(items, ptr);
  }

  // ---------- Every run ----------

  /** What every run keeps. */
  predicate Sound(p: Pool) {
    && |p.items| + p.spare == p.peak <= p.max
    && (forall k :: 0 <= k < |p.items| ==> p.items[k].ptr != NULL)
  }

  lemma StepKeepsSound(p: Pool, e: Event)
    requires Sound(p)
    ensures Sound(Step(p, e)) && Step(p, e).max == p.max
  {
    if e.Dealloc? {
      var k := DropNewestIsLast(p.items, e.ptr);
    }
  }

  /**
   The pool never holds more records, used and spare, than its limit, and never more than were in use at once: a
   spare one is taken before a new one is made.
   */
  lemma {:induction false} PoolStaysWithinLimit(max: nat, es: seq<Event>)
    ensures Sound(Run(EmptyPool(max), es)) && Run(EmptyPool(max), es).max == max
    decreases |es|
  {
    if es != [] {
      PoolStaysWithinLimit(max, es[..|es| - 1]);
      StepKeepsSound(Run(EmptyPool(max), es[..|es| - 1]), Last(es));
    }
  }

  /** How many records the clears of a run have dropped. */
  function Cleared(p: Pool, es: seq<Event>): nat {
    if es == [] then 0
    else Cleared(p, es[..|es| - 1]) + (if Last(es).Clear? then |Run(p, es[..|es| - 1]).items| else 0)
  }

  /** Allocations recorded are outstanding, deallocated or dropped by a clear. */
  lemma {:induction false} RecordsAreConserved(max: nat, es: seq<Event>)
    ensures var p := Run(EmptyPool(max), es);
            p.allocs == p.deallocs + |p.items| + Cleared(EmptyPool(max), es)
    decreases |es|
  {
    if es != [] {
      RecordsAreConserved(max, es[..|es| - 1]);
      var p := Run(EmptyPool(max), es[..|es| - 1]);
      if Last(es).Dealloc? {
        DropNewestLength(p.items, Last(es).ptr);
      }
    }
  }

  lemma {:induction false} RunPrefix(p: Pool, es: seq<Event>, i: nat)
    requires i < |es|
    ensures es[..|es| - 1][..i] == es[..i]
  {
  }

  /** `peak_allocations` is the largest number of records ever outstanding. */
  lemma {:induction false} PeakIsRunningMaximum(max: nat, es: seq<Event>)
    ensures var peak := Run(EmptyPool(max), es).peak;
            && (forall i :: 0 <= i <= |es| ==> |Run(EmptyPool(max), es[..i]).items| <= peak)
            && (exists i :: 0 <= i <= |es| && |Run(EmptyPool(max), es[..i]).items| == peak)
    decreases |es|
  {
    var p := EmptyPool(max);
    if es == [] {
      assert |Run(p, es[..0]).items| == 0;
    } else {
      var front := es[..|es| - 1];
      PeakIsRunningMaximum(max, front);
      var before, after := Run(p, front), Run(p, es);
      PoolStaysWithinLimit(max, front);
      StepKeepsSound(before, Last(es));
      assert es[..|es|] == es;
      forall i | 0 <= i <= |es|
        ensures |Run(p, es[..i]).items| <= after.peak
      {
        if i < |es| {
          RunPrefix(p, es, i);
          assert |Run(p, front[..i]).items| <= before.peak;
        }
      }
      if after.peak == before.peak {
        var i :| 0 <= i <= |front| && |Run(p, front[..i]).items| == before.peak;
        RunPrefix(p, es, i);
        assert |Run(p, es[..i]).items| == after.peak;
      } else {
        assert |Run(p, es[..|es|]).items| == after.peak;
      }
    }
  }

  /**
   An allocation is recorded exactly when tracking is on, the pointer is not NULL, and either fewer records are in use
   than were at some earlier point or a new one is within the limit and libc gives the memory.
   */
  lemma RecordedIff(max: nat, es: seq<Event>, item: Item, granted: bool)
    ensures var n := |Run(EmptyPool(max), es).items|;
            |Run(EmptyPool(max), es + [Alloc(item, granted)]).items| == n + 1 <==>
            On(false, es) && item.ptr != NULL &&
            ((exists i :: 0 <= i <= |es| && n < |Run(EmptyPool(max), es[..i]).items|) || (n < max && granted))
  {
    var p := Run(EmptyPool(max), es);
    RunAppend(EmptyPool(max), es, Alloc(item, granted));
    SwitchingSelects(EmptyPool(max), es);
    PoolStaysWithinLimit(max, es);
    PeakIsRunningMaximum(max, es);
    if p.spare > 0 {
      var i :| 0 <= i <= |es| && |Run(EmptyPool(max), es[..i]).items| == p.peak;
      assert |p.items| < |Run(EmptyPool(max), es[..i]).items|;
    }
  }

  /** More records are in use after the run than at any point before. */
  ghost predicate NewHigh(max: nat, es: seq<Event>) {
    es != [] &&
    forall i :: 0 <= i < |es| ==> |Run(EmptyPool(max), es[..i]).items| < |Run(EmptyPool(max), es).items|
  }

  /** How many calls of a run added a record, and the sizes of those that reached a new high. */
  ghost function Additions(max: nat, es: seq<Event>): nat {
    if es == [] then 0
    else
      var front := es[..|es| - 1];
      Additions(max, front) +
      if |Run(EmptyPool(max), es).items| > |Run(EmptyPool(max), front).items| then 1 else 0
  }

  ghost function HighSizes(max: nat, es: seq<Event>): nat {
    if es == [] then 0
    else
      HighSizes(max, es[..|es| - 1]) + if NewHigh(max, es) && Last(es).Alloc? then Last(es).item.size else 0
  }

  /** The peak moves exactly with a new high. */
  lemma PeakMoves(max: nat, es: seq<Event>)
    requires es != []
    ensures var front := es[..|es| - 1];
            NewHigh(max, es) <==> |Run(EmptyPool(max), es).items| > Run(EmptyPool(max), front).peak
  {
    var front, n := es[..|es| - 1], |Run(EmptyPool(max), es).items|;
    PeakIsRunningMaximum(max, front);
    forall i | 0 <= i <= |front| ensures es[..i] == front[..i] {
    }
    if NewHigh(max, es) {
      var i :| 0 <= i <= |front| && |Run(EmptyPool(max), front[..i]).items| == Run(EmptyPool(max), front).peak;
      assert es[..i] == front[..i];
    }
  }

  /**
   `total_allocations` counts the records added. `peak_bytes` is not the bytes at the peak: it is the sum of the sizes
   of those allocations alone that reached a new high.
   */
  lemma {:induction false} CountersAre(max: nat, es: seq<Event>)
    ensures var p := Run(EmptyPool(max), es);
            p.allocs == Additions(max, es) && p.peakBytes == HighSizes(max, es)
    decreases |es|
  {
    hide NewHigh;
    if es != [] {
      var front := es[..|es| - 1];
      CountersAre(max, front);
      PeakMoves(max, es);
      PoolStaysWithinLimit(max, front);
      if Last(es).Dealloc? {
        DropNewestLength(Run(EmptyPool(max), front).items, Last(es).ptr);
      }
    }
  }

  // ---------- The records against the truth ----------

  /** The allocations a program has live, cleared ones forgotten. */
  function Live(es: seq<Event>): map<Word, Item> {
    if es == [] then map[]
    else
      var before := Live(es[..|es| - 1]);
      match Last(es)
      case Alloc(item, _) => before[item.ptr := item]
      case Dealloc(ptr) => before - {ptr}
      case Clear => map[]
      case Track(_) => before
  }

  /** An allocator never hands out a live pointer, and tracking stays on. */
  ghost predicate Orderly(es: seq<Event>) {
    forall i :: 0 <= i < |es| ==>
      match es[i]
      case Alloc(item, _) => item.ptr != NULL && item.ptr !in Live(es[..i])
      case Track(on) => on
      case _ => true
  }

  /** Every allocation found a record. */
  ghost predicate AllRecorded(p: Pool, es: seq<Event>) {
    forall i :: 0 <= i < |es| && es[i].Alloc? ==> CanRecord(Run(p, es[..i]), es[i].granted)
  }

  /** The records are of live allocations, one each. */
  ghost predicate Records(items: seq<Item>, live: map<Word, Item>) {
    && (forall i, j :: 0 <= i < j < |items| ==> items[i].ptr != items[j].ptr)
    && (forall i :: 0 <= i < |items| ==> items[i].ptr in live && live[items[i].ptr] == items[i])
  }

  lemma OrderlyPrefix(p: Pool, es: seq<Event>)
    requires es != [] && Orderly(es)
    ensures Orderly(es[..|es| - 1])
    ensures AllRecorded(p, es) ==> AllRecorded(p, es[..|es| - 1])
  {
    var front := es[..|es| - 1];
    forall i | 0 <= i < |front| ensures front[..i] == es[..i] && front[i] == es[i] {
    }
  }

  lemma RecordsAfterDealloc(items: seq<Item>, live: map<Word, Item>, ptr: Word)
    requires Records(items, live)
    ensures Records(DropNewest(items, ptr), live - {ptr})
  {
    hide DropNewest, Without;
    var k := DropNewestIsLast(items, ptr);
    if k == -1 {
      assert forall i :: 0 <= i < |items| ==> items[i].ptr != ptr;
    }
  }

  lemma OthersStayOutstanding(items: seq<Item>, ptr: Word, q: Word)
    requires q != ptr && Outstanding(items, q)
    ensures Outstanding(DropNewest(items, ptr), q)
  {
    hide DropNewest, Without;
    var k := DropNewestIsLast(items, ptr);
    var i :| 0 <= i < |items| && items[i].ptr == q;
    if k != -1 {
      var j := if i < k then i else i - 1;
      assert Without(items, k)[j] == items[i];
    }
  }

  lemma {:induction false} RecordsWhileTracking(start: Pool, es: seq<Event>)
    requires start.items == [] && start.tracking && Orderly(es)
    ensures var p := Run(start, es); p.tracking && Records(p.items, Live(es))
    ensures AllRecorded(start, es) ==> forall q :: q in Live(es) ==> Outstanding(Run(start, es).items, q)
    decreases |es|
  {
    if es != [] {
      var n := |es| - 1;
      var front := es[..n];
      OrderlyPrefix(start, es);
      RecordsWhileTracking(start, front);
      var p := Run(start, front);
      assert es[n] == Last(es);
      match es[n] {
        case Alloc(item, granted) =>
          assert item.ptr !in Live(es[..n]);
          var q := Run(start, es);
          if CanRecord(p, granted) {
            assert q.items == p.items + [item];
            assert q.items[|p.items|].ptr == item.ptr;
            assert forall i :: 0 <= i < |p.items| ==> q.items[i] == p.items[i];
          }
        case Dealloc(ptr) =>
          RecordsAfterDealloc(p.items, Live(front), ptr);
          NullIsNeverLive(front);
          if !Outstanding(p.items, ptr) {
            DropWithoutRecord(p.items, ptr);
          }
          forall q | q in Live(front) && q != ptr && Outstanding(p.items, q)
            ensures Outstanding(DropNewest(p.items, ptr), q)
          {
            OthersStayOutstanding(p.items, ptr, q);
          }
        case Clear =>
        case Track(on) =>
      }
    }
  }

  lemma DropWithoutRecord(items: seq<Item>, ptr: Word)
    requires !Outstanding(items, ptr)
    ensures DropNewest(items, ptr) == items
  {
    var k := DropNewestIsLast(items, ptr);
  }

  lemma {:induction false} NullIsNeverLive(es: seq<Event>)
    requires Orderly(es)
    ensures NULL !in Live(es)
    decreases |es|
  {
    if es != [] {
      OrderlyPrefix(EmptyPool(0), es);
      NullIsNeverLive(es[..|es| - 1]);
      assert es[|es| - 1] == Last(es);
    }
  }

  lemma {:induction false} RecordsAreFewer(items: seq<Item>, live: map<Word, Item>)
    requires Records(items, live)
    ensures |items| <= |live|
    decreases |items|
  {
    if items != [] {
      var ptr := Last(items).ptr;
      var front := items[..|items| - 1];
      assert Records(front, live - {ptr}) by {
        assert forall i :: 0 <= i < |front| ==> front[i].ptr != ptr;
      }
      RecordsAreFewer(front, live - {ptr});
      assert (live - {ptr})[ptr := live[ptr]] == live;
    }
  }

  /**
   For every run, switches included, in which no pointer seen live is handed out again: the records are of allocations
   that are live as far as the detector saw, and when none was dropped for want of a record they are all of them.
   */
  lemma LeaksAreExactlyTheLive(start: Pool, es: seq<Event>)
    requires start.items == [] && Orderly(Seen(start.tracking, es))
    ensures var seen := Seen(start.tracking, es);
            && Records(Run(start, es).items, Live(seen))
            && (AllRecorded(start.(tracking := true), seen) ==>
                  forall q :: q in Live(seen) ==> Outstanding(Run(start, es).items, q))
  {
    SwitchingSelects(start, es);
    RecordsWhileTracking(start.(tracking := true), Seen(start.tracking, es));
  }

  /** A program with fewer live allocations than the limit is tracked without a gap. */
  lemma EnoughRecords(max: nat, on: bool, es: seq<Event>)
    requires var seen := Seen(on, es);
             && Orderly(seen)
             && forall i :: 0 <= i < |seen| && seen[i].Alloc? ==> seen[i].granted && |Live(seen[..i])| < max
    ensures var start := EmptyPool(max).(tracking := on);
            forall q :: q in Live(Seen(on, es)) <==> Outstanding(Run(start, es).items, q)
  {
    var start, seen := EmptyPool(max).(tracking := true), Seen(on, es);
    forall i | 0 <= i < |seen| && seen[i].Alloc?
      ensures CanRecord(Run(start, seen[..i]), seen[i].granted)
    {
      OrderlyUpTo(seen, i);
      RecordsWhileTracking(start, seen[..i]);
      RecordsAreFewer(Run(start, seen[..i]).items, Live(seen[..i]));
      LimitIsFixed(start, seen[..i]);
    }
    LeaksAreExactlyTheLive(EmptyPool(max).(tracking := on), es);
  }

  lemma {:induction false} LimitIsFixed(p: Pool, es: seq<Event>)
    ensures Run(p, es).max == p.max
    decreases |es|
  {
    if es != [] {
      LimitIsFixed(p, es[..|es| - 1]);
    }
  }

  lemma OrderlyUpTo(es: seq<Event>, n: nat)
    requires Orderly(es) && n <= |es|
    ensures Orderly(es[..n])
  {
    forall i | 0 <= i < n ensures es[..n][..i] == es[..i] && es[..n][i] == es[i] {
    }
  }
}
