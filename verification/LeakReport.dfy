/** The leak report of src/debug/leak_detector.c: outstanding records grouped by size and call stack. */
module LeakReport {
  import opened Words
  import opened Seqs
  import opened LeakModel

  const REPORT_SIZE: int := 64

  /** `struct leak_report_entry` */
  datatype Entry = Entry(size: Word, stack: Trace, count: nat, bytes: nat, first: Word, last: Word)

  /** `struct leak_report` */
  datatype Report = Report(entries: seq<Entry>, bytes: nat, objects: nat)

  const EMPTY: Report := Report([], 0, 0)

  /** Two allocations are alike when they have the same size and the same call stack. */
  datatype Pattern = Pattern(size: Word, stack: Trace)

  function PatternOf(item: Item): Pattern {
    Pattern(item.size, item.stack)
  }

  function EntryPattern(e: Entry): Pattern {
    Pattern(e.size, e.stack)
  }

  /** The first entry of the pattern, or the number of entries. */
  function Find(entries: seq<Entry>, pat: Pattern): (i: nat)
    ensures i <= |entries|
    ensures i < |entries| ==> EntryPattern(entries[i]) == pat
    ensures forall j :: 0 <= j < i ==> EntryPattern(entries[j]) != pat
  {
    if entries == [] || EntryPattern(entries[0]) == pat then 0 else 1 + Find(entries[1..], pat)
  }

  /** One more record, unless the report is full. */
  function Extend(r: Report, item: Item): Report {
    if |r.entries| >= REPORT_SIZE then r
    else
      var i := Find(r.entries, PatternOf(item));
      var entries :=
        if i < |r.entries| then
          var e := r.entries[i];
          r.entries[i := e.(count := e.count + 1, bytes := e.bytes + item.size, last := item.time)]
        else r.entries + [Entry(item.size, item.stack, 1, item.size, item.time, item.time)];
      Report(entries, r.bytes + item.size, r.objects + 1)
  }

  function ReportOf(items: seq<Item>): Report {
    if items == [] then EMPTY else Extend(ReportOf(items[..|items| - 1]), Last(items))
  }

  /** How many records the report looks at. */
  function Processed(items: seq<Item>): (n: nat)
    ensures n <= |items|
  {
    if items == [] then 0
    else
      var front := items[..|items| - 1];
      if |ReportOf(front).entries| >= REPORT_SIZE then Processed(front) else |items|
  }

  // ---------- The reference: what a group-by is ----------

  function Count(items: seq<Item>, pat: Pattern): nat {
    if items == [] then 0
    else Count(items[..|items| - 1], pat) + (if PatternOf(Last(items)) == pat then 1 else 0)
  }

  ghost function Patterns(items: seq<Item>): set<Pattern> {
    set k | 0 <= k < |items| :: PatternOf(items[k])
  }

  predicate FirstSeen(items: seq<Item>, pat: Pattern, t: Word) {
    exists k :: 0 <= k < |items| && PatternOf(items[k]) == pat && items[k].time == t &&
      forall j :: 0 <= j < k ==> PatternOf(items[j]) != pat
  }

  predicate LastSeen(items: seq<Item>, pat: Pattern, t: Word) {
    exists k :: 0 <= k < |items| && PatternOf(items[k]) == pat && items[k].time == t &&
      forall j :: k < j < |items| ==> PatternOf(items[j]) != pat
  }

  ghost predicate Describes(e: Entry, items: seq<Item>) {
    && e.count == Count(items, EntryPattern(e)) && e.count >= 1
    && e.bytes == e.count * e.size
    && FirstSeen(items, EntryPattern(e), e.first)
    && LastSeen(items, EntryPattern(e), e.last)
  }

  /** `entries` is the group-by of `items`: one entry a pattern, each with the exact numbers. */
  ghost predicate Groups(entries: seq<Entry>, items: seq<Item>) {
    && (forall i, j :: 0 <= i < j < |entries| ==> EntryPattern(entries[i]) != EntryPattern(entries[j]))
    && (forall i :: 0 <= i < |entries| ==> Describes(entries[i], items))
    && (forall k :: 0 <= k < |items| ==> Find(entries, PatternOf(items[k])) < |entries|)
  }

  function SumCount(entries: seq<Entry>): nat {
    if entries == [] then 0 else SumCount(entries[..|entries| - 1]) + Last(entries).count
  }

  function SumBytes(entries: seq<Entry>): nat {
    if entries == [] then 0 else SumBytes(entries[..|entries| - 1]) + Last(entries).bytes
  }

  // ---------- One more record ----------

  lemma SeenOther(items: seq<Item>, item: Item, pat: Pattern, t: Word)
    requires PatternOf(item) != pat
    ensures FirstSeen(items, pat, t) ==> FirstSeen(items + [item], pat, t)
    ensures LastSeen(items, pat, t) ==> LastSeen(items + [item], pat, t)
    ensures Count(items + [item], pat) == Count(items, pat)
  {
    var all := items + [item];
    assert all[..|items|] == items;
    if FirstSeen(items, pat, t) {
      var k :| 0 <= k < |items| && PatternOf(items[k]) == pat && items[k].time == t &&
               forall j :: 0 <= j < k ==> PatternOf(items[j]) != pat;
      assert all[k] == items[k];
    }
    if LastSeen(items, pat, t) {
      var k :| 0 <= k < |items| && PatternOf(items[k]) == pat && items[k].time == t &&
               forall j :: k < j < |items| ==> PatternOf(items[j]) != pat;
      assert all[k] == items[k];
    }
  }

  lemma SeenAgain(items: seq<Item>, item: Item, t: Word)
    ensures var pat := PatternOf(item);
            && (FirstSeen(items, pat, t) ==> FirstSeen(items + [item], pat, t))
            && LastSeen(items + [item], pat, item.time)
            && Count(items + [item], pat) == Count(items, pat) + 1
  {
    var pat := PatternOf(item);
    var all := items + [item];
    assert all[..|items|] == items;
    assert all[|items|] == item;
    if FirstSeen(items, pat, t) {
      var k :| 0 <= k < |items| && PatternOf(items[k]) == pat && items[k].time == t &&
               forall j :: 0 <= j < k ==> PatternOf(items[j]) != pat;
      assert all[k] == items[k];
    }
  }

  /** A pattern that no entry has was never seen. */
  lemma NewPattern(entries: seq<Entry>, items: seq<Item>, item: Item)
    requires Groups(entries, items) && Find(entries, PatternOf(item)) == |entries|
    ensures Count(items, PatternOf(item)) == 0 && FirstSeen(items + [item], PatternOf(item), item.time)
    ensures forall k :: 0 <= k < |items| ==> PatternOf(items[k]) != PatternOf(item)
  {
    var pat := PatternOf(item);
    forall k | 0 <= k < |items| ensures PatternOf(items[k]) != pat {
      assert Find(entries, PatternOf(items[k])) < |entries|;
    }
    NeverCounted(items, pat);
    assert (items + [item])[|items|] == item;
  }

  lemma {:induction false} NeverCounted(items: seq<Item>, pat: Pattern)
    requires forall k :: 0 <= k < |items| ==> PatternOf(items[k]) != pat
    ensures Count(items, pat) == 0
    decreases |items|
  {
    if items != [] {
      NeverCounted(items[..|items| - 1], pat);
    }
  }

  lemma FindIs(entries: seq<Entry>, i: nat)
    requires i < |entries|
    ensures Find(entries, EntryPattern(entries[i])) <= i
  {
  }

  lemma DescribesOther(e: Entry, items: seq<Item>, item: Item)
    requires Describes(e, items) && EntryPattern(e) != PatternOf(item)
    ensures Describes(e, items + [item])
  {
    SeenOther(items, item, EntryPattern(e), e.first);
    SeenOther(items, item, EntryPattern(e), e.last);
  }

  lemma DescribesAgain(e: Entry, items: seq<Item>, item: Item)
    requires Describes(e, items) && EntryPattern(e) == PatternOf(item)
    ensures Describes(e.(count := e.count + 1, bytes := e.bytes + item.size, last := item.time), items + [item])
  {
    hide FirstSeen, LastSeen, Count;
    SeenAgain(items, item, e.first);
    OneMoreOf(e.count, e.size);
  }

  lemma OneMoreOf(count: nat, size: nat)
    ensures (count + 1) * size == count * size + size
  {
  }

  lemma DescribesNew(entries: seq<Entry>, items: seq<Item>, item: Item)
    requires Groups(entries, items) && Find(entries, PatternOf(item)) == |entries|
    ensures Describes(Entry(item.size, item.stack, 1, item.size, item.time, item.time), items + [item])
  {
    NewPattern(entries, items, item);
    SeenAgain(items, item, item.time);
  }

  lemma ExtendGroups(r: Report, items: seq<Item>, item: Item)
    requires Groups(r.entries, items) && |r.entries| < REPORT_SIZE
    ensures Groups(Extend(r, item).entries, items + [item])
  {
    hide Describes, Find, FirstSeen, LastSeen, Count;
    var pat := PatternOf(item);
    var i := Find(r.entries, pat);
    var es := Extend(r, item).entries;
    var all := items + [item];
    if i == |r.entries| {
      DescribesNew(r.entries, items, item);
    } else {
      DescribesAgain(r.entries[i], items, item);
    }
    forall j | 0 <= j < |r.entries| && j != i
      ensures Describes(es[j], all)
    {
      assert EntryPattern(r.entries[j]) != pat by {
        if i < |r.entries| {
          assert EntryPattern(r.entries[i]) == pat;
        }
      }
      DescribesOther(r.entries[j], items, item);
    }
    forall k | 0 <= k < |all|
      ensures Find(es, PatternOf(all[k])) < |es|
    {
      var f := if k < |items| then Find(r.entries, PatternOf(items[k])) else i;
      assert EntryPattern(es[f]) == PatternOf(all[k]);
      FindIs(es, f);
    }
  }

  // ---------- The whole report ----------

  lemma {:induction false} ReportStops(items: seq<Item>)
    ensures ReportOf(items) == ReportOf(items[..Processed(items)])
    ensures Processed(items[..Processed(items)]) == Processed(items)
    ensures Processed(items) < |items| ==> |ReportOf(items).entries| >= REPORT_SIZE
    decreases |items|
  {
    if items != [] {
      var front := items[..|items| - 1];
      if |ReportOf(front).entries| >= REPORT_SIZE {
        ReportStops(front);
        assert front[..Processed(front)] == items[..Processed(front)];
      } else {
        assert items[..|items|] == items;
      }
    }
  }

  lemma {:induction false} PrefixGroups(items: seq<Item>)
    requires Processed(items) == |items|
    ensures Groups(ReportOf(items).entries, items) && |ReportOf(items).entries| <= REPORT_SIZE
    ensures ReportOf(items).objects == |items| && ReportOf(items).bytes == Bytes(items)
    decreases |items|
  {
    hide Groups, Extend;
    ExtendTotals();
    if items == [] {
      NothingGroups();
    } else {
      var front := items[..|items| - 1];
      ReportStops(front);
      assert |ReportOf(front).entries| < REPORT_SIZE;
      PrefixGroups(front);
      ExtendGroups(ReportOf(front), front, Last(items));
      assert front + [Last(items)] == items;
    }
  }

  lemma ExtendTotals()
    ensures forall r: Report, item :: |r.entries| < REPORT_SIZE ==>
              && Extend(r, item).objects == r.objects + 1 && Extend(r, item).bytes == r.bytes + item.size
              && |Extend(r, item).entries| <= |r.entries| + 1
  {
  }

  lemma NothingGroups()
    ensures Groups([], [])
  {
  }

  /**
   The report is the exact group-by of the records it looks at. Those are all of them, or they end with the record
   that made the sixty-fourth entry.
   */
  lemma ReportIsGroupBy(items: seq<Item>)
    ensures var n, r := Processed(items), ReportOf(items);
            && Groups(r.entries, items[..n]) && |r.entries| <= 64
            && r.objects == n && r.bytes == Bytes(items[..n])
            && (n < |items| ==>
                  && |r.entries| == 64 && n > 0
                  && forall k :: 0 <= k < n - 1 ==> PatternOf(items[k]) != PatternOf(items[n - 1]))
  {
    hide Groups, ReportOf, Bytes, PatternOf, Processed;
    var n := Processed(items);
    var seen := items[..n];
    ReportStops(items);
    PrefixGroups(seen);
    if n < |items| {
      FullByLast(seen);
      assert forall k :: 0 <= k < n ==> seen[k] == items[k];
    }
  }

  /** The record that fills the report is the first of its pattern. */
  lemma FullByLast(items: seq<Item>)
    requires Processed(items) == |items| && |ReportOf(items).entries| >= REPORT_SIZE
    ensures items != []
    ensures forall k :: 0 <= k < |items| - 1 ==> PatternOf(items[k]) != PatternOf(items[|items| - 1])
  {
    hide Groups, Find, PatternOf;
    var front := items[..|items| - 1];
    var r := ReportOf(front);
    ReportStops(front);
    PrefixGroups(front);
    assert Find(r.entries, PatternOf(Last(items))) == |r.entries|;
    NewPattern(r.entries, front, Last(items));
    assert forall k :: 0 <= k < |front| ==> front[k] == items[k];
  }

  // ---------- The order of the entries ----------

  /** Where the pattern first occurs, or the number of records. */
  function FirstAt(items: seq<Item>, pat: Pattern): (i: nat)
    ensures i <= |items| && (i < |items| ==> PatternOf(items[i]) == pat)
    ensures forall j :: 0 <= j < i ==> PatternOf(items[j]) != pat
  {
    if items == [] || PatternOf(items[0]) == pat then 0 else 1 + FirstAt(items[1..], pat)
  }

  /** Where the pattern of each entry first occurs. */
  ghost function Places(entries: seq<Entry>, items: seq<Item>): (p: seq<nat>)
    ensures |p| == |entries|
  {
    seq(|entries|, i requires 0 <= i < |entries| => FirstAt(items, EntryPattern(entries[i])))
  }

  ghost predicate Rising(p: seq<nat>, n: nat) {
    && (forall i :: 0 <= i < |p| ==> p[i] < n)
    && (forall i, j :: 0 <= i < j < |p| ==> p[i] < p[j])
  }

  lemma FirstAtAppend(items: seq<Item>, item: Item, pat: Pattern)
    ensures var f := FirstAt(items, pat);
            && (f < |items| ==> FirstAt(items + [item], pat) == f)
            && (f == |items| && PatternOf(item) == pat ==> FirstAt(items + [item], pat) == f)
  {
    var f, g := FirstAt(items, pat), FirstAt(items + [item], pat);
    assert forall j :: 0 <= j < |items| ==> (items + [item])[j] == items[j];
    assert (items + [item])[|items|] == item;
  }

  lemma NeverAt(items: seq<Item>, item: Item)
    requires forall k :: 0 <= k < |items| ==> PatternOf(items[k]) != PatternOf(item)
    ensures FirstAt(items + [item], PatternOf(item)) == |items|
  {
    assert FirstAt(items, PatternOf(item)) == |items|;
    FirstAtAppend(items, item, PatternOf(item));
  }

  lemma SamePlace(e: Entry, f: Entry, items: seq<Item>, item: Item)
    requires EntryPattern(e) == EntryPattern(f) && FirstAt(items, EntryPattern(e)) < |items|
    ensures FirstAt(items + [item], EntryPattern(f)) == FirstAt(items, EntryPattern(e))
  {
    FirstAtAppend(items, item, EntryPattern(e));
  }

  lemma ExtendPlaces(r: Report, items: seq<Item>, item: Item)
    requires Rising(Places(r.entries, items), |items|)
    requires |r.entries| < REPORT_SIZE ==> Groups(r.entries, items)
    ensures var p := Places(r.entries, items);
            var q := Places(Extend(r, item).entries, items + [item]);
            q == p || q == p + [|items|]
  {
    hide Groups, FirstAt, Find, EntryPattern, PatternOf;
    var p, es := Places(r.entries, items), Extend(r, item).entries;
    var q := Places(es, items + [item]);
    ExtendPatterns(r, item);
    forall i | 0 <= i < |p| ensures q[i] == p[i] {
      assert p[i] < |items|;
      SamePlace(r.entries[i], es[i], items, item);
    }
    if |es| > |r.entries| {
      NewPattern(r.entries, items, item);
      NeverAt(items, item);
    }
  }

  lemma ExtendPatterns(r: Report, item: Item)
    ensures var es := Extend(r, item).entries;
            && |r.entries| <= |es| <= |r.entries| + 1
            && (forall i :: 0 <= i < |r.entries| ==> EntryPattern(es[i]) == EntryPattern(r.entries[i]))
            && (|es| > |r.entries| ==>
                  && |r.entries| < REPORT_SIZE && EntryPattern(es[|r.entries|]) == PatternOf(item)
                  && Find(r.entries, PatternOf(item)) == |r.entries|)
  {
  }

  /** The entries come in the order in which their patterns first occur among the records, the oldest first. */
  lemma {:induction false} EntriesInOrder(items: seq<Item>)
    ensures Rising(Places(ReportOf(items).entries, items), |items|)
    decreases |items|
  {
    hide Places, Groups, Extend;
    if items != [] {
      var front := items[..|items| - 1];
      EntriesInOrder(front);
      if |ReportOf(front).entries| < REPORT_SIZE {
        ReportStops(front);
        PrefixGroups(front);
      }
      ExtendPlaces(ReportOf(front), front, Last(items));
      assert front + [Last(items)] == items;
    }
  }

  lemma {:induction false} SumBytesStep(entries: seq<Entry>, i: nat, e: Entry)
    requires i < |entries|
    ensures SumBytes(entries[i := e]) == SumBytes(entries) - entries[i].bytes + e.bytes
    ensures SumCount(entries[i := e]) == SumCount(entries) - entries[i].count + e.count
    decreases |entries|
  {
    var n := |entries| - 1;
    if i < n {
      SumBytesStep(entries[..n], i, e);
      assert entries[i := e][..n] == entries[..n][i := e];
    } else {
      assert entries[i := e][..n] == entries[..n];
    }
  }

  /** The entries add up to the totals, whatever the records are. */
  lemma {:induction false} EntriesAddUp(items: seq<Item>)
    ensures var r := ReportOf(items); SumCount(r.entries) == r.objects && SumBytes(r.entries) == r.bytes
    decreases |items|
  {
    if items != [] {
      EntriesAddUp(items[..|items| - 1]);
      ExtendAddsUp(ReportOf(items[..|items| - 1]), Last(items));
    }
  }

  lemma ExtendAddsUp(r: Report, item: Item)
    requires SumCount(r.entries) == r.objects && SumBytes(r.entries) == r.bytes
    ensures var q := Extend(r, item); SumCount(q.entries) == q.objects && SumBytes(q.entries) == q.bytes
  {
    hide Find, PatternOf, SumCount, SumBytes;
    var i := Find(r.entries, PatternOf(item));
    if |r.entries| < REPORT_SIZE {
      if i < |r.entries| {
        var e := r.entries[i];
        SumBytesStep(r.entries, i, e.(count := e.count + 1, bytes := e.bytes + item.size, last := item.time));
      } else {
        SumAppend(r.entries, Entry(item.size, item.stack, 1, item.size, item.time, item.time));
      }
    }
  }

  lemma SumAppend(entries: seq<Entry>, e: Entry)
    ensures SumCount(entries + [e]) == SumCount(entries) + e.count
    ensures SumBytes(entries + [e]) == SumBytes(entries) + e.bytes
  {
    assert (entries + [e])[..|entries|] == entries;
  }

  /** A group-by has as many entries as there are patterns. */
  lemma {:induction false} OneEntryPerPattern(entries: seq<Entry>, items: seq<Item>)
    requires Groups(entries, items)
    ensures |entries| == |Patterns(items)|
  {
    var pats := seq(|entries|, i requires 0 <= i < |entries| => EntryPattern(entries[i]));
    DistinctCount(pats);
    forall p ensures p in Elements(pats) <==> p in Patterns(items) {
      if p in Patterns(items) {
        var k :| 0 <= k < |items| && PatternOf(items[k]) == p;
        assert Find(entries, PatternOf(items[k])) < |entries|;
        assert pats[Find(entries, p)] == p;
      }
      if p in Elements(pats) {
        var i :| 0 <= i < |pats| && pats[i] == p;
        assert Describes(entries[i], items);
      }
    }
    assert Elements(pats) == Patterns(items);
  }

  /** The report covers every record exactly when fewer than 64 patterns come before the last record. */
  lemma ReportIsCompleteIff(items: seq<Item>)
    requires items != []
    ensures Processed(items) == |items| <==> |Patterns(items[..|items| - 1])| < 64
  {
    hide Groups, ReportOf, Patterns, PatternOf, Bytes;
    var front := items[..|items| - 1];
    var n := Processed(front);
    ReportIsGroupBy(front);
    OneEntryPerPattern(ReportOf(front).entries, front[..n]);
    assert front[..|front|] == front;
    PatternsGrow(front, n);
    if n < |front| {
      assert Processed(items) == n;
    }
  }

  lemma PatternsGrow(items: seq<Item>, n: nat)
    requires n <= |items|
    ensures |Patterns(items[..n])| <= |Patterns(items)|
  {
    forall p | p in Patterns(items[..n]) ensures p in Patterns(items) {
      var k :| 0 <= k < n && PatternOf(items[..n][k]) == p;
      assert PatternOf(items[k]) == p;
    }
    SubsetSize(Patterns(items[..n]), Patterns(items));
  }
}
