/** The region manager of src/gc/gc_region.c on values: generation lists, their counts and the byte totals. */
module RegionModel {
  import opened Seqs

  const EMPTY: int := 0
  const YOUNG: int := 1
  const SURVIVOR: int := 2
  const OLD: int := 3
  const HUMONGOUS: int := 4
  const PINNED: int := 5

  const KINDS: int := 6
  const REGION_SIZE: int := 0x20_0000

  /** `struct gc_region`; the type is whatever number the caller of `gc_region_alloc` gave. */
  datatype Region = Region(kind: int, age: nat, size: nat)

  /**
   `struct gc_region_manager`. The lists hold region ids; list 0 is the free list and list k that of type k. Sizes are
   unbounded integers.
   */
  datatype Manager = Manager(regions: seq<Region>, lists: seq<seq<nat>>, counts: seq<int>, max: nat,
                             total: int, used: int)

  const NO_LISTS: seq<seq<nat>> := [[], [], [], [], [], []]
  const NO_COUNTS: seq<int> := [0, 0, 0, 0, 0, 0]

  function Start(max: nat): Manager {
    Manager([], NO_LISTS, NO_COUNTS, max, 0, 0)
  }

  predicate Shaped(m: Manager) {
    |m.lists| == KINDS && |m.counts| == KINDS
  }

  /** The list a region of a type belongs on: an unknown type goes with the free ones. */
  function ListOf(kind: int): (k: nat)
    ensures k < KINDS
  {
    if YOUNG <= kind <= PINNED then kind else EMPTY
  }

  /** `list_del`: off whatever list the region is on. */
  function Unlink(lists: seq<seq<nat>>, r: nat): (l: seq<seq<nat>>)
    ensures |l| == |lists|
  {
    seq(|lists|, k requires 0 <= k < |lists| => Remove(lists[k], r))
  }

  function Append(lists: seq<seq<nat>>, k: nat, r: nat): (l: seq<seq<nat>>)
    requires k < |lists|
    ensures |l| == |lists|
  {
    lists[k := lists[k] + [r]]
  }

  function Bump(counts: seq<int>, k: nat, d: int): (c: seq<int>)
    requires k < |counts|
    ensures |c| == |counts|
  {
    counts[k := counts[k] + d]
  }

  /** Gives a region that is on no list its new type. */
  function Assign(m: Manager, r: nat, kind: int): Manager
    requires Shaped(m) && r < |m.regions|
  {
    var k := ListOf(kind);
    var size := m.regions[r].size;
    m.(regions := m.regions[r := Region(kind, 0, size)],
       lists := Append(m.lists, k, r), counts := Bump(m.counts, k, 1),
       used := if k != EMPTY then m.used + size else m.used)
  }

  datatype Found = NoRegion | Found(id: nat)

  /** `gc_region_alloc`; `granted` says whether a region can be created. */
  function Alloc(m: Manager, kind: int, granted: bool): (Manager, Found)
    requires Shaped(m) && forall i :: 0 <= i < |m.lists[EMPTY]| ==> m.lists[EMPTY][i] < |m.regions|
  {
    if m.lists[EMPTY] != [] then
      var r := m.lists[EMPTY][0];
      var t := m.(lists := m.lists[EMPTY := m.lists[EMPTY][1..]], counts := Bump(m.counts, EMPTY, -1));
      (Assign(t, r, kind), Found(r))
    else if |m.regions| < m.max then
      if !granted then (m, NoRegion)
      else
        var r := |m.regions|;
        var t := m.(regions := m.regions + [Region(EMPTY, 0, REGION_SIZE)], total := m.total + REGION_SIZE);
        (Assign(t, r, kind), Found(r))
    else (m, NoRegion)
  }

  /** `gc_region_free` */
  function Free(m: Manager, r: nat): Manager
    requires Shaped(m) && r < |m.regions|
  {
    var k := ListOf(m.regions[r].kind);
    var size := m.regions[r].size;
    var counts := if k != EMPTY then Bump(m.counts, k, -1) else m.counts;
    m.(regions := m.regions[r := Region(EMPTY, 0, size)],
       lists := Append(Unlink(m.lists, r), EMPTY, r), counts := Bump(counts, EMPTY, 1),
       used := m.used - size)
  }

  /** `gc_region_promote`: any other type is taken off its list and put nowhere. */
  function Promote(m: Manager, r: nat): Manager
    requires Shaped(m) && r < |m.regions|
  {
    var region := m.regions[r];
    if region.kind == YOUNG || region.kind == SURVIVOR then
      var next := region.kind + 1;
      m.(regions := m.regions[r := region.(kind := next)],
         lists := Append(Unlink(m.lists, r), next, r), counts := Bump(Bump(m.counts, region.kind, -1), next, 1))
    else m.(lists := Unlink(m.lists, r))
  }

  /** `gc_region_age` */
  function Age(m: Manager, r: nat): Manager
    requires Shaped(m) && r < |m.regions|
  {
    var region := m.regions[r];
    var older := region.(age := region.age + 1);
    var t := m.(regions := m.regions[r := older]);
    if older.kind == YOUNG && older.age > 1 then Promote(t, r)
    else if older.kind == SURVIVOR && older.age > 15 then Promote(t, r)
    else t
  }

  // ---------- The invariant ----------

  /** The bytes of the regions that are in use. */
  function UsedBytes(regions: seq<Region>): int {
    if regions == [] then 0
    else UsedBytes(regions[..|regions| - 1]) + (if ListOf(Last(regions).kind) != EMPTY then Last(regions).size else 0)
  }

  function TotalBytes(regions: seq<Region>): int {
    if regions == [] then 0 else TotalBytes(regions[..|regions| - 1]) + Last(regions).size
  }

  /** Each list holds exactly the regions of its type, each once. */
  ghost predicate Filed(regions: seq<Region>, lists: seq<seq<nat>>) {
    && |lists| == KINDS
    && (forall k :: 0 <= k < KINDS ==> Distinct(lists[k]))
    && (forall k, r: nat {:trigger r in lists[k]} :: 0 <= k < KINDS ==>
          (r in lists[k] <==> r < |regions| && ListOf(regions[r].kind) == k))
  }

  ghost predicate Counted(lists: seq<seq<nat>>, counts: seq<int>) {
    |lists| == |counts| && forall k :: 0 <= k < |lists| ==> counts[k] == |lists[k]|
  }

  ghost predicate Sound(m: Manager) {
    && Filed(m.regions, m.lists) && Counted(m.lists, m.counts)
    && m.used == UsedBytes(m.regions) && m.total == TotalBytes(m.regions)
    && |m.regions| <= m.max
  }

  lemma StartIsSound(max: nat)
    ensures Sound(Start(max))
  {
  }

  lemma {:induction false} BytesUpdate(regions: seq<Region>, r: nat, x: Region)
    requires r < |regions|
    ensures UsedBytes(regions[r := x]) ==
            UsedBytes(regions) - (if ListOf(regions[r].kind) != EMPTY then regions[r].size else 0)
            + (if ListOf(x.kind) != EMPTY then x.size else 0)
    ensures TotalBytes(regions[r := x]) == TotalBytes(regions) - regions[r].size + x.size
    decreases |regions|
  {
    var n := |regions| - 1;
    if r < n {
      BytesUpdate(regions[..n], r, x);
      assert regions[r := x][..n] == regions[..n][r := x];
    } else {
      assert regions[r := x][..n] == regions[..n];
    }
  }

  /** Refiling one region: off its list, of a new type, onto the list of that type. */
  lemma Refile(regions: seq<Region>, lists: seq<seq<nat>>, counts: seq<int>, r: nat, x: Region)
    requires Filed(regions, lists) && Counted(lists, counts) && r < |regions|
    ensures var k, n := ListOf(regions[r].kind), ListOf(x.kind);
            && Filed(regions[r := x], Append(Unlink(lists, r), n, r))
            && Counted(Append(Unlink(lists, r), n, r), Bump(Bump(counts, k, -1), n, 1))
  {
    var k, n := ListOf(regions[r].kind), ListOf(x.kind);
    var l := Append(Unlink(lists, r), n, r);
    forall i | 0 <= i < KINDS
      ensures Distinct(l[i])
      ensures forall q: nat :: q in l[i] <==> q < |regions| && ListOf(regions[r := x][q].kind) == i
      ensures |l[i]| == |lists[i]| - (if i == k then 1 else 0) + (if i == n then 1 else 0)
    {
      RemoveDistinct(lists[i], r);
      forall q: nat ensures q in l[i] <==> q < |regions| && ListOf(regions[r := x][q].kind) == i {
        assert q in lists[i] <==> q < |regions| && ListOf(regions[q].kind) == i;
        assert q in l[i] <==> q in Remove(lists[i], r) || (i == n && q == r);
      }
    }
  }

  lemma AgeOnly(regions: seq<Region>, lists: seq<seq<nat>>, r: nat, x: Region)
    requires Filed(regions, lists) && r < |regions| && x.kind == regions[r].kind
    ensures Filed(regions[r := x], lists)
  {
    forall k, q: nat | 0 <= k < KINDS
      ensures q in lists[k] <==> q < |regions| && ListOf(regions[r := x][q].kind) == k
    {
      assert q in lists[k] <==> q < |regions| && ListOf(regions[q].kind) == k;
    }
  }

  lemma {:induction false} OthersHaveNone(regions: seq<Region>, lists: seq<seq<nat>>, r: nat)
    requires Filed(regions, lists) && r < |regions|
    ensures forall k :: 0 <= k < KINDS && k != ListOf(regions[r].kind) ==> Remove(lists[k], r) == lists[k]
  {
    forall k | 0 <= k < KINDS && k != ListOf(regions[r].kind) ensures r !in lists[k] {
      assert r in lists[k] <==> r < |regions| && ListOf(regions[r].kind) == k;
    }
  }

  /** Taking the first free region off its list is what `list_del` does to it. */
  lemma TakeFirst(regions: seq<Region>, lists: seq<seq<nat>>)
    requires Filed(regions, lists) && lists[EMPTY] != []
    ensures var r := lists[EMPTY][0];
            && r < |regions| && ListOf(regions[r].kind) == EMPTY
            && Unlink(lists, r) == lists[EMPTY := lists[EMPTY][1..]]
  {
    var r := lists[EMPTY][0];
    assert r in lists[EMPTY];
    OthersHaveNone(regions, lists, r);
    var l := lists[EMPTY];
    assert IndexOf(l, r) == 0 && l[..0] + l[1..] == l[1..];
    assert Remove(l, r) == l[1..];
    assert ListOf(regions[r].kind) == EMPTY;
    assert |lists| == KINDS;
    forall k | 0 <= k < KINDS ensures Unlink(lists, r)[k] == lists[EMPTY := l[1..]][k] {
      if k != EMPTY {
        assert Remove(lists[k], r) == lists[k];
      }
    }
  }

  lemma FreeIdsAreKnown(m: Manager)
    requires Sound(m)
    ensures forall i :: 0 <= i < |m.lists[EMPTY]| ==> m.lists[EMPTY][i] < |m.regions|
  {
    forall i | 0 <= i < |m.lists[EMPTY]| ensures m.lists[EMPTY][i] < |m.regions| {
      assert m.lists[EMPTY][i] in m.lists[EMPTY];
    }
  }

  lemma NewRegion(regions: seq<Region>, lists: seq<seq<nat>>, counts: seq<int>, x: Region)
    requires Filed(regions, lists) && Counted(lists, counts)
    ensures var k, r := ListOf(x.kind), |regions|;
            Filed(regions + [x], Append(lists, k, r)) && Counted(Append(lists, k, r), Bump(counts, k, 1))
  {
    var k, r := ListOf(x.kind), |regions|;
    var all, l := regions + [x], Append(lists, k, r);
    forall i, q: nat | 0 <= i < KINDS
      ensures q in l[i] <==> q < |all| && ListOf(all[q].kind) == i
    {
      assert q in lists[i] <==> q < |regions| && ListOf(regions[q].kind) == i;
    }
    forall i | 0 <= i < KINDS ensures Distinct(l[i]) {
      assert r !in lists[i];
    }
  }

  lemma NewBytes(regions: seq<Region>, x: Region)
    ensures UsedBytes(regions + [x]) == UsedBytes(regions) + (if ListOf(x.kind) != EMPTY then x.size else 0)
    ensures TotalBytes(regions + [x]) == TotalBytes(regions) + x.size
  {
    assert (regions + [x])[..|regions|] == regions;
  }

  lemma ReuseKeepsSound(m: Manager, kind: int)
    requires Sound(m) && m.lists[EMPTY] != []
    ensures m.lists[EMPTY][0] < |m.regions|
    ensures var t := m.(lists := m.lists[EMPTY := m.lists[EMPTY][1..]], counts := Bump(m.counts, EMPTY, -1));
            Sound(Assign(t, m.lists[EMPTY][0], kind))
  {
    assert |m.lists| == |m.counts| == KINDS;
    hide Filed, Counted, Unlink, Append, Bump, UsedBytes, TotalBytes;
    var r := m.lists[EMPTY][0];
    TakeFirst(m.regions, m.lists);
    var x := Region(kind, 0, m.regions[r].size);
    Refile(m.regions, m.lists, m.counts, r, x);
    BytesUpdate(m.regions, r, x);
  }

  lemma CreateKeepsSound(m: Manager, kind: int)
    requires Sound(m) && |m.regions| < m.max
    ensures var t := m.(regions := m.regions + [Region(EMPTY, 0, REGION_SIZE)], total := m.total + REGION_SIZE);
            Shaped(t) && Sound(Assign(t, |m.regions|, kind))
  {
    assert Shaped(m);
    hide Filed, Counted, Unlink, Append, Bump, UsedBytes, TotalBytes;
    var r, x := |m.regions|, Region(kind, 0, REGION_SIZE);
    NewRegion(m.regions, m.lists, m.counts, x);
    NewBytes(m.regions, x);
    assert (m.regions + [Region(EMPTY, 0, REGION_SIZE)])[r := x] == m.regions + [x];
  }

  lemma AllocKeepsSound(m: Manager, kind: int, granted: bool)
    requires Sound(m)
    ensures forall i :: 0 <= i < |m.lists[EMPTY]| ==> m.lists[EMPTY][i] < |m.regions|
    ensures Sound(Alloc(m, kind, granted).0) && Alloc(m, kind, granted).0.max == m.max
    ensures var (t, f) := Alloc(m, kind, granted);
            match f
            case NoRegion => t == m && m.lists[EMPTY] == [] && (|m.regions| >= m.max || !granted)
            case Found(r) => r < |t.regions| && t.regions[r].kind == kind && t.regions[r].age == 0
  {
    assert Shaped(m);
    FreeIdsAreKnown(m);
    hide Filed, Counted, Unlink, Append, Bump, UsedBytes, TotalBytes;
    if m.lists[EMPTY] != [] {
      ReuseKeepsSound(m, kind);
    } else if |m.regions| < m.max && granted {
      CreateKeepsSound(m, kind);
    }
  }

  /** Freeing keeps the books exactly when the region was in use. */
  lemma FreeKeepsSoundIff(m: Manager, r: nat)
    requires Sound(m) && r < |m.regions|
    ensures Sound(Free(m, r)) <==> ListOf(m.regions[r].kind) != EMPTY
  {
    hide UsedBytes, TotalBytes;
    var x := Region(EMPTY, 0, m.regions[r].size);
    Refile(m.regions, m.lists, m.counts, r, x);
    BytesUpdate(m.regions, r, x);
    if ListOf(m.regions[r].kind) == EMPTY {
      RemoveDistinct(m.lists[EMPTY], r);
      assert r in m.lists[EMPTY];
      assert |Free(m, r).lists[EMPTY]| == |m.lists[EMPTY]|;
      assert Free(m, r).counts[EMPTY] == m.counts[EMPTY] + 1;
    }
  }

  /** Promoting keeps the books exactly for a young or survivor region; any other is lost from every list. */
  lemma PromoteKeepsSoundIff(m: Manager, r: nat)
    requires Sound(m) && r < |m.regions|
    ensures Sound(Promote(m, r)) <==> m.regions[r].kind == YOUNG || m.regions[r].kind == SURVIVOR
    ensures m.regions[r].kind != YOUNG && m.regions[r].kind != SURVIVOR ==>
              forall k :: 0 <= k < KINDS ==> r !in Promote(m, r).lists[k]
  {
    hide UsedBytes, TotalBytes;
    var region := m.regions[r];
    if region.kind == YOUNG || region.kind == SURVIVOR {
      var x := region.(kind := region.kind + 1);
      Refile(m.regions, m.lists, m.counts, r, x);
      BytesUpdate(m.regions, r, x);
    } else {
      forall k | 0 <= k < KINDS ensures r !in Promote(m, r).lists[k] {
        RemoveDistinct(m.lists[k], r);
      }
      assert r !in Promote(m, r).lists[ListOf(region.kind)];
    }
  }

  lemma AgeKeepsSound(m: Manager, r: nat)
    requires Sound(m) && r < |m.regions|
    ensures Sound(Age(m, r))
  {
    hide Filed, Counted, UsedBytes, TotalBytes, Promote;
    var x := m.regions[r].(age := m.regions[r].age + 1);
    AgeOnly(m.regions, m.lists, r, x);
    BytesUpdate(m.regions, r, x);
    var t := m.(regions := m.regions[r := x]);
    PromoteKeepsSoundIff(t, r);
  }

  /** An old region, promoted: it is on no list afterwards. */
  lemma OldRegionIsLost(max: nat)
    requires max > 0
    ensures var m := Alloc(Start(max), OLD, true).0;
            && Sound(m) && |m.regions| == 1 && m.regions[0].kind == OLD
            && !Sound(Promote(m, 0)) && forall k :: 0 <= k < KINDS ==> 0 !in Promote(m, 0).lists[k]
  {
    StartIsSound(max);
    AllocKeepsSound(Start(max), OLD, true);
    PromoteKeepsSoundIff(Alloc(Start(max), OLD, true).0, 0);
  }

  /** A region freed twice: it is on the free list once and counted twice, and `used_size` falls below zero. */
  lemma DoubleFreeMiscounts(max: nat)
    requires max > 0
    ensures var m := Alloc(Start(max), YOUNG, true).0;
            && Sound(m) && |m.regions| == 1 && Sound(Free(m, 0))
            && (var t := Free(Free(m, 0), 0);
            !Sound(t) && t.counts[EMPTY] == 2 && |t.lists[EMPTY]| == 1 && t.used == -REGION_SIZE)
  {
    StartIsSound(max);
    AllocKeepsSound(Start(max), YOUNG, true);
    var m := Alloc(Start(max), YOUNG, true).0;
    FreeKeepsSoundIff(m, 0);
    FreeKeepsSoundIff(Free(m, 0), 0);
    assert m.lists[YOUNG] == [0];
    assert Free(m, 0).lists[EMPTY] == [0];
  }

  // ---------- Every run ----------

  datatype Op = AllocOp(kind: int, granted: bool) | FreeOp(r: nat) | PromoteOp(r: nat) | AgeOp(r: nat)

  /** What a caller checks first: a region it has, in use for a free, young or survivor for a promotion. */
  predicate Allowed(m: Manager, op: Op) {
    match op
    case AllocOp(_, _) => true
    case FreeOp(r) => r < |m.regions| && ListOf(m.regions[r].kind) != EMPTY
    case PromoteOp(r) => r < |m.regions| && (m.regions[r].kind == YOUNG || m.regions[r].kind == SURVIVOR)
    case AgeOp(r) => r < |m.regions|
  }

  /** What the operations themselves rely on: six lists and counts, and free regions that exist. */
  predicate Usable(m: Manager) {
    Shaped(m) && forall i :: 0 <= i < |m.lists[EMPTY]| ==> m.lists[EMPTY][i] < |m.regions|
  }

  function Step(m: Manager, op: Op): Manager
    requires Usable(m) && Allowed(m, op)
  {
    match op
    case AllocOp(kind, granted) => Alloc(m, kind, granted).0
    case FreeOp(r) => Free(m, r)
    case PromoteOp(r) => Promote(m, r)
    case AgeOp(r) => Age(m, r)
  }

  lemma StepKeepsSound(m: Manager, op: Op)
    requires Sound(m) && Allowed(m, op)
    ensures Usable(m) && Sound(Step(m, op))
  {
    FreeIdsAreKnown(m);
    match op
    case AllocOp(kind, granted) => AllocKeepsSound(m, kind, granted);
    case FreeOp(r) => FreeKeepsSoundIff(m, r);
    case PromoteOp(r) => PromoteKeepsSoundIff(m, r);
    case AgeOp(r) => AgeKeepsSound(m, r);
  }

  /** A run of calls from a new manager, in order; calls that are not allowed are left out. */
  function Run(max: nat, ops: seq<Op>): Manager {
    if ops == [] then Start(max)
    else
      var m := Run(max, ops[..|ops| - 1]);
      if Usable(m) && Allowed(m, Last(ops)) then Step(m, Last(ops)) else m
  }

  function CountSum(counts: seq<int>): int {
    if counts == [] then 0 else CountSum(counts[..|counts| - 1]) + Last(counts)
  }

  /** All regions have the one size they are created with. */
  predicate OneSize(m: Manager) {
    forall r :: 0 <= r < |m.regions| ==> m.regions[r].size == 0x20_0000
  }

  lemma StepKeepsSize(m: Manager, op: Op)
    requires Usable(m) && Allowed(m, op) && OneSize(m)
    ensures OneSize(Step(m, op))
  {
    hide Unlink, Append, Bump;
  }

  lemma {:induction false} TotalOfOneSize(regions: seq<Region>)
    requires forall r :: 0 <= r < |regions| ==> regions[r].size == 0x20_0000
    ensures TotalBytes(regions) == 0x20_0000 * |regions|
    decreases |regions|
  {
    if regions != [] {
      TotalOfOneSize(regions[..|regions| - 1]);
    }
  }

  lemma {:induction false} RunIsSound(max: nat, ops: seq<Op>)
    ensures Sound(Run(max, ops)) && Usable(Run(max, ops)) && OneSize(Run(max, ops)) && Run(max, ops).max == max
    decreases |ops|
  {
    hide Sound, Step, Allowed, OneSize, Usable;
    if ops == [] {
      StartIsSound(max);
      StartIsUsable(max);
    } else {
      var m := Run(max, ops[..|ops| - 1]);
      RunIsSound(max, ops[..|ops| - 1]);
      if Allowed(m, Last(ops)) {
        StepKeepsSound(m, Last(ops));
        StepKeepsSize(m, Last(ops));
        StepKeepsMax(m, Last(ops));
        SoundIsUsable(Step(m, Last(ops)));
      }
    }
  }

  lemma StartIsUsable(max: nat)
    ensures Usable(Start(max)) && OneSize(Start(max)) && Start(max).max == max
  {
  }

  lemma StepKeepsMax(m: Manager, op: Op)
    requires Usable(m) && Allowed(m, op)
    ensures Step(m, op).max == m.max
  {
    hide Unlink, Append, Bump;
  }

  lemma SoundIsUsable(m: Manager)
    requires Sound(m)
    ensures Usable(m)
  {
    FreeIdsAreKnown(m);
  }

  /**
   In every reachable state each region is filed once under its type, all counters are exact, no more than the limit
   have been made, and each is two megabytes.
   */
  lemma ReachableIsSound(max: nat, ops: seq<Op>)
    ensures var m := Run(max, ops);
            && Sound(m) && CountSum(m.counts) == |m.regions| <= max && m.total == 0x20_0000 * |m.regions|
  {
    RunIsSound(max, ops);
    var m := Run(max, ops);
    CountsAddUp(m.regions, m.lists);
    CountSumIsLengths(m.lists, m.counts);
    TotalOfOneSize(m.regions);
  }

  function LengthSum(lists: seq<seq<nat>>): nat {
    if lists == [] then 0 else LengthSum(lists[..|lists| - 1]) + |Last(lists)|
  }

  lemma {:induction false} CountSumIsLengths(lists: seq<seq<nat>>, counts: seq<int>)
    requires |lists| == |counts| && forall k :: 0 <= k < |lists| ==> counts[k] == |lists[k]|
    ensures CountSum(counts) == LengthSum(lists)
    decreases |lists|
  {
    if lists != [] {
      CountSumIsLengths(lists[..|lists| - 1], counts[..|lists| - 1]);
    }
  }

  /** The regions on the first `n` lists. */
  ghost function Held(lists: seq<seq<nat>>, n: nat): set<nat>
    requires n <= |lists|
  {
    if n == 0 then {} else Held(lists, n - 1) + Elements(lists[n - 1])
  }

  lemma MembersOf(regions: seq<Region>, lists: seq<seq<nat>>, k: nat)
    requires Filed(regions, lists) && k < KINDS
    ensures |Elements(lists[k])| == |lists[k]|
    ensures forall r: nat :: r in Elements(lists[k]) <==> r < |regions| && ListOf(regions[r].kind) == k
  {
    DistinctCount(lists[k]);
    forall r: nat ensures r in Elements(lists[k]) <==> r < |regions| && ListOf(regions[r].kind) == k {
      assert r in lists[k] <==> r < |regions| && ListOf(regions[r].kind) == k;
    }
  }

  lemma {:induction false} HeldCount(regions: seq<Region>, lists: seq<seq<nat>>, n: nat)
    requires Filed(regions, lists) && n <= |lists| == KINDS
    ensures |Held(lists, n)| == LengthSum(lists[..n])
    ensures forall r: nat :: r in Held(lists, n) <==> r < |regions| && ListOf(regions[r].kind) < n
    decreases n
  {
    hide Filed, ListOf, Elements;
    if n > 0 {
      HeldCount(regions, lists, n - 1);
      MembersOf(regions, lists, n - 1);
      assert lists[..n][..n - 1] == lists[..n - 1];
      assert Held(lists, n - 1) !! Elements(lists[n - 1]);
    }
  }

  lemma CountsAddUp(regions: seq<Region>, lists: seq<seq<nat>>)
    requires Filed(regions, lists)
    ensures LengthSum(lists) == |regions|
  {
    HeldCount(regions, lists, KINDS);
    assert lists[..KINDS] == lists;
    UpToCount(|regions|);
    assert Held(lists, KINDS) == UpTo(|regions|);
  }

  ghost function UpTo(n: nat): set<nat> {
    if n == 0 then {} else UpTo(n - 1) + {n - 1}
  }

  lemma {:induction false} UpToCount(n: nat)
    ensures |UpTo(n)| == n && forall r: nat :: r in UpTo(n) <==> r < n
    decreases n
  {
    if n > 0 {
      UpToCount(n - 1);
    }
  }

  // ---------- Ageing ----------

  function AgeTimes(m: Manager, r: nat, n: nat): Manager
    requires Shaped(m) && r < |m.regions|
    ensures Shaped(AgeTimes(m, r, n)) && |AgeTimes(m, r, n).regions| == |m.regions|
  {
    if n == 0 then m else Age(AgeTimes(m, r, n - 1), r)
  }

  /** A region allocated young is a survivor from its second ageing and old from its sixteenth, and stays old. */
  lemma {:induction false} GenerationByAge(m: Manager, r: nat, n: nat)
    requires Shaped(m) && r < |m.regions| && m.regions[r].kind == YOUNG && m.regions[r].age == 0
    ensures var region := AgeTimes(m, r, n).regions[r];
            region.age == n && region.kind == if n <= 1 then YOUNG else if n <= 15 then SURVIVOR else OLD
    decreases n
  {
    if n > 0 {
      GenerationByAge(m, r, n - 1);
    }
  }
}
