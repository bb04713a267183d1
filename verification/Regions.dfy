/** The region objects, generation lists and counters of src/gc/gc_region.c as they are updated in place. */
module Regions {
  import opened Seqs
  import opened RegionModel

  /** `struct gc_region`, as far as its manager looks at it. */
  class GcRegion {
    const id: nat
    const size: nat
    var kind: int
    var age: nat

    constructor (id: nat, size: nat)
      ensures kind == EMPTY && age == 0 && this.id == id && this.size == size
    {
      this.id, this.size, kind, age := id, size, EMPTY, 0;
    }

    function Value(): Region
      reads this
    {
      Region(kind, age, size)
    }
  }

  /** A list of regions is a list of their ids. */
  ghost predicate Names(l: seq<GcRegion>, ids: seq<nat>, regions: seq<GcRegion>) {
    |l| == |ids| && forall j :: 0 <= j < |l| ==> ids[j] < |regions| && l[j] == regions[ids[j]]
  }

  lemma {:induction false} SameIndex(l: seq<GcRegion>, ids: seq<nat>, regions: seq<GcRegion>, r: nat)
    requires Names(l, ids, regions) && Distinct(regions) && r < |regions|
    ensures r in ids <==> regions[r] in l
    ensures r in ids ==> IndexOf(l, regions[r]) == IndexOf(ids, r)
    decreases |l|
  {
    if l != [] {
      SameIndex(l[1..], ids[1..], regions, r);
      assert ids[0] == r <==> l[0] == regions[r];
      assert r in ids <==> ids[0] == r || r in ids[1..];
      assert regions[r] in l <==> l[0] == regions[r] || regions[r] in l[1..];
    }
  }

  lemma RemoveNamed(l: seq<GcRegion>, ids: seq<nat>, regions: seq<GcRegion>, r: nat)
    requires Names(l, ids, regions) && Distinct(regions) && r < |regions|
    ensures Names(Remove(l, regions[r]), Remove(ids, r), regions)
  {
    SameIndex(l, ids, regions, r);
  }

  /** `list_del`, whichever list the region is on. */
  function Detach(lists: seq<seq<GcRegion>>, region: GcRegion): (l: seq<seq<GcRegion>>)
    ensures |l| == |lists|
  {
    seq(|lists|, k requires 0 <= k < |lists| => Remove(lists[k], region))
  }

  class RegionManager {
    var regions: seq<GcRegion>
    var lists: seq<seq<GcRegion>>
    var counts: seq<int>
    var maxRegions: nat
    var totalSize: int
    var usedSize: int
    ghost var model: Manager

    /** The objects are the model's regions, under the same ids. */
    ghost predicate Rooted()
      reads this, regions
    {
      && Distinct(regions) && |regions| == |model.regions|
      && (forall i :: 0 <= i < |regions| ==> regions[i].id == i && regions[i].Value() == model.regions[i])
    }

    ghost predicate Listed()
      reads this
    {
      && |lists| == |model.lists| == KINDS && |model.counts| == KINDS
      && (forall k :: 0 <= k < KINDS ==> Names(lists[k], model.lists[k], regions))
    }

    ghost predicate Linked()
      reads this, regions
    {
      && Rooted() && Listed()
      && model == Manager(model.regions, model.lists, counts, maxRegions, totalSize, usedSize)
    }

    ghost predicate Valid()
      reads this, regions
    {
      Linked() && Sound(model)
    }

    /** `gc_region_manager_init` */
    constructor (maxRegions: nat)
      ensures Valid() && model == Start(maxRegions) && regions == []
    {
      regions, lists, counts := [], [[], [], [], [], [], []], NO_COUNTS;
      this.maxRegions, totalSize, usedSize := maxRegions, 0, 0;
      model := Start(maxRegions);
      new;
      StartIsSound(maxRegions);
    }

    /** `list_del` follows the region's links, which are NULL once it has been taken off a list. */
    ghost predicate OnList(region: GcRegion)
      reads this
    {
      exists k :: 0 <= k < |lists| && region in lists[k]
    }

    /** Takes a region off its list. */
    method Detached(region: GcRegion)
      requires Linked() && region.id < |regions| && regions[region.id] == region
      requires OnList(region)
      modifies this`lists, this`model
      ensures Linked() && model == old(model).(lists := Unlink(old(model.lists), region.id))
    {
      hide Names, Remove;
      forall k | 0 <= k < KINDS
        ensures Names(Detach(lists, region)[k], Unlink(model.lists, region.id)[k], regions)
      {
        RemoveNamed(lists[k], model.lists[k], regions, region.id);
      }
      lists := Detach(lists, region);
      model := model.(lists := Unlink(model.lists, region.id));
    }

    /** `list_add_tail` and the count of the list. */
    method Attach(k: nat, region: GcRegion)
      requires Linked() && k < KINDS && region.id < |regions| && regions[region.id] == region
      modifies this`lists, this`counts, this`model
      ensures Linked()
      ensures model == old(model).(lists := Append(old(model.lists), k, region.id),
                                   counts := Bump(old(model.counts), k, 1))
    {
      lists := lists[k := lists[k] + [region]];
      counts := counts[k := counts[k] + 1];
      model := model.(lists := Append(model.lists, k, region.id), counts := Bump(model.counts, k, 1));
    }

    /** Writes a region's type and age. */
    method Mark(region: GcRegion, kind: int, age: nat)
      requires Linked() && region.id < |regions| && regions[region.id] == region
      modifies this`model, region
      ensures Linked()
      ensures model == old(model).(regions := old(model.regions)[region.id := Region(kind, age, region.size)])
    {
      hide Names;
      region.kind, region.age := kind, age;
      model := model.(regions := model.regions[region.id := Region(kind, age, region.size)]);
      assert forall i :: 0 <= i < |regions| && i != region.id ==> regions[i] != region;
    }

    /** `gc_region_free` */
    method FreeRegion(region: GcRegion)
      requires Linked() && region.id < |regions| && regions[region.id] == region
      requires OnList(region)
      modifies this`lists, this`counts, this`usedSize, this`model, region
      ensures Linked() && model == Free(old(model), region.id)
    {
      hide Names, Distinct, Unlink, Append;
      Detached(region);
      if YOUNG <= region.kind <= PINNED {
        counts := counts[region.kind := counts[region.kind] - 1];
        model := model.(counts := counts);
      }
      usedSize := usedSize - region.size;
      model := model.(used := usedSize);
      Mark(region, EMPTY, 0);
      Attach(EMPTY, region);
    }

    /** `gc_region_promote` */
    method PromoteRegion(region: GcRegion)
      requires Linked() && region.id < |regions| && regions[region.id] == region
      requires OnList(region)
      modifies this`lists, this`counts, this`model, region
      ensures Linked() && model == Promote(old(model), region.id)
    {
      hide Names, Distinct, Unlink, Append;
      Detached(region);
      if region.kind == YOUNG || region.kind == SURVIVOR {
        counts := counts[region.kind := counts[region.kind] - 1];
        model := model.(counts := counts);
        Mark(region, region.kind + 1, region.age);
        Attach(region.kind, region);
      }
    }

    /** `gc_region_age` */
    method AgeRegion(region: GcRegion)
      requires Linked() && region.id < |regions| && regions[region.id] == region
      requires region.kind == YOUNG || region.kind == SURVIVOR ==> OnList(region)
      modifies this`lists, this`counts, this`model, region
      ensures Linked() && model == Age(old(model), region.id)
      ensures old(Valid()) ==> Valid()
    {
      hide Names, Distinct, Promote, Sound;
      if Sound(model) {
        AgeKeepsSound(model, region.id);
      }
      Mark(region, region.kind, region.age + 1);
      if region.kind == YOUNG && region.age > 1 {
        PromoteRegion(region);
      } else if region.kind == SURVIVOR && region.age > 15 {
        PromoteRegion(region);
      }
    }

    /** The first free region, off its list. */
    method Reuse() returns (region: GcRegion)
      requires Linked() && model.lists[EMPTY] != []
      modifies this`lists, this`counts, this`model
      ensures Linked() && old(model).lists[EMPTY][0] == region.id < |regions| && regions[region.id] == region
      ensures model == old(model).(lists := old(model).lists[EMPTY := old(model).lists[EMPTY][1..]],
                                   counts := Bump(old(model).counts, EMPTY, -1))
    {
      region := lists[EMPTY][0];
      lists := lists[EMPTY := lists[EMPTY][1..]];
      counts := counts[EMPTY := counts[EMPTY] - 1];
      model := model.(lists := model.lists[EMPTY := model.lists[EMPTY][1..]], counts := counts);
    }

    /** `gc_region_create` and its place in the region table. */
    method Create() returns (region: GcRegion)
      requires Linked()
      modifies this`regions, this`totalSize, this`model
      ensures Linked() && fresh(region) && region.id == |old(regions)| && regions == old(regions) + [region]
      ensures model == old(model).(regions := old(model).regions + [Region(EMPTY, 0, REGION_SIZE)],
                                   total := old(model).total + REGION_SIZE)
    {
      region := new GcRegion(|regions|, REGION_SIZE);
      regions := regions + [region];
      totalSize := totalSize + region.size;
      model := model.(regions := model.regions + [Region(EMPTY, 0, REGION_SIZE)], total := totalSize);
    }

    /** The type, the list and the totals of a region that is on no list. */
    method Put(region: GcRegion, kind: int)
      requires Linked() && region.id < |regions| && regions[region.id] == region
      modifies this`lists, this`counts, this`usedSize, this`model, region
      ensures Linked() && model == Assign(old(model), region.id, kind)
    {
      hide Names, Distinct;
      Mark(region, kind, 0);
      if YOUNG <= kind <= PINNED {
        Attach(kind, region);
        usedSize := usedSize + region.size;
        model := model.(used := usedSize);
      } else {
        Attach(EMPTY, region);
      }
    }

    /** `gc_region_alloc`; `granted` says whether a region can be created. */
    method AllocRegion(kind: int, granted: bool) returns (region: GcRegion?)
      requires Valid()
      modifies this, regions
      ensures forall i :: 0 <= i < |old(model).lists[EMPTY]| ==> old(model).lists[EMPTY][i] < |old(model).regions|
      ensures Valid() && model == Alloc(old(model), kind, granted).0
      ensures match Alloc(old(model), kind, granted).1
              case NoRegion => region == null
              case Found(r) => r < |regions| && region == regions[r]
    {
      hide Names, Distinct, Sound, Append, Filed, Counted;
      AllocKeepsSound(model, kind, granted);
      if lists[EMPTY] != [] {
        FreeListed();
        region := Reuse();
      } else if |regions| < maxRegions {
        FreeListed();
        if !granted {
          return null;
        }
        region := Create();
      } else {
        FreeListed();
        return null;
      }
      Put(region, kind);
    }

    lemma FreeListed()
      requires Linked()
      ensures |lists[EMPTY]| == |model.lists[EMPTY]|
    {
    }

    /** In a sound manager every region is on a list. */
    lemma SoundIsListed(region: GcRegion)
      requires Valid() && region.id < |regions| && regions[region.id] == region
      ensures OnList(region)
    {
      var k := ListOf(model.regions[region.id].kind);
      assert region.id in model.lists[k];
      SameIndex(lists[k], model.lists[k], regions, region.id);
    }
  }
}
