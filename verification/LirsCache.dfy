/**
 The mutable cache of src/cache/lirs/lirs.c: blocks updated in place, two lists of blocks and a
 chained hash table. Every method is proved against the state machine in `LirsModel`; the
 properties of all runs in the other Lirs modules therefore hold of it.
 */
module LirsCache {
  import opened Words
  import opened Seqs
  import opened LirsModel
  import opened LirsInvariant
  import opened LirsRefinement
  import opened Hash

  /** `struct lirs_block`; the list and hash nodes are the memberships below. */
  class Block {
    const key: Word
    var value: Word
    var size: Word
    var kind: Kind
    var accessTime: nat
    var inS: bool
    var inQ: bool

    /** `lirs_block_create` */
    constructor (key: Word, value: Word, size: Word)
      ensures this.key == key && State() == Entry(value, size, Resident, 0, false, false)
    {
      this.key, this.value, this.size := key, value, size;
      kind, accessTime, inS, inQ := Resident, 0, false, false;
    }

    ghost function State(): Entry
      reads this
    {
      Entry(value, size, kind, accessTime, inS, inQ)
    }
  }

  type Nodes = map<Word, Block>

  ghost function Keys(bs: seq<Block>): (r: seq<Word>)
    ensures |r| == |bs| && forall i :: 0 <= i < |bs| ==> r[i] == bs[i].key
  {
    seq(|bs|, i requires 0 <= i < |bs| => bs[i].key)
  }

  /** Each block is the one its key names. */
  ghost predicate Named(bs: seq<Block>, node: Nodes) {
    forall b :: b in bs ==> b.key in node && node[b.key] == b
  }

  ghost predicate Keyed(node: Nodes) {
    forall k :: k in node ==> node[k].key == k
  }

  /** Bucket of a key in a table of `n` chains. */
  function Bucket(key: Word, n: int): nat
    requires n >= 1
    ensures Bucket(key, n) < n
  {
    Home(HashPtr(key), n)
  }

  /** The chains hold exactly the tracked blocks, each once and in its own bucket. */
  ghost predicate Chained(table: seq<seq<Block>>, node: Nodes) {
    && |table| >= 1
    && (forall k :: k in node ==> node[k] in table[Bucket(k, |table|)])
    && (forall i, b :: 0 <= i < |table| && b in table[i] ==>
          b.key in node && node[b.key] == b && Bucket(b.key, |table|) == i)
    && (forall i :: 0 <= i < |table| ==> Distinct(table[i]))
  }

  lemma ChainedRemove(table: seq<seq<Block>>, node: Nodes, b: Block)
    requires Keyed(node) && Chained(table, node) && b.key in node && node[b.key] == b
    ensures var i := Bucket(b.key, |table|);
            Chained(table[i := Remove(table[i], b)], node - {b.key})
  {
    hide Bucket;
    RemoveDistinct(table[Bucket(b.key, |table|)], b);
  }

  lemma ChainedInsert(table: seq<seq<Block>>, node: Nodes, b: Block)
    requires Chained(table, node) && b.key !in node
    ensures var i := Bucket(b.key, |table|);
            Chained(table[i := [b] + table[i]], node[b.key := b])
  {
    hide Bucket;
  }

  lemma KeysRemove(bs: seq<Block>, b: Block)
    requires b in bs && forall x :: x in bs && x.key == b.key ==> x == b
    ensures Keys(Remove(bs, b)) == Remove(Keys(bs), b.key)
  {
    hide IndexOf, Keys;
    KeysIndexOf(bs, b);
    KeysCut(bs, IndexOf(bs, b));
  }

  lemma KeysCut(bs: seq<Block>, p: nat)
    requires p < |bs|
    ensures Keys(bs[..p] + bs[p + 1..]) == Keys(bs)[..p] + Keys(bs)[p + 1..]
  {
  }

  lemma {:induction false} KeysIndexOf(bs: seq<Block>, b: Block)
    requires b in bs && forall x :: x in bs && x.key == b.key ==> x == b
    ensures b.key in Keys(bs) && IndexOf(Keys(bs), b.key) == IndexOf(bs, b)
    decreases |bs|
  {
    var p := IndexOf(bs, b);
    var q := IndexOf(Keys(bs), b.key) by {
      assert Keys(bs)[p] == b.key;
    }
    assert bs[q] in bs && bs[q] == b;
    assert q >= p by {
      assert b !in bs[..p];
      assert forall i :: 0 <= i < p ==> bs[..p][i] == bs[i];
    }
    assert q <= p by {
      assert b.key !in Keys(bs)[..q];
      assert forall i :: 0 <= i < q ==> Keys(bs)[..q][i] == bs[i].key;
    }
  }

  /** A block that has left both lists can leave the index. */
  lemma NamedWithout(bs: seq<Block>, node: Nodes, k: Word)
    requires Named(bs, node) && k !in Keys(bs)
    ensures Named(bs, node - {k})
  {
    forall b | b in bs ensures b.key != k {
      var i :| 0 <= i < |bs| && bs[i] == b;
      assert Keys(bs)[i] == b.key;
    }
  }

  lemma NamedPrefix(bs: seq<Block>, node: Nodes)
    requires Named(bs, node) && bs != []
    ensures Last(bs).key in node && node[Last(bs).key] == Last(bs) && Last(Keys(bs)) == Last(bs).key
    ensures Named(bs[..|bs| - 1], node) && Keys(bs[..|bs| - 1]) == Keys(bs)[..|bs| - 1]
  {
  }

  /** Blocks leave the index but are never exchanged for others. */
  ghost predicate Within(a: Nodes, b: Nodes) {
    a.Values <= b.Values && forall k :: k in a ==> k in b && a[k] == b[k]
  }

  lemma WithinSelf(a: Nodes)
    ensures Within(a, a)
  {
  }

  lemma PruneEmpty(c: LirsModel.Cache)
    requires Shape(c)
    ensures c.s == [] ==> Prune(c) == c
  {
  }

  lemma OnlyInQUnfolds(c: LirsModel.Cache, ks: seq<Word>)
    requires ks != [] && forall k :: k in ks ==> k in c.index
    ensures FireAll(c, OnlyInQ(c, ks)) ==
            (if c.index[ks[0]].inS then [] else Fire(c, ks[0], c.index[ks[0]])) + FireAll(c, OnlyInQ(c, ks[1..]))
  {
    if !c.index[ks[0]].inS {
      FireAllCons(c, ks[0], OnlyInQ(c, ks[1..]));
    }
    assert [] + OnlyInQ(c, ks[1..]) == OnlyInQ(c, ks[1..]);
  }

  lemma FireAllCons(c: LirsModel.Cache, k: Word, ks: seq<Word>)
    requires k in c.index && forall x :: x in ks ==> x in c.index
    ensures FireAll(c, [k] + ks) == Fire(c, k, c.index[k]) + FireAll(c, ks)
  {
    assert ([k] + ks)[1..] == ks;
  }

  lemma HeadIsNew(ks: seq<Word>)
    requires Distinct(ks) && ks != []
    ensures ks[0] in ks && ks[0] !in ks[1..] && Distinct(ks[1..])
    ensures forall k :: k in ks[1..] ==> k in ks
  {
  }

  lemma ListsAreDistinct(c: LirsModel.Cache, k: Word)
    requires Shape(c)
    ensures Distinct(c.s) && Distinct(c.q)
    ensures (k !in c.s ==> Remove(c.s, k) == c.s) && (k !in c.q ==> Remove(c.q, k) == c.q)
  {
  }

  lemma UpdateThenRemove(m: map<Word, Entry>, k: Word, e: Entry)
    ensures m[k := e] - {k} == m - {k}
  {
  }

  lemma NamedGrow(bs: seq<Block>, node: Nodes, b: Block)
    requires Named(bs, node) && b.key !in node
    ensures Named(bs, node[b.key := b])
  {
  }

  lemma EvictNothing(c: LirsModel.Cache)
    requires Ready(c)
    ensures EvictHir(c) == c
  {
  }

  lemma NamedSuffix(bs: seq<Block>, node: Nodes)
    requires Named(bs, node) && bs != []
    ensures bs[0].key in node && node[bs[0].key] == bs[0] && Keys(bs)[0] == bs[0].key
    ensures Named(bs[1..], node) && Keys(bs[1..]) == Keys(bs)[1..]
  {
  }

  lemma KeysSuffix(bs: seq<Block>)
    requires bs != []
    ensures Keys(bs)[0] == bs[0].key && Keys(bs[1..]) == Keys(bs)[1..]
    ensures forall b :: b in bs ==> b.key in Keys(bs)
  {
    forall b | b in bs ensures b.key in Keys(bs) {
      var i :| 0 <= i < |bs| && bs[i] == b;
      assert Keys(bs)[i] == b.key;
    }
  }

  lemma NamedAppend(bs: seq<Block>, node: Nodes, b: Block)
    requires Named(bs, node) && b.key in node && node[b.key] == b
    ensures Named(bs + [b], node) && Keys(bs + [b]) == Keys(bs) + [b.key]
    ensures Named([b] + bs, node) && Keys([b] + bs) == [b.key] + Keys(bs)
  {
  }

  lemma NamedRemove(bs: seq<Block>, node: Nodes, b: Block)
    requires Named(bs, node) && b.key in node && node[b.key] == b
    ensures Named(Remove(bs, b), node) && Keys(Remove(bs, b)) == Remove(Keys(bs), b.key)
    ensures b in bs <==> b.key in Keys(bs)
  {
    if b.key in Keys(bs) {
      var i :| 0 <= i < |bs| && Keys(bs)[i] == b.key;
      assert bs[i] in bs && bs[i] == b;
    }
    if b in bs {
      var i :| 0 <= i < |bs| && bs[i] == b;
      assert Keys(bs)[i] == b.key;
      KeysRemove(bs, b);
    }
  }

  lemma HeadIsListedOnce(c: LirsModel.Cache)
    requires Shape(c) && c.q != []
    ensures c.q[0] in c.index && c.q[0] !in c.q[1..]
    ensures !c.index[c.q[0]].inS ==> c.q[0] !in c.s
  {
    assert c.q[0] in c.q;
  }

  lemma KindTellsList(c: LirsModel.Cache, k: Word)
    requires Shape(c) && k in c.index
    ensures Filed(c.index[k])
    ensures (c.index[k].inS <==> k in c.s) && (c.index[k].inQ <==> k in c.q)
  {
  }

  lemma BottomGhostIsListedOnce(c: LirsModel.Cache)
    requires Shape(c) && c.s != []
    ensures Last(c.s) in c.index && Last(c.s) !in c.s[..|c.s| - 1]
    ensures c.index[Last(c.s)].kind == Ghost ==> Last(c.s) !in c.q
  {
  }

  lemma PruneUnfolds(c: LirsModel.Cache)
    requires Shape(c) && c.s != []
    ensures Last(c.s) in c.index && c.index[Last(c.s)].inS
    ensures Prune(c) == if c.index[Last(c.s)].kind == Lir then c else Prune(PopBottom(c))
  {
  }

  const HALF: int := 0x8000_0000_0000_0000

  lemma HalfIsPower()
    ensures Pow2(63) == HALF && Pow2(64) == U64
  {
    hide Pow2;
    Pow2Of32();
    PowAdds(32, 32);
    PowDoubles(63);
  }

  lemma PowDoubles(k: nat)
    ensures Pow2(k + 1) == 2 * Pow2(k)
  {
  }

  lemma HalvesBelow(k: nat)
    requires Pow2(k) < HALF
    ensures Pow2(k + 1) == 2 * Pow2(k) <= HALF
  {
    HalfIsPower();
    if k > 63 {
      PowGrows(63, k);
    } else if k + 1 < 63 {
      PowGrows(k + 1, 63);
    }
  }

  lemma WrappedPower(k: nat)
    ensures Wrap(Pow2(k)) <= HALF && (k <= 63 ==> Wrap(Pow2(k)) == Pow2(k))
  {
    HalfIsPower();
    if k < 63 {
      PowGrows(k, 63);
    }
    if k <= 63 {
      WrapSmall(Pow2(k));
    } else {
      PowAdds(k - 64, 64);
      ModuloUnique(Pow2(k), U64, Pow2(k - 64), 0);
    }
  }

  /** Doubling 1 in 64 bits comes up to a target exactly when it is at most half the range; beyond, it wraps to 0. */
  lemma DoublingReachesIff(target: Word)
    ensures (exists k: nat :: Wrap(Pow2(k)) >= target) <==> target <= HALF
  {
    if target <= HALF {
      WrappedPower(63);
      HalfIsPower();
      assert Wrap(Pow2(63)) >= target;
    }
    if k: nat :| Wrap(Pow2(k)) >= target {
      WrappedPower(k);
    }
  }

  /** A capacity for which doubling never comes up to twice of it. */
  lemma DoublingCanLoopForever()
    ensures forall k: nat :: Wrap(Pow2(k)) < Wrap(2 * 0x4000_0000_0000_0001)
  {
    forall k: nat ensures Wrap(Pow2(k)) < Wrap(2 * 0x4000_0000_0000_0001) {
      WrappedPower(k);
    }
  }

  function Uncounted(st: Stats, kind: Kind, size: Word): Stats {
    var r := st.(totalSize := Sub64(st.totalSize, size));
    match kind
    case Lir => r.(lirCount := r.lirCount - 1)
    case Resident => r.(hirCount := r.hirCount - 1)
    case Ghost => r.(ghostCount := r.ghostCount - 1)
  }

  function OffLists(c: LirsModel.Cache, key: Word): LirsModel.Cache
    requires key in c.index
  {
    var e := c.index[key];
    c.(s := Remove(c.s, key), sSize := if e.inS then c.sSize - 1 else c.sSize,
       q := Remove(c.q, key), qSize := if e.inQ then c.qSize - 1 else c.qSize,
       index := c.index[key := e.(inS := false, inQ := false)])
  }

  /** `Unlink` as the steps of the code. */
  lemma UnlinkIs(c: LirsModel.Cache, key: Word)
    requires Shape(c) && key in c.index
    ensures var e := c.index[key];
            Unlink(c, key) == Destroy(OffLists(c, key).(stats := Uncounted(c.stats, e.kind, e.size)), key)
  {
    hide Remove;
    var e := c.index[key];
    UpdateThenRemove(c.index, key, e.(inS := false, inQ := false));
  }

  /** The state of a new block before it goes on S. */
  function NewEntry(c: LirsModel.Cache, value: Word, size: Word): Entry {
    if c.sSize < LirLimit(c) then Entry(value, size, Lir, c.clock + 1, false, false)
    else Entry(value, size, Resident, c.clock + 1, false, true)
  }

  function Entered(c: LirsModel.Cache, key: Word, size: Word): LirsModel.Cache {
    var st := c.stats.(totalSize := Add64(c.stats.totalSize, size));
    if c.sSize < LirLimit(c) then c.(clock := c.clock + 1, stats := st.(lirCount := st.lirCount + 1))
    else c.(clock := c.clock + 1, q := c.q + [key], qSize := c.qSize + 1, stats := st.(hirCount := st.hirCount + 1))
  }

  function Pushed(c: LirsModel.Cache, key: Word, e: Entry): LirsModel.Cache {
    c.(s := [key] + c.s, sSize := c.sSize + 1, index := c.index[key := e])
  }

  /** `Admit` as the steps of the code. */
  lemma AdmitIs(c: LirsModel.Cache, key: Word, value: Word, size: Word)
    requires Shape(c) && key !in c.index
    ensures Admit(c, key, value, size) == Pushed(Entered(c, key, size), key, NewEntry(c, value, size).(inS := true))
  {
  }

  lemma GhostOnlyInS(c: LirsModel.Cache, key: Word)
    requires Shape(c) && key in c.index && c.index[key].kind == Ghost
    ensures Distinct(c.s) && key !in c.q
  {
  }

  /** `DropFromS` as the steps of the code. */
  lemma DropIs(c: LirsModel.Cache, key: Word)
    requires Shape(c) && key in c.index && c.index[key].kind == Ghost
    ensures DropFromS(c, key) ==
            Destroy(c.(s := Remove(c.s, key), sSize := c.sSize - 1,
                       index := c.index[key := c.index[key].(inS := false)]), key)
  {
    hide Remove;
    UpdateThenRemove(c.index, key, c.index[key].(inS := false));
  }

  lemma QueueIsDistinct(c: LirsModel.Cache)
    requires Shape(c)
    ensures Distinct(c.q)
  {
  }

  class Lirs {
    const capacity: Word
    const hirCapacity: Word
    const maxSize: Word

    var sStack: seq<Block>
    var qQueue: seq<Block>
    var sStackSize: int
    var qQueueSize: int
    var hashTable: seq<seq<Block>>
    var stats: Stats
    var currentTime: nat
    var evictCallback: bool
    /** The calls made to the callback so far. */
    var callbackLog: seq<Release>

    ghost var node: Nodes

    ghost function Index(): map<Word, Entry>
      reads this`node, node.Values
    {
      map k | k in node :: node[k].State()
    }

    /** The state machine's view of this object. */
    ghost function Abs(): LirsModel.Cache
      reads this, node.Values
    {
      Cache(capacity, hirCapacity, maxSize, Keys(sStack), Keys(qQueue), sStackSize, qQueueSize,
            Index(), stats, currentTime, evictCallback, callbackLog)
    }

    /** An assignment to the fields of one tracked block changes one entry of the index. */
    twostate lemma IndexUpdate(b: Block)
      requires Keyed(node) && node == old(node) && b.key in node && node[b.key] == b
      requires forall k :: k in node && k != b.key ==> node[k].State() == old(node[k].State())
      ensures Index() == old(Index())[b.key := b.State()]
    {
    }

    ghost predicate Linked()
      reads this
    {
      Keyed(node) && Named(sStack, node) && Named(qQueue, node) && Chained(hashTable, node)
    }

    ghost predicate Valid()
      reads this, node.Values
    {
      Linked() && Inv(Abs())
    }

    /**
     `lirs_create`: the number of chains is the least power of two that is at least twice the capacity, in 64 bits. The
     loop ends exactly when that is at most half the range (`DoublingReachesIff`).
     */
    constructor (capacity: Word, maxSize: Word)
      requires Wrap(2 * capacity) <= HALF
      ensures Valid() && node == map[]
      ensures Abs() == Create(capacity, maxSize, false)
      ensures IsPow2(|hashTable|) && |hashTable| >= Wrap(2 * capacity)
      ensures |hashTable| == 1 || |hashTable| / 2 < Wrap(2 * capacity)
    {
      this.capacity := capacity;
      this.hirCapacity := HirCapacity(capacity);
      this.maxSize := maxSize;
      sStack, qQueue, sStackSize, qQueueSize := [], [], 0, 0;
      stats := Stats(0, 0, 0, 0, 0, 0, 0, 0, 0);
      currentTime, evictCallback, callbackLog, node := 0, false, [], map[];
      var hashSize := 1;
      ghost var k: nat := 0;
      var target := Wrap(2 * capacity);
      while hashSize < target
        invariant 1 <= hashSize <= HALF && hashSize == Pow2(k) && (hashSize == 1 || hashSize / 2 < target)
        decreases target - hashSize
      {
        HalvesBelow(k);
        hashSize := Wrap(hashSize * 2);
        k := k + 1;
      }
      hashTable := seq(hashSize, _ => []);
      new;
      CreateEstablishesInvariant(capacity, maxSize, false);
    }

    /** `lirs_find_block` */
    method FindBlock(key: Word) returns (b: Block?)
      requires Keyed(node) && Chained(hashTable, node)
      ensures if key in node then b == node[key] else b == null
    {
      hide Bucket;
      var chain := hashTable[Bucket(key, |hashTable|)];
      var i := 0;
      while i < |chain|
        invariant 0 <= i <= |chain|
        invariant forall j :: 0 <= j < i ==> chain[j].key != key
      {
        if chain[i].key == key {
          return chain[i];
        }
        i := i + 1;
      }
      return null;
    }

    /** `lirs_insert_hash` */
    method InsertHash(b: Block)
      requires Chained(hashTable, node) && b.key !in node
      modifies this`hashTable, this`node
      ensures Chained(hashTable, node) && node == old(node)[b.key := b] && |hashTable| == |old(hashTable)|
    {
      hide Bucket;
      ChainedInsert(hashTable, node, b);
      var i := Bucket(b.key, |hashTable|);
      hashTable := hashTable[i := [b] + hashTable[i]];
      node := node[b.key := b];
    }

    /** `lirs_remove_hash` */
    method RemoveHash(b: Block)
      requires Keyed(node) && Chained(hashTable, node) && b.key in node && node[b.key] == b
      modifies this`hashTable, this`node
      ensures Chained(hashTable, node) && node == old(node) - {b.key} && |hashTable| == |old(hashTable)|
    {
      hide Bucket;
      ChainedRemove(hashTable, node, b);
      var i := Bucket(b.key, |hashTable|);
      hashTable := hashTable[i := Remove(hashTable[i], b)];
      node := node - {b.key};
    }

    /** `lirs_block_destroy`: the callback runs on values that are not NULL. */
    method DestroyBlock(b: Block)
      modifies this`callbackLog
      ensures callbackLog == old(callbackLog) +
              (if evictCallback && b.value != NULL then [Release(b.key, b.value, b.size)] else [])
    {
      if evictCallback && b.value != NULL {
        callbackLog := callbackLog + [Release(b.key, b.value, b.size)];
      }
    }

    /** Writes the counters. */
    method Account(s: Stats)
      requires Linked()
      modifies this`stats
      ensures Linked() && Abs() == old(Abs()).(stats := s)
    {
      hide Chained, Named, Keys;
      stats := s;
    }

    /** A key is tracked exactly when it has a block. */
    lemma TrackedIff(key: Word)
      ensures key in Abs().index <==> key in node
      ensures key in node ==> Abs().index[key] == node[key].State()
    {
    }

    /** `lirs_prune_s_stack` */
    method PruneSStack()
      requires Linked() && Shape(Abs())
      modifies this, node.Values
      ensures Linked() && Abs() == Prune(old(Abs())) && Within(node, old(node))
    {
      hide Shape, Chained, Prune;
      while |sStack| != 0
        invariant Linked() && Shape(Abs()) && Prune(Abs()) == Prune(old(Abs()))
        invariant Within(node, old(node))
        decreases |sStack|
      {
        PruneUnfolds(Abs());
        var bottom := Last(sStack);
        assert bottom in sStack;
        if bottom.kind == Lir && bottom.inS {
          return;
        }
        PopBottomBlock();
      }
      PruneEmpty(Abs());
    }

    /** The body of the pruning loop. */
    method PopBottomBlock()
      requires Linked() && Shape(Abs())
      requires Abs().s != [] && Abs().index[Last(Abs().s)].kind != Lir
      modifies this, node.Values
      ensures Linked() && Abs() == PopBottom(old(Abs())) && Within(node, old(node))
      ensures |sStack| == |old(sStack)| - 1
    {
      hide Shape, Chained, Named, Keys;
      BottomGhostIsListedOnce(Abs());
      NamedPrefix(sStack, node);
      var bottom := Last(sStack);
      UnstackBottom();
      if bottom.kind == Ghost {
        Discard(bottom);
      }
    }

    method UnstackBottom()
      requires Linked() && sStack != [] && Last(sStack).key in node && node[Last(sStack).key] == Last(sStack)
      modifies this`sStack, this`sStackSize, Last(sStack)
      ensures Linked() && old(Last(Keys(sStack)) == Last(sStack).key)
      ensures Abs() == Unstack(old(Abs()), old(Last(sStack).key))
      ensures |sStack| == |old(sStack)| - 1
    {
      hide Chained, Named, Keys;
      NamedPrefix(sStack, node);
      var bottom := Last(sStack);
      sStack := sStack[..|sStack| - 1];
      bottom.inS := false;
      sStackSize := sStackSize - 1;
      IndexUpdate(bottom);
    }

    /** `lirs_remove_hash` and `lirs_block_destroy` for a block that is on neither list. */
    method Discard(b: Block)
      requires Linked() && b.key in node && node[b.key] == b
      requires b.key !in Keys(sStack) && b.key !in Keys(qQueue)
      modifies this`hashTable, this`node, this`callbackLog
      ensures Linked() && Abs() == Destroy(old(Abs()), b.key) && node == old(node) - {b.key}
    {
      hide Chained;
      NamedWithout(sStack, node, b.key);
      NamedWithout(qQueue, node, b.key);
      RemoveHash(b);
      DestroyBlock(b);
      assert Index() == old(Index()) - {b.key};
    }

    /** `lirs_evict_hir` */
    method EvictHir()
      requires Linked() && Shape(Abs())
      modifies this, node.Values
      ensures Linked() && Abs() == LirsModel.EvictHir(old(Abs())) && Within(node, old(node))
    {
      hide Shape, Chained, Named, Keys;
      while |qQueue| != 0 && qQueueSize > hirCapacity
        invariant Linked() && Shape(Abs()) && LirsModel.EvictHir(Abs()) == LirsModel.EvictHir(old(Abs()))
        invariant Within(node, old(node))
        decreases |qQueue|
      {
        EvictHeadBlock();
      }
    }

    /** The body of the eviction loop. */
    method EvictHeadBlock()
      requires Linked() && Shape(Abs()) && Abs().q != []
      modifies this, node.Values
      ensures Linked() && Abs() == EvictHead(old(Abs())) && Within(node, old(node))
      ensures |qQueue| == |old(qQueue)| - 1
    {
      hide Shape, Chained, Named, Keys;
      HeadIsListedOnce(Abs());
      NamedSuffix(qQueue, node);
      var b := qQueue[0];
      DequeueHead();
      if !b.inS {
        Discard(b);
      }
    }

    method DequeueHead()
      requires Linked() && qQueue != [] && qQueue[0].key in node && node[qQueue[0].key] == qQueue[0]
      modifies this`qQueue, this`qQueueSize, this`stats, qQueue[0]
      ensures Linked() && old(Keys(qQueue)[0] == qQueue[0].key)
      ensures Abs() == TurnGhost(old(Abs()), old(qQueue[0].key))
      ensures |qQueue| == |old(qQueue)| - 1
    {
      hide Chained, Named, Keys, Index;
      NamedSuffix(qQueue, node);
      var b := qQueue[0];
      TrackedIff(b.key);
      qQueue := qQueue[1..];
      b.inQ := false;
      b.kind := Ghost;
      qQueueSize := qQueueSize - 1;
      IndexUpdate(b);
      Account(stats.(hirCount := stats.hirCount - 1, ghostCount := stats.ghostCount + 1,
                     totalSize := Sub64(stats.totalSize, b.size), evictions := stats.evictions + 1));
    }

    /** `lirs_demote_lir` */
    method DemoteLir(b: Block)
      requires Linked() && Shape(Abs()) && b.key in node && node[b.key] == b && Abs().index[b.key].kind == Lir
      modifies this, b
      ensures Linked() && Abs() == Demote(old(Abs()), b.key) && node == old(node) && sStack == old(sStack)
    {
      hide Shape, Chained, Named, Keys, Index;
      TrackedIff(b.key);
      KindTellsList(Abs(), b.key);
      b.kind := Resident;
      IndexUpdate(b);
      Account(stats.(lirCount := stats.lirCount - 1, hirCount := stats.hirCount + 1, demotions := stats.demotions + 1));
      if !b.inQ {
        Enqueue(b);
      }
    }

    /** Puts a tracked block at the end of Q. */
    method Enqueue(b: Block)
      requires Linked() && b.key in node && node[b.key] == b
      modifies this`qQueue, this`qQueueSize, b`inQ
      ensures Linked()
      ensures var c := old(Abs());
              Abs() == c.(q := c.q + [b.key], qSize := c.qSize + 1,
                    index := c.index[b.key := c.index[b.key].(inQ := true)])
    {
      hide Chained, Named, Keys;
      NamedAppend(qQueue, node, b);
      qQueue := qQueue + [b];
      b.inQ := true;
      qQueueSize := qQueueSize + 1;
      IndexUpdate(b);
    }

    /** The statements of `lirs_promote_hir` before it looks at the bottom of S. */
    method TurnLirBlock(b: Block)
      requires Linked() && Shape(Abs()) && b.key in node && node[b.key] == b
      requires Abs().index[b.key].kind == Resident && Abs().index[b.key].inS
      modifies this, b
      ensures Linked() && Abs() == TurnLir(old(Abs()), b.key) && node == old(node) && sStack == old(sStack)
    {
      hide Shape, Chained, Named, Keys, Remove, Index;
      TrackedIff(b.key);
      KindTellsList(Abs(), b.key);
      QueueIsDistinct(Abs());
      b.kind := Lir;
      IndexUpdate(b);
      Account(stats.(lirCount := stats.lirCount + 1, hirCount := stats.hirCount - 1,
                     promotions := stats.promotions + 1));
      if b.inQ {
        UnlinkFromQ(b);
      }
    }

    /** `lirs_promote_hir` */
    method PromoteHir(b: Block)
      requires Linked() && Shape(Abs()) && b.key in node && node[b.key] == b
      requires Abs().index[b.key].kind == Resident && Abs().index[b.key].inS
      modifies this, node.Values
      ensures Linked() && Abs() == Promote(old(Abs()), b.key) && Within(node, old(node))
    {
      hide Shape, Chained, Named, Keys, Demote, Prune, LirsModel.EvictHir;
      TurnLirBlock(b);
      ExchangeBottom();
      PruneSStack();
      EvictHir();
    }

    /** Demotes the bottom of S when it is LIR, and takes it off S. */
    method ExchangeBottom()
      requires Linked() && Shape(Abs()) && Abs().s != []
      modifies this, node.Values
      ensures Linked() && Abs() == Exchange(old(Abs())) && Within(node, old(node))
    {
      hide Shape, Chained, Named, Keys;
      NamedPrefix(sStack, node);
      var bottom := Last(sStack);
      if bottom.kind == Lir {
        DemoteLir(bottom);
        PopBottomBlock();
      }
    }

    /** Moves a block to the top of S, or puts it there. */
    method MoveToTop(b: Block)
      requires Linked() && Shape(Abs()) && b.key in node && node[b.key] == b
      modifies this, b
      ensures Linked() && Abs() == Raise(old(Abs()), b.key) && node == old(node) && qQueue == old(qQueue)
    {
      hide Chained, Named, Keys;
      NamedRemove(sStack, node, b);
      NamedAppend(Remove(sStack, b), node, b);
      if b.inS {
        sStack := [b] + Remove(sStack, b);
      } else {
        sStack := [b] + sStack;
        b.inS := true;
        sStackSize := sStackSize + 1;
      }
      IndexUpdate(b);
    }

    /** `lirs_get` */
    method Get(key: Word) returns (value: Word)
      requires Valid()
      modifies this, node.Values
      ensures Valid() && (Abs(), value) == LirsModel.Get(old(Abs()), key) && Within(node, old(node))
    {
      hide Shape, Chained, Named, Keys, Books, RecentExcept, Within;
      StepKeepsInvariant(Abs(), GetOp(key));
      WithinSelf(node);
      if key == NULL {
        return NULL;
      }
      var b := FindBlock(key);
      if b == null {
        stats := stats.(misses := stats.misses + 1);
        assert Abs() == Miss(old(Abs()));
        return NULL;
      }
      value := AccessBlock(b);
    }

    /** `lirs_get` once the block has been found. */
    method AccessBlock(b: Block) returns (value: Word)
      requires Linked() && Ready(Abs()) && b.key in node && node[b.key] == b && b.key != NULL
      modifies this, node.Values
      ensures Linked() && (Abs(), value) == LirsModel.Get(old(Abs()), b.key) && Within(node, old(node))
    {
      hide Shape, Chained, Named, Keys, Within, Raise, Prune, HitResident, DropFromS;
      TouchBlock(b);
      ghost var c := Abs();
      match b.kind {
        case Lir =>
          stats := stats.(hits := stats.hits + 1);
          assert Abs() == Hit(c);
          HitLirBlock(b);
        case Resident =>
          stats := stats.(hits := stats.hits + 1);
          assert Abs() == Hit(c);
          HitResidentBlock(b);
        case Ghost =>
          stats := stats.(misses := stats.misses + 1);
          assert Abs() == Miss(c);
          MissGhostBlock(b);
          return NULL;
      }
      value := b.value;
    }

    method TouchBlock(b: Block)
      requires Linked() && Shape(Abs()) && b.key in node && node[b.key] == b
      modifies this`currentTime, b`accessTime
      ensures Linked() && Abs() == Touch(old(Abs()), b.key)
    {
      hide Shape, Chained, Named, Keys;
      currentTime := currentTime + 1;
      b.accessTime := currentTime;
      IndexUpdate(b);
    }

    method HitLirBlock(b: Block)
      requires Linked() && Shape(Abs()) && b.key in node && node[b.key] == b && b.kind == Lir
      modifies this, node.Values
      ensures Linked() && Abs() == Prune(Raise(old(Abs()), b.key)) && Within(node, old(node))
      ensures b.value == old(b.value)
    {
      hide Shape, Chained, Named, Keys;
      MoveToTop(b);
      PruneTrims(Abs());
      PruneSStack();
      assert b.key in Abs().index && node[b.key] == b;
    }

    method HitResidentBlock(b: Block)
      requires Linked() && Ready(Abs()) && b.key in node && node[b.key] == b && b.kind == Resident
      modifies this, node.Values
      ensures Linked() && Abs() == HitResident(old(Abs()), b.key) && Within(node, old(node))
      ensures b.value == old(b.value)
    {
      hide Shape, Chained, Named, Keys, HitResident, Promote, TradePlaces, LirsModel.EvictHir;
      if b.inS {
        PromoteBlock(b);
      } else {
        HitOutsideStack(Abs(), b.key);
      }
      MoveToTop(b);
      KindTellsList(Abs(), b.key);
      if b.kind == Resident && !b.inQ {
        // A resident HIR block is always in Q here; the source enqueues it in this place.
        assert false;
      }
      EvictNothing(Abs());
      EvictHir();
    }

    /** A promotion from `lirs_get` keeps the block it promotes. */
    method PromoteBlock(b: Block)
      requires Linked() && Ready(Abs()) && b.key in node && node[b.key] == b && b.kind == Resident && b.inS
      modifies this, node.Values
      ensures Linked() && Shape(Abs()) && Within(node, old(node))
      ensures b.key in node && node[b.key] == b && b.value == old(b.value)
      ensures var c := old(Abs());
              && Abs() == TradePlaces(c, b.key) == Promote(c, b.key)
              && HitResident(c, b.key) == Raise(TradePlaces(c, b.key), b.key)
              && |Abs().q| <= hirCapacity
    {
      hide Shape, Chained, Named, Keys;
      ghost var c := Abs();
      PromoteEvictsNothing(c, b.key);
      TradeKeepsBlocks(c, b.key);
      HitInStack(c, b.key);
      PromoteHir(b);
      assert b.key in Abs().index && node[b.key] == b;
    }

    method MissGhostBlock(b: Block)
      requires Linked() && Shape(Abs()) && b.key in node && node[b.key] == b && b.kind == Ghost
      modifies this, node.Values
      ensures Linked() && Abs() == Prune(DropFromS(old(Abs()), b.key)) && Within(node, old(node))
    {
      hide Shape, Chained, Named, Keys, Index, Destroy, DropFromS, Remove, Prune;
      TrackedIff(b.key);
      KindTellsList(Abs(), b.key);
      GhostOnlyInS(Abs(), b.key);
      DropIs(Abs(), b.key);
      if b.inS {
        UnlinkFromS(b);
        Discard(b);
        PruneSStack();
      }
    }

    /** Takes a block off S; its flag is not read again before it is destroyed. */
    method UnlinkFromS(b: Block)
      requires Linked() && Distinct(Keys(sStack)) && b.key in node && node[b.key] == b
      modifies this`sStack, this`sStackSize, b`inS
      ensures Linked() && b.key !in Keys(sStack)
      ensures var c := old(Abs());
              Abs() == c.(s := Remove(c.s, b.key), sSize := c.sSize - 1,
                    index := c.index[b.key := c.index[b.key].(inS := false)])
    {
      hide Chained, Named, Keys;
      NamedRemove(sStack, node, b);
      RemoveDistinct(Keys(sStack), b.key);
      sStack := Remove(sStack, b);
      b.inS := false;
      sStackSize := sStackSize - 1;
      IndexUpdate(b);
    }

    /**
     The retry loop of `lirs_put`. It gives up in its first pass: between operations there is nothing to evict, and
     pruning frees no bytes.
     */
    method MakeRoom(size: Word) returns (ok: bool)
      requires Valid()
      modifies this, node.Values
      ensures Valid() && Within(node, old(node)) && ok == !OverBudget(old(Abs()), size)
      ensures Abs() == if ok then old(Abs()) else Prune(old(Abs()))
      ensures ok ==> node == old(node)
    {
      hide Shape, Chained, Named, Keys, Books, RecentExcept, Prune, LirsModel.EvictHir;
      while Add64(stats.totalSize, size) > maxSize
        invariant Valid() && Within(node, old(node))
        invariant (Abs() == old(Abs()) && node == old(node)) ||
                  (OverBudget(old(Abs()), size) && !OverBudget(Abs(), size) && Abs() == Prune(old(Abs())))
        decreases if Add64(stats.totalSize, size) > maxSize then 1 else 0
      {
        PruneKeepsInv(Abs());
        EvictNothing(Abs());
        PruneEmpty(Abs());
        EvictHir();
        if Add64(stats.totalSize, size) > maxSize && |sStack| != 0 {
          PruneSStack();
        }
        if Add64(stats.totalSize, size) > maxSize {
          return false;
        }
      }
      PruneTrims(old(Abs()));
      ok := true;
    }

    /** `lirs_put`; `gotBlock` says whether the block itself could be allocated. */
    method Put(key: Word, value: Word, size: Word, gotBlock: bool) returns (code: int)
      requires Valid()
      modifies this, node.Values
      ensures Valid() && (Abs(), code) == LirsModel.Put(old(Abs()), key, value, size, gotBlock)
      ensures fresh(node.Values - old(node.Values))
    {
      hide Shape, Chained, Named, Keys, Books, RecentExcept, Admit, Prune, LirsModel.EvictHir, Overwrite, Abs, Index;
      StepKeepsInvariant(Abs(), PutOp(key, value, size, gotBlock));
      TrackedIff(key);
      if key == NULL {
        return -1;
      }
      var existing := FindBlock(key);
      if existing != null {
        OverwriteBlock(existing, value, size);
        return 0;
      }
      var ok := MakeRoom(size);
      if !ok {
        return -2;
      }
      if !gotBlock {
        return -3;
      }
      var b := new Block(key, value, size);
      AdmitBlock(b);
      PruneSStack();
      EvictHir();
      return 0;
    }

    /** `lirs_put` on a tracked key. */
    method OverwriteBlock(b: Block, value: Word, size: Word)
      requires Linked() && Shape(Abs()) && b.key in node && node[b.key] == b
      modifies this, b
      ensures Linked() && Abs() == Overwrite(old(Abs()), b.key, value, size) && node == old(node)
    {
      hide Shape, Chained, Named, Keys;
      if b.value != value {
        if evictCallback && b.value != NULL {
          callbackLog := callbackLog + [Release(b.key, b.value, b.size)];
        }
        stats := stats.(totalSize := Sub64(stats.totalSize, b.size));
        stats := stats.(totalSize := Add64(stats.totalSize, size));
        b.value := value;
        b.size := size;
        IndexUpdate(b);
      }
    }

    /** Files a newly created block. */
    method AdmitBlock(b: Block)
      requires Linked() && Shape(Abs()) && b.key !in node && b !in node.Values
      requires b.State() == Entry(b.value, b.size, Resident, 0, false, false)
      modifies this, b
      ensures Linked() && Abs() == Admit(old(Abs()), b.key, old(b.value), old(b.size))
      ensures node == old(node)[b.key := b]
    {
      hide Shape, Chained, Named, Keys, Index, Admit;
      ghost var c := Abs();
      TrackedIff(b.key);
      EnterNew(b);
      PushNew(b);
      AdmitIs(c, b.key, b.value, b.size);
    }

    /** The time stamp, the type and the counters of a new block, and its place in Q. */
    method EnterNew(b: Block)
      requires Linked() && b.key !in node && b !in node.Values
      requires b.State() == Entry(b.value, b.size, Resident, 0, false, false)
      modifies this`currentTime, this`stats, this`qQueue, this`qQueueSize, b`accessTime, b`kind, b`inQ
      ensures b.State() == NewEntry(old(Abs()), old(b.value), old(b.size))
      ensures Abs() == Entered(old(Abs()), b.key, b.size)
      ensures Named(qQueue, node[b.key := b]) && Named(sStack, node)
    {
      hide Chained, Named, Keys, Index;
      currentTime := currentTime + 1;
      b.accessTime := currentTime;
      NamedGrow(qQueue, node, b);
      if sStackSize < Sub64(capacity, hirCapacity) {
        b.kind := Lir;
        stats := stats.(lirCount := stats.lirCount + 1);
        assert Index() == old(Index());
      } else {
        b.kind := Resident;
        stats := stats.(hirCount := stats.hirCount + 1);
        assert Index() == old(Index());
        EnqueueNew(b);
      }
      stats := stats.(totalSize := Add64(stats.totalSize, b.size));
    }

    /** Puts a block that is about to be tracked at the end of Q. */
    method EnqueueNew(b: Block)
      requires b.key !in node && b !in node.Values && Named(qQueue, node[b.key := b])
      modifies this`qQueue, this`qQueueSize, b`inQ
      ensures Named(qQueue, node[b.key := b]) && b.inQ
      ensures Abs() == old(Abs()).(q := old(Abs()).q + [b.key], qSize := old(Abs()).qSize + 1)
    {
      hide Named, Keys;
      NamedAppend(qQueue, node[b.key := b], b);
      qQueue := qQueue + [b];
      b.inQ := true;
      qQueueSize := qQueueSize + 1;
      assert Index() == old(Index());
    }

    /** Puts a new block on top of S and into the hash table. */
    method PushNew(b: Block)
      requires Keyed(node) && Chained(hashTable, node) && Named(sStack, node) && Named(qQueue, node[b.key := b])
      requires b.key !in node && b !in node.Values
      modifies this`sStack, this`sStackSize, this`hashTable, this`node, b`inS
      ensures Linked() && node == old(node)[b.key := b]
      ensures Abs() == Pushed(old(Abs()), b.key, old(b.State()).(inS := true))
    {
      hide Chained, Named, Keys;
      sStack := [b] + sStack;
      b.inS := true;
      sStackSize := sStackSize + 1;
      InsertHash(b);
      NamedGrow(old(sStack), old(node), b);
      NamedAppend(old(sStack), node, b);
      IndexGrows(b);
    }

    twostate lemma IndexGrows(b: Block)
      requires Keyed(old(node)) && b.key !in old(node) && node == old(node)[b.key := b]
      requires forall k :: k in old(node) ==> node[k].State() == old(node[k].State())
      ensures Index() == old(Index())[b.key := b.State()]
    {
    }

    /** `lirs_remove` */
    method Delete(key: Word) returns (code: int)
      requires Valid()
      modifies this, node.Values
      ensures Valid() && (Abs(), code) == LirsModel.Delete(old(Abs()), key) && Within(node, old(node))
    {
      hide Shape, Chained, Named, Keys, Books, RecentExcept, Prune, Unlink;
      StepKeepsInvariant(Abs(), DeleteOp(key));
      if key == NULL {
        return -1;
      }
      var b := FindBlock(key);
      if b == null {
        return -2;
      }
      UnlinkBlock(b);
      PruneSStack();
      return 0;
    }

    /** `lirs_remove` up to the final pruning. */
    method UnlinkBlock(b: Block)
      requires Linked() && Shape(Abs()) && b.key in node && node[b.key] == b
      modifies this, b
      ensures Linked() && Abs() == Unlink(old(Abs()), b.key) && node == old(node) - {b.key}
    {
      hide Shape, Chained, Named, Keys, Remove, Index, Unlink, Destroy;
      ghost var c := Abs();
      TrackedIff(b.key);
      UnlinkFromLists(b);
      CountOut(b);
      Discard(b);
      UnlinkIs(c, b.key);
    }

    /** Takes a block off the counters. */
    method CountOut(b: Block)
      requires Linked()
      modifies this`stats
      ensures Linked() && Abs() == old(Abs()).(stats := Uncounted(old(stats), b.kind, b.size))
    {
      hide Chained, Named, Keys, Index;
      stats := stats.(totalSize := Sub64(stats.totalSize, b.size));
      match b.kind {
        case Lir => stats := stats.(lirCount := stats.lirCount - 1);
        case Resident => stats := stats.(hirCount := stats.hirCount - 1);
        case Ghost => stats := stats.(ghostCount := stats.ghostCount - 1);
      }
    }

    method UnlinkFromLists(b: Block)
      requires Linked() && Shape(Abs()) && b.key in node && node[b.key] == b
      modifies this`sStack, this`sStackSize, this`qQueue, this`qQueueSize, b`inS, b`inQ
      ensures Linked() && b.key !in Keys(sStack) && b.key !in Keys(qQueue)
      ensures Abs() == OffLists(old(Abs()), b.key) && b.kind == old(b.kind)
    {
      hide Shape, Chained, Named, Keys, Remove, Index;
      ghost var c := Abs();
      TrackedIff(b.key);
      ghost var e := c.index[b.key];
      KindTellsList(c, b.key);
      ListsAreDistinct(c, b.key);
      if b.inS {
        UnlinkFromS(b);
      }
      assert Abs() == c.(s := Remove(c.s, b.key), sSize := if e.inS then c.sSize - 1 else c.sSize,
                         index := c.index[b.key := e.(inS := false)]);
      if b.inQ {
        UnlinkFromQ(b);
      }
    }

    method UnlinkFromQ(b: Block)
      requires Linked() && Distinct(Keys(qQueue)) && b.key in node && node[b.key] == b
      modifies this`qQueue, this`qQueueSize, b`inQ
      ensures Linked() && b.key !in Keys(qQueue)
      ensures var c := old(Abs());
              Abs() == c.(q := Remove(c.q, b.key), qSize := c.qSize - 1,
                    index := c.index[b.key := c.index[b.key].(inQ := false)])
    {
      hide Chained, Named, Keys;
      NamedRemove(qQueue, node, b);
      RemoveDistinct(Keys(qQueue), b.key);
      qQueue := Remove(qQueue, b);
      b.inQ := false;
      qQueueSize := qQueueSize - 1;
      IndexUpdate(b);
    }

    /**
     `lirs_clear`: every tracked block is destroyed once, those in S first. A block's flags are left
     as they were, and the second loop reads them to skip the blocks the first has destroyed.
     */
    method Clear()
      requires Valid()
      modifies this
      ensures Valid() && Abs() == LirsModel.Clear(old(Abs()))
    {
      hide Shape, Chained, Keys, Books, RecentExcept;
      ghost var c := Abs();
      StepKeepsInvariant(c, ClearOp);
      ClearLists(c);
      sStackSize, qQueueSize := 0, 0;
      stats := stats.(lirCount := 0, hirCount := 0, ghostCount := 0, totalSize := 0);
    }

    /** The cache `c` describes these blocks as they are. */
    ghost predicate Described(bs: seq<Block>, c: LirsModel.Cache)
      reads bs
    {
      && (forall k :: k in Keys(bs) ==> k in c.index)
      && (forall b :: b in bs ==> b.key in c.index && c.index[b.key] == b.State())
    }

    method ClearLists(ghost c: LirsModel.Cache)
      requires Linked() && c == Abs() && Shape(c)
      modifies this`sStack, this`qQueue, this`hashTable, this`node, this`callbackLog
      ensures Linked() && sStack == [] && qQueue == [] && node == map[]
      ensures callbackLog == c.released + FireAll(c, c.s) + FireAll(c, OnlyInQ(c, c.q))
    {
      hide Keys, Described, Shape, Chained, FireAll, OnlyInQ;
      DescribedLists();
      ClearStack(c);
      ClearQueue(c);
      ResetTable();
    }

    method ResetTable()
      requires |hashTable| >= 1
      modifies this`hashTable, this`node
      ensures Keyed(node) && Chained(hashTable, node) && node == map[] && |hashTable| == |old(hashTable)|
    {
      hashTable := seq(|hashTable|, _ => []);
      node := map[];
    }

    lemma DescribedLists()
      requires Linked() && Shape(Abs())
      ensures Described(sStack, Abs()) && Described(qQueue, Abs()) && QueueTracked()
      ensures Distinct(Keys(sStack)) && Distinct(Keys(qQueue))
      ensures forall b :: b in sStack ==> b.inS
    {
      hide Chained;
      forall b | b in sStack ensures b.inS {
        var i :| 0 <= i < |sStack| && sStack[i] == b;
        assert Keys(sStack)[i] in Abs().s;
      }
    }

    ghost predicate Clearing(bs: seq<Block>, c: LirsModel.Cache)
      reads this, bs
    {
      && Keyed(node) && Chained(hashTable, node) && evictCallback == c.callback
      && Described(bs, c) && Distinct(Keys(bs))
    }

    method ClearStack(ghost c: LirsModel.Cache)
      requires Clearing(sStack, c) && Named(sStack, node) && forall b :: b in sStack ==> b.inS
      modifies this`sStack, this`hashTable, this`node, this`callbackLog
      ensures Keyed(node) && Chained(hashTable, node) && sStack == []
      ensures old(QueueTracked()) ==> QueueTracked()
      ensures callbackLog == old(callbackLog) + FireAll(c, old(Keys(sStack)))
    {
      hide Chained, Named, Keys;
      ghost var log := callbackLog + FireAll(c, Keys(sStack));
      while |sStack| != 0
        invariant Clearing(sStack, c) && Named(sStack, node)
        invariant forall b :: b in sStack ==> b.inS
        invariant old(QueueTracked()) ==> QueueTracked()
        invariant callbackLog + FireAll(c, Keys(sStack)) == log
        decreases |sStack|
      {
        ClearTop(c);
      }
    }

    method ClearTop(ghost c: LirsModel.Cache)
      requires sStack != [] && Clearing(sStack, c) && Named(sStack, node)
      modifies this`sStack, this`hashTable, this`node, this`callbackLog
      ensures Clearing(sStack, c) && Named(sStack, node) && sStack == old(sStack)[1..]
      ensures node == old(node) - {old(sStack)[0].key} && old(node[sStack[0].key] == sStack[0])
      ensures callbackLog + FireAll(c, Keys(sStack)) == old(callbackLog) + FireAll(c, old(Keys(sStack)))
    {
      hide Chained, Named, Keys;
      NamedSuffix(sStack, node);
      HeadIsNew(Keys(sStack));
      var b := sStack[0];
      sStack := sStack[1..];
      NamedWithout(sStack, node, b.key);
      RemoveHash(b);
      DestroyBlock(b);
    }

    ghost predicate QueueTracked()
      reads this, qQueue
    {
      forall b :: b in qQueue && !b.inS ==> b.key in node && node[b.key] == b
    }

    method ClearQueue(ghost c: LirsModel.Cache)
      requires Clearing(qQueue, c) && QueueTracked()
      modifies this`qQueue, this`hashTable, this`node, this`callbackLog
      ensures qQueue == [] && |hashTable| >= 1
      ensures callbackLog == old(callbackLog) + FireAll(c, OnlyInQ(c, old(Keys(qQueue))))
    {
      hide Keys;
      ghost var log := callbackLog + FireAll(c, OnlyInQ(c, Keys(qQueue)));
      while |qQueue| != 0
        invariant Clearing(qQueue, c) && QueueTracked()
        invariant callbackLog + FireAll(c, OnlyInQ(c, Keys(qQueue))) == log
        decreases |qQueue|
      {
        ClearHead(c);
      }
    }

    method ClearHead(ghost c: LirsModel.Cache)
      requires qQueue != [] && Clearing(qQueue, c) && QueueTracked()
      modifies this`qQueue, this`hashTable, this`node, this`callbackLog
      ensures Clearing(qQueue, c) && QueueTracked() && qQueue == old(qQueue)[1..]
      ensures callbackLog + FireAll(c, OnlyInQ(c, Keys(qQueue))) ==
              old(callbackLog) + FireAll(c, OnlyInQ(c, old(Keys(qQueue))))
    {
      hide Chained, Keys, FireAll, OnlyInQ;
      HeadIsNew(Keys(qQueue));
      KeysSuffix(qQueue);
      OnlyInQUnfolds(c, Keys(qQueue));
      var b := qQueue[0];
      qQueue := qQueue[1..];
      if !b.inS {
        RemoveHash(b);
        DestroyBlock(b);
      }
    }

    /** `lirs_contains` */
    method Contains(key: Word) returns (found: bool)
      requires Valid()
      ensures found <==> key in ResidentMap(Abs()) && key != NULL
    {
      if key == NULL {
        return false;
      }
      var b := FindBlock(key);
      found := b != null && b.kind != Ghost;
    }

    /** `lirs_size` */
    method Size() returns (n: int)
      requires Valid()
      ensures n == |ResidentMap(Abs())|
    {
      SizeIsResidentCount(Abs());
      n := stats.lirCount + stats.hirCount;
    }

    /** `lirs_set_evict_callback` */
    method SetEvictCallback(on: bool)
      requires Valid()
      modifies this`evictCallback
      ensures Valid() && Abs() == old(Abs()).(callback := on)
    {
      hide Inv, Chained, Named, Keys;
      CallbackKeepsInv(Abs(), on);
      evictCallback := on;
    }
  }
}
