/**
 The LIRS replacement cache of src/cache/lirs/lirs.c as a state machine on values.

 A block is identified by its key. `s` is the recency stack (top first), `q` the FIFO of resident
 HIR blocks (oldest first) and `index` the hash table. Each operation runs under the cache's
 spinlock and is therefore one step.
 */
module LirsModel {
  import opened Words
  import opened Seqs

  /** `Resident` is a resident HIR block, `Ghost` a non-resident one that is kept for its history. */
  datatype Kind = Lir | Resident | Ghost

  datatype Entry = Entry(value: Word, size: Word, kind: Kind, time: nat, inS: bool, inQ: bool)

  /** One call of `evict_callback`. */
  datatype Release = Release(key: Word, value: Word, size: Word)

  datatype Stats = Stats(
    hits: nat, misses: nat, evictions: nat, promotions: nat, demotions: nat,
    lirCount: int, hirCount: int, ghostCount: int, totalSize: Word)

  datatype Cache = Cache(
    capacity: Word, hirCapacity: Word, maxSize: Word,
    s: seq<Word>, q: seq<Word>, sSize: int, qSize: int,
    index: map<Word, Entry>,
    stats: Stats, clock: nat, callback: bool, released: seq<Release>)

  const NULL: Word := 0
  const MIN_HIR_BLOCKS: Word := 2

  /** `lirs_create`; one block in a hundred is HIR, and at least two. */
  function Create(capacity: Word, maxSize: Word, callback: bool): Cache {
    Cache(capacity, HirCapacity(capacity), maxSize, [], [], 0, 0, map[],
          Stats(0, 0, 0, 0, 0, 0, 0, 0, 0), 0, callback, [])
  }

  function HirCapacity(capacity: Word): Word {
    if capacity / 100 > MIN_HIR_BLOCKS then capacity / 100 else MIN_HIR_BLOCKS
  }

  // ---------- Shape: what holds between any two statements of an operation ----------

  /** Where a block of this kind must be filed. */
  predicate Filed(e: Entry) {
    && (e.kind == Resident <==> e.inQ)
    && (e.kind != Resident ==> e.inS)
  }

  ghost predicate Shape(c: Cache) {
    && Distinct(c.s) && Distinct(c.q)
    && c.sSize == |c.s| && c.qSize == |c.q|
    && (forall k :: k in c.s ==> k in c.index)
    && (forall k :: k in c.q ==> k in c.index)
    && (forall k {:trigger c.index[k]} :: k in c.index ==>
          (c.index[k].inS <==> k in c.s) && (c.index[k].inQ <==> k in c.q) && Filed(c.index[k]))
  }

  // ---------- Steps inside an operation ----------

  /** The callback made for a block's value, if any. */
  function Fire(c: Cache, k: Word, e: Entry): seq<Release> {
    if c.callback && e.value != NULL then [Release(k, e.value, e.size)] else []
  }

  /** `lirs_remove_hash` followed by `lirs_block_destroy`. */
  function Destroy(c: Cache, k: Word): Cache
    requires k in c.index
  {
    c.(index := c.index - {k}, released := c.released + Fire(c, k, c.index[k]))
  }

  function Unstack(c: Cache, k: Word): Cache
    requires c.s != [] && k in c.index
  {
    c.(s := c.s[..|c.s| - 1], sSize := c.sSize - 1, index := c.index[k := c.index[k].(inS := false)])
  }

  /** Takes the bottom block off S, destroying it when it is a ghost. */
  function PopBottom(c: Cache): (r: Cache)
    requires Shape(c) && c.s != [] && c.index[Last(c.s)].kind != Lir
    ensures Shape(r) && r.s == c.s[..|c.s| - 1]
  {
    var k := Last(c.s);
    if c.index[k].kind == Ghost then Destroy(Unstack(c, k), k) else Unstack(c, k)
  }

  /** `lirs_prune_s_stack` */
  function Prune(c: Cache): (r: Cache)
    requires Shape(c)
    ensures Shape(r)
    decreases |c.s|
  {
    if c.s == [] then c
    else
      var bottom := c.index[Last(c.s)];
      if bottom.kind == Lir && bottom.inS then c else Prune(PopBottom(c))
  }

  /** The head of Q leaves the queue and counts as evicted. */
  function TurnGhost(c: Cache, k: Word): Cache
    requires c.q != [] && k == c.q[0] && k in c.index
  {
    var e := c.index[k];
    var st := c.stats;
    c.(q := c.q[1..], qSize := c.qSize - 1,
       index := c.index[k := e.(inQ := false, kind := Ghost)],
       stats := st.(hirCount := st.hirCount - 1, ghostCount := st.ghostCount + 1,
                    totalSize := Sub64(st.totalSize, e.size), evictions := st.evictions + 1))
  }

  /** One round of `lirs_evict_hir`: the head of Q becomes a ghost, or is destroyed when not in S. */
  function EvictHead(c: Cache): (r: Cache)
    requires Shape(c) && c.q != []
    ensures Shape(r) && r.q == c.q[1..]
  {
    var k := c.q[0];
    if c.index[k].inS then TurnGhost(c, k) else Destroy(TurnGhost(c, k), k)
  }

  /** `lirs_evict_hir` */
  function EvictHir(c: Cache): (r: Cache)
    requires Shape(c)
    ensures Shape(r)
    decreases |c.q|
  {
    if c.q != [] && c.qSize > c.hirCapacity then EvictHir(EvictHead(c)) else c
  }

  /** `lirs_demote_lir` */
  function Demote(c: Cache, k: Word): (r: Cache)
    requires Shape(c) && k in c.index && c.index[k].kind == Lir
    ensures Shape(r) && r.s == c.s
  {
    var e := c.index[k];
    var st := c.stats;
    c.(q := c.q + [k], qSize := c.qSize + 1,
       index := c.index[k := e.(kind := Resident, inQ := true)],
       stats := st.(lirCount := st.lirCount - 1, hirCount := st.hirCount + 1, demotions := st.demotions + 1))
  }

  /** The first half of `lirs_promote_hir`: the block turns LIR and leaves Q. */
  function TurnLir(c: Cache, k: Word): (r: Cache)
    requires Shape(c) && k in c.index && c.index[k].kind == Resident && c.index[k].inS
    ensures Shape(r) && r.s == c.s && k in r.index && r.index[k] == c.index[k].(kind := Lir, inQ := false)
    ensures r.s != [] && |r.q| == |c.q| - 1
  {
    RemoveDistinct(c.q, k);
    var st := c.stats;
    c.(q := Remove(c.q, k), qSize := c.qSize - 1,
       index := c.index[k := c.index[k].(kind := Lir, inQ := false)],
       stats := st.(lirCount := st.lirCount + 1, hirCount := st.hirCount - 1, promotions := st.promotions + 1))
  }

  /** `lirs_promote_hir`: the LIR block at the bottom of S, if there is one, is demoted in exchange. */
  function Promote(c: Cache, k: Word): (r: Cache)
    requires Shape(c) && k in c.index && c.index[k].kind == Resident && c.index[k].inS
    ensures Shape(r)
  {
    EvictHir(TradePlaces(c, k))
  }

  /** The block turns LIR, the bottom LIR block becomes HIR, and S is pruned. */
  function TradePlaces(c: Cache, k: Word): (r: Cache)
    requires Shape(c) && k in c.index && c.index[k].kind == Resident && c.index[k].inS
    ensures Shape(r)
  {
    Prune(Exchange(TurnLir(c, k)))
  }

  function Exchange(c: Cache): (r: Cache)
    requires Shape(c) && c.s != []
    ensures Shape(r)
  {
    var bottom := Last(c.s);
    if c.index[bottom].kind == Lir then PopBottom(Demote(c, bottom)) else c
  }

  /** Puts a block on top of S, wherever it was. */
  function Raise(c: Cache, k: Word): (r: Cache)
    requires Shape(c) && k in c.index
    ensures Shape(r) && r.s == [k] + Remove(c.s, k) && r.q == c.q
    ensures r.index == c.index[k := c.index[k].(inS := true)]
  {
    RemoveDistinct(c.s, k);
    c.(s := [k] + Remove(c.s, k),
       sSize := if c.index[k].inS then c.sSize else c.sSize + 1,
       index := c.index[k := c.index[k].(inS := true)])
  }

  // ---------- What pruning and the promotion exchange leave alone ----------

  /** `r` differs from `c` only by blocks taken off the bottom of S, ghosts among them destroyed. */
  ghost predicate Trimmed(c: Cache, r: Cache) {
    && r.s <= c.s
    && (forall k :: k in r.index ==> k in c.index && r.index[k] == c.index[k].(inS := k in r.s))
    && (forall k :: k in c.index && k !in r.index ==> c.index[k].kind == Ghost && k !in r.s)
    && r == c.(s := r.s, sSize := |r.s|, index := r.index, released := r.released)
  }

  ghost predicate BottomIsLir(c: Cache) {
    c.s == [] || (Last(c.s) in c.index && c.index[Last(c.s)].kind == Lir)
  }

  lemma BottomIsTracked(c: Cache)
    requires Shape(c) && c.s != []
    ensures Last(c.s) in c.index && c.index[Last(c.s)].inS
  {
  }

  /** Pruning leaves S empty or with an LIR block at the bottom. */
  lemma {:induction false} PruneTrims(c: Cache)
    requires Shape(c)
    ensures Trimmed(c, Prune(c)) && BottomIsLir(Prune(c))
    decreases |c.s|
  {
    hide Shape, Trimmed;
    if c.s == [] {
      TrimmedReflexive(c);
    } else {
      BottomIsTracked(c);
      if c.index[Last(c.s)].kind == Lir {
        TrimmedReflexive(c);
      } else {
        PopTrims(c);
        PruneTrims(PopBottom(c));
        TrimmedTransitive(c, PopBottom(c), Prune(PopBottom(c)));
      }
    }
  }

  /** Pruning removes exactly the maximal suffix of S without LIR blocks. */
  lemma PruneIsMaximalSuffix(c: Cache)
    requires Shape(c)
    ensures Trimmed(c, Prune(c)) && BottomIsLir(Prune(c))
    ensures forall i :: |Prune(c).s| <= i < |c.s| ==> c.index[c.s[i]].kind != Lir
  {
    PruneTrims(c);
    forall i | |Prune(c).s| <= i < |c.s|
      ensures c.index[c.s[i]].kind != Lir
    {
      NotInPrefix(c.s, |Prune(c).s|, i);
      CutOffIsNotLir(c, Prune(c), c.s[i]);
    }
  }

  lemma NotInPrefix<T>(s: seq<T>, n: nat, i: nat)
    requires Distinct(s) && n <= i < |s|
    ensures s[i] !in s[..n]
  {
  }

  lemma CutOffIsNotLir(c: Cache, r: Cache, k: Word)
    requires Shape(r) && Trimmed(c, r) && k in c.index && k !in r.s
    ensures c.index[k].kind != Lir
  {
    if k in r.index {
      assert Filed(r.index[k]);
    }
  }

  lemma TrimmedReflexive(c: Cache)
    requires Shape(c)
    ensures Trimmed(c, c)
  {
  }

  lemma PopTrims(c: Cache)
    requires Shape(c) && c.s != [] && c.index[Last(c.s)].kind != Lir
    ensures Trimmed(c, PopBottom(c))
  {
  }

  lemma TrimmedTransitive(a: Cache, b: Cache, c: Cache)
    requires Trimmed(a, b) && Trimmed(b, c)
    ensures Trimmed(a, c)
  {
  }

  predicate SameBlock(e: Entry, f: Entry) {
    f.value == e.value && f.size == e.size && f.time == e.time && (f.kind == Ghost <==> e.kind == Ghost)
  }

  /** Everything about the blocks that a promotion must not change. */
  ghost predicate SameBlocks(c: Cache, r: Cache) {
    && (forall k :: k in r.index ==> k in c.index && SameBlock(c.index[k], r.index[k]))
    && (forall k :: k in c.index && k !in r.index ==> c.index[k].kind == Ghost)
  }

  /** A promotion loses no resident block and needs no more of Q than it gave back. */
  lemma TradeKeepsBlocks(c: Cache, k: Word)
    requires Shape(c) && k in c.index && c.index[k].kind == Resident && c.index[k].inS
    ensures var r := TradePlaces(c, k);
            && SameBlocks(c, r) && r.s <= c.s && |r.q| <= |c.q| && r.hirCapacity == c.hirCapacity
            && k in r.index && (r.index[k].kind == Lir || r.index[k].kind == Resident)
  {
    hide Shape, SameBlocks, Trimmed;
    var c1 := TurnLir(c, k);
    TurnLirKeepsBlocks(c, k);
    ExchangeKeepsBlocks(c1);
    var c2 := Exchange(c1);
    SameBlocksTransitive(c, c1, c2);
    PruneTrims(c2);
    TrimKeepsBlocks(c2, Prune(c2));
    SameBlocksTransitive(c, c2, Prune(c2));
    TraderStays(c, Prune(c2), k);
  }

  /** So a promotion evicts nothing when Q is within bounds. */
  lemma PromoteEvictsNothing(c: Cache, k: Word)
    requires Shape(c) && k in c.index && c.index[k].kind == Resident && c.index[k].inS
    requires |c.q| <= c.hirCapacity
    ensures Promote(c, k) == TradePlaces(c, k)
  {
    TradeKeepsBlocks(c, k);
  }

  lemma TurnLirKeepsBlocks(c: Cache, k: Word)
    requires Shape(c) && k in c.index && c.index[k].kind == Resident && c.index[k].inS
    ensures SameBlocks(c, TurnLir(c, k)) && TurnLir(c, k).hirCapacity == c.hirCapacity
  {
  }

  lemma TrimKeepsBlocks(c: Cache, r: Cache)
    requires Trimmed(c, r)
    ensures SameBlocks(c, r) && r.s <= c.s && r.q == c.q && r.hirCapacity == c.hirCapacity
  {
  }

  lemma TraderStays(c: Cache, r: Cache, k: Word)
    requires SameBlocks(c, r) && k in c.index && c.index[k].kind == Resident
    ensures k in r.index && (r.index[k].kind == Lir || r.index[k].kind == Resident)
  {
  }

  lemma ExchangeKeepsBlocks(c: Cache)
    requires Shape(c) && c.s != []
    ensures var r := Exchange(c);
            SameBlocks(c, r) && r.s <= c.s && |r.q| <= |c.q| + 1 && r.hirCapacity == c.hirCapacity
  {
  }

  lemma SameBlocksTransitive(a: Cache, b: Cache, c: Cache)
    requires SameBlocks(a, b) && SameBlocks(b, c)
    ensures SameBlocks(a, c)
  {
  }

  // ---------- Operations ----------

  /** A cache between operations, as far as the operations themselves rely on it. */
  ghost predicate Ready(c: Cache) {
    Shape(c) && |c.q| <= c.hirCapacity
  }

  function Touch(c: Cache, key: Word): (r: Cache)
    requires Shape(c) && key in c.index
    ensures Shape(r)
  {
    c.(clock := c.clock + 1, index := c.index[key := c.index[key].(time := c.clock + 1)])
  }

  function Hit(c: Cache): (r: Cache)
    requires Shape(c)
    ensures Shape(r)
  {
    c.(stats := c.stats.(hits := c.stats.hits + 1))
  }

  function Miss(c: Cache): (r: Cache)
    requires Shape(c)
    ensures Shape(r)
  {
    c.(stats := c.stats.(misses := c.stats.misses + 1))
  }

  /** `lirs_get`: the new state and the returned pointer. */
  function Get(c: Cache, key: Word): (r: (Cache, Word))
    requires Ready(c)
  {
    if key == NULL then (c, NULL)
    else if key !in c.index then (Miss(c), NULL)
    else
      var c1 := Touch(c, key);
      var e := c.index[key];
      match e.kind
      case Lir => (Prune(Raise(Hit(c1), key)), e.value)
      case Resident => (HitResident(Hit(c1), key), e.value)
      case Ghost => (Prune(DropFromS(Miss(c1), key)), NULL)
  }

  /** The resident HIR branch of `lirs_get`: a block still in S is promoted first. */
  function HitResident(c: Cache, key: Word): (r: Cache)
    requires Ready(c) && key in c.index && c.index[key].kind == Resident
    ensures Shape(r)
  {
    if c.index[key].inS then
      PromoteEvictsNothing(c, key);
      TradeKeepsBlocks(c, key);
      EvictHir(Raise(Promote(c, key), key))
    else
      EvictHir(Raise(c, key))
  }

  /** Unlinks a ghost from S and destroys it. */
  function DropFromS(c: Cache, key: Word): (r: Cache)
    requires Shape(c) && key in c.index && c.index[key].kind == Ghost
    ensures Shape(r)
  {
    RemoveDistinct(c.s, key);
    Destroy(c, key).(s := Remove(c.s, key), sSize := c.sSize - 1)
  }

  /** `lirs_put` on a tracked key, resident or ghost: only the value and its size are replaced. */
  function Overwrite(c: Cache, key: Word, value: Word, size: Word): (r: Cache)
    requires Shape(c) && key in c.index
    ensures Shape(r)
  {
    var e := c.index[key];
    if e.value == value then c
    else c.(released := c.released + Fire(c, key, e),
            index := c.index[key := e.(value := value, size := size)],
            stats := c.stats.(totalSize := Add64(Sub64(c.stats.totalSize, e.size), size)))
  }

  /** The number of blocks S may hold before new blocks enter as HIR; wraps when capacity is too small. */
  function LirLimit(c: Cache): Word {
    Sub64(c.capacity, c.hirCapacity)
  }

  /** A new block goes on top of S, as LIR while S is small, otherwise as HIR at the tail of Q. */
  function Admit(c: Cache, key: Word, value: Word, size: Word): (r: Cache)
    requires Shape(c) && key !in c.index
    ensures Shape(r)
  {
    var st := c.stats.(totalSize := Add64(c.stats.totalSize, size));
    var c1 := c.(clock := c.clock + 1, s := [key] + c.s, sSize := c.sSize + 1);
    if c.sSize < LirLimit(c) then
      c1.(index := c.index[key := Entry(value, size, Lir, c.clock + 1, true, false)],
          stats := st.(lirCount := st.lirCount + 1))
    else
      c1.(index := c.index[key := Entry(value, size, Resident, c.clock + 1, true, true)],
          q := c.q + [key], qSize := c.qSize + 1,
          stats := st.(hirCount := st.hirCount + 1))
  }

  predicate OverBudget(c: Cache, size: Word) {
    Add64(c.stats.totalSize, size) > c.maxSize
  }

  /** `lirs_put`; `gotBlock` says whether the block itself could be allocated. */
  function Put(c: Cache, key: Word, value: Word, size: Word, gotBlock: bool): (r: (Cache, int))
    requires Ready(c)
  {
    if key == NULL then (c, -1)
    else if key in c.index then (Overwrite(c, key, value, size), 0)
    else if OverBudget(c, size) then (Prune(c), -2)
    else if !gotBlock then (c, -3)
    else (EvictHir(Prune(Admit(c, key, value, size))), 0)
  }

  /** `lirs_remove` unlinks the block, whatever its kind, and takes its size off the total. */
  function Unlink(c: Cache, key: Word): (r: Cache)
    requires Shape(c) && key in c.index
    ensures Shape(r)
  {
    RemoveDistinct(c.s, key);
    RemoveDistinct(c.q, key);
    var e := c.index[key];
    var st := c.stats.(totalSize := Sub64(c.stats.totalSize, e.size));
    Destroy(c, key).(
      s := Remove(c.s, key), sSize := if e.inS then c.sSize - 1 else c.sSize,
      q := Remove(c.q, key), qSize := if e.inQ then c.qSize - 1 else c.qSize,
      stats := match e.kind
               case Lir => st.(lirCount := st.lirCount - 1)
               case Resident => st.(hirCount := st.hirCount - 1)
               case Ghost => st.(ghostCount := st.ghostCount - 1))
  }

  function Delete(c: Cache, key: Word): (r: (Cache, int))
    requires Ready(c)
  {
    if key == NULL then (c, -1)
    else if key !in c.index then (c, -2)
    else (Prune(Unlink(c, key)), 0)
  }

  /** The callbacks for a list of blocks, front to back. */
  function FireAll(c: Cache, ks: seq<Word>): seq<Release>
    requires forall k :: k in ks ==> k in c.index
  {
    if ks == [] then [] else Fire(c, ks[0], c.index[ks[0]]) + FireAll(c, ks[1..])
  }

  /** The blocks of Q that S does not hold. */
  function OnlyInQ(c: Cache, ks: seq<Word>): (r: seq<Word>)
    requires forall k :: k in ks ==> k in c.index
    ensures forall k :: k in r <==> k in ks && !c.index[k].inS
  {
    if ks == [] then []
    else (if c.index[ks[0]].inS then [] else [ks[0]]) + OnlyInQ(c, ks[1..])
  }

  /** `lirs_clear`: hits, misses, evictions, promotions and demotions survive. */
  function Clear(c: Cache): (r: Cache)
    requires Shape(c)
    ensures Shape(r)
  {
    c.(s := [], q := [], sSize := 0, qSize := 0, index := map[],
       released := c.released + FireAll(c, c.s) + FireAll(c, OnlyInQ(c, c.q)),
       stats := c.stats.(lirCount := 0, hirCount := 0, ghostCount := 0, totalSize := 0))
  }

  // ---------- Runs ----------

  datatype Op =
    | GetOp(key: Word)
    | PutOp(key: Word, value: Word, size: Word, gotBlock: bool)
    | DeleteOp(key: Word)
    | ClearOp

  function Step(c: Cache, op: Op): Cache
    requires Ready(c)
  {
    match op
    case GetOp(key) => Get(c, key).0
    case PutOp(key, value, size, gotBlock) => Put(c, key, value, size, gotBlock).0
    case DeleteOp(key) => Delete(c, key).0
    case ClearOp => Clear(c)
  }
}
