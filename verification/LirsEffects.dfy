/**
 What each operation of the cache does to S, Q, the tracked blocks and the counters, in closed form: nothing here
 mentions the steps that an operation is made of.
 */
module LirsEffects {
  import opened Words
  import opened Seqs
  import opened LirsModel
  import opened LirsInvariant

  // ---------- Vocabulary ----------

  /** `t` is `s` without its maximal suffix of blocks that are not LIR in `m`. */
  ghost predicate CutToLir(s: seq<Word>, t: seq<Word>, m: map<Word, Entry>) {
    && t <= s
    && (t != [] ==> IsLir(m, Last(t)))
    && (forall i :: |t| <= i < |s| ==> !IsLir(m, s[i]))
  }

  predicate IsLir(m: map<Word, Entry>, k: Word) {
    k in m && m[k].kind == Lir
  }

  /** The block holds the same data, with this kind and access time. */
  predicate Still(e: Entry, f: Entry, kind: Kind, time: nat) {
    f.value == e.value && f.size == e.size && f.kind == kind && f.time == time
  }

  /** Only the blocks that S or Q lists are tracked, and those that were tracked stay as they were. */
  ghost predicate Unchanged(m: map<Word, Entry>, r: map<Word, Entry>) {
    forall k :: k in r ==> k in m && Still(m[k], r[k], m[k].kind, m[k].time)
  }

  /** A hit that promotes: on a HIR block that S remembers. */
  predicate Promotes(c: Cache, key: Word) {
    key in c.index && c.index[key].kind == Resident && c.index[key].inS && c.s != []
  }

  /** The promoted block changes places with S's bottom when that is LIR, or when it is the bottom itself. */
  predicate Trades(c: Cache, key: Word) {
    Promotes(c, key) && (Last(c.s) == key || IsLir(c.index, Last(c.s)))
  }

  function KindAfterHit(c: Cache, key: Word, k: Word): Kind
    requires k in c.index
  {
    if !Promotes(c, key) then c.index[k].kind
    else if Trades(c, key) && k == Last(c.s) then Resident
    else if k == key then Lir
    else c.index[k].kind
  }

  // ---------- Pruning ----------

  lemma PruneCuts(c: Cache)
    requires Shape(c)
    ensures CutToLir(c.s, Prune(c).s, Prune(c).index) && Unchanged(c.index, Prune(c).index)
    ensures var r := Prune(c); r == c.(s := r.s, sSize := |r.s|, index := r.index, released := r.released)
    ensures forall k :: k in Prune(c).index <==> k in c.index && (k in Prune(c).s || k in c.q)
  {
    PruneIsMaximalSuffix(c);
    var r := Prune(c);
    assert Shape(r) && r.q == c.q;
    forall k | k in c.index && (k in r.s || k in c.q) ensures k in r.index {
    }
    forall k | k in r.index ensures k in r.s || k in c.q {
      assert Filed(r.index[k]);
    }
    if r.s != [] {
      assert r.s[|r.s| - 1] in r.s;
    }
  }

  // ---------- A hit ----------

  lemma BottomTracked(c: Cache)
    requires Shape(c) && c.s != []
    ensures Last(c.s) in c.index && Last(c.s) !in c.s[..|c.s| - 1]
    ensures c.index[Last(c.s)].kind == Lir ==> Last(c.s) !in c.q
  {
    assert c.s[|c.s| - 1] in c.s;
  }

  lemma TurnLirIs(c: Cache, k: Word)
    requires Shape(c) && Promotes(c, k)
    ensures var st := c.stats; var e := c.index[k];
            TurnLir(c, k) == c.(q := Remove(c.q, k), qSize := c.qSize - 1,
                                index := c.index[k := e.(kind := Lir, inQ := false)],
                                stats := st.(lirCount := st.lirCount + 1, hirCount := st.hirCount - 1,
                                             promotions := st.promotions + 1))
  {
  }

  lemma ExchangeIs(c: Cache)
    requires Shape(c) && c.s != []
    ensures var bottom := Last(c.s); var r := Exchange(c); var st := c.stats;
            bottom in c.index &&
            if c.index[bottom].kind != Lir then r == c
            else
              r == c.(s := c.s[..|c.s| - 1], sSize := c.sSize - 1, q := c.q + [bottom], qSize := c.qSize + 1,
                      index := c.index[bottom := c.index[bottom].(kind := Resident, inQ := true, inS := false)],
                      stats := st.(lirCount := st.lirCount - 1, hirCount := st.hirCount + 1,
                                   demotions := st.demotions + 1))
  {
    BottomTracked(c);
    var bottom := Last(c.s);
    if c.index[bottom].kind == Lir {
      var e := c.index[bottom].(kind := Resident, inQ := true);
      assert c.index[bottom := e][bottom := e.(inS := false)] == c.index[bottom := e.(inS := false)];
    }
  }

  /** Promotion and exchange together, before S is pruned. */
  lemma SwapIs(c: Cache, k: Word)
    requires Shape(c) && Promotes(c, k)
    ensures var r := Exchange(TurnLir(c, k)); var st := c.stats;
            var traded := if Trades(c, k) then 1 else 0;
            && r.s == c.s[..|c.s| - traded] && r.clock == c.clock
            && r.q == Remove(c.q, k) + (if Trades(c, k) then [Last(c.s)] else [])
            && r.stats == st.(promotions := st.promotions + 1, demotions := st.demotions + traded,
                              lirCount := st.lirCount + 1 - traded, hirCount := st.hirCount - 1 + traded)
            && r.index.Keys == c.index.Keys
            && (forall x :: x in c.index ==>
                  Still(c.index[x], r.index[x], KindAfterHit(c, k, x), c.index[x].time))
  {
    hide Shape, Exchange, TurnLir, Remove;
    TurnLirIs(c, k);
    ExchangeIs(TurnLir(c, k));
    BottomTracked(c);
    assert Remove(c.q, k) + [] == Remove(c.q, k);
    assert c.s[..|c.s| - 0] == c.s;
  }

  lemma CutFurther(s: seq<Word>, n: nat, t: seq<Word>, m: map<Word, Entry>)
    requires n <= |s| && CutToLir(s[..n], t, m) && forall i :: n <= i < |s| ==> !IsLir(m, s[i])
    ensures CutToLir(s, t, m)
  {
    forall i | |t| <= i < |s| ensures !IsLir(m, s[i]) {
      if i < n {
        assert s[..n][i] == s[i];
      }
    }
  }

  lemma TradeEffect(c: Cache, k: Word)
    requires Shape(c) && Promotes(c, k)
    ensures var r := TradePlaces(c, k); var st := c.stats;
            var traded := if Trades(c, k) then 1 else 0;
            && CutToLir(c.s, r.s, r.index) && r.clock == c.clock
            && r.q == Remove(c.q, k) + (if Trades(c, k) then [Last(c.s)] else [])
            && r.stats == st.(promotions := st.promotions + 1, demotions := st.demotions + traded,
                              lirCount := st.lirCount + 1 - traded, hirCount := st.hirCount - 1 + traded)
            && (forall x :: x in r.index ==>
                  x in c.index && Still(c.index[x], r.index[x], KindAfterHit(c, k, x), c.index[x].time))
  {
    hide Shape, Exchange, TurnLir, Remove, Prune, CutToLir;
    SwapIs(c, k);
    var c2 := Exchange(TurnLir(c, k));
    PruneCuts(c2);
    var r := Prune(c2);
    BottomTracked(c);
    CutFurther(c.s, |c2.s|, r.s, r.index);
  }

  lemma PromotesIs(c: Cache, key: Word)
    requires Shape(c) && key in c.index && c.index[key].kind == Resident
    ensures Promotes(c, key) <==> c.index[key].inS
    ensures !c.index[key].inS ==> Remove(c.s, key) == c.s
  {
  }

  /** The kinds of the blocks after a hit: the promotion and the demotion in exchange, and nothing else. */
  ghost predicate KindsAfterGet(c: Cache, key: Word, m: map<Word, Entry>)
    requires key in c.index
  {
    forall k :: k in m ==>
      k in c.index &&
      Still(c.index[k], m[k], KindAfterHit(c, key, k), if k == key then c.clock + 1 else c.index[k].time)
  }

  function StatsAfterGet(c: Cache, key: Word): Stats
    requires key in c.index
  {
    var st := c.stats;
    var promoted, traded := if Promotes(c, key) then 1 else 0, if Trades(c, key) then 1 else 0;
    if c.index[key].kind == Ghost then st.(misses := st.misses + 1)
    else st.(hits := st.hits + 1, promotions := st.promotions + promoted, demotions := st.demotions + traded,
             lirCount := st.lirCount + promoted - traded, hirCount := st.hirCount - promoted + traded)
  }

  function QueueAfterGet(c: Cache, key: Word): seq<Word>
    requires key in c.index
  {
    if Trades(c, key) then Remove(c.q, key) + [Last(c.s)]
    else if Promotes(c, key) then Remove(c.q, key)
    else c.q
  }

  /** The bottom of S gives way, its partner changes places, and the block comes on top. */
  ghost predicate StackAfterGet(c: Cache, key: Word, s: seq<Word>, m: map<Word, Entry>)
    requires key in c.index
  {
    match c.index[key].kind
    case Lir => CutToLir([key] + Remove(c.s, key), s, m)
    case Ghost => CutToLir(Remove(c.s, key), s, m)
    case Resident =>
      if Promotes(c, key) then exists t: seq<Word> :: CutToLir(c.s, t, m) && s == [key] + Remove(t, key)
      else s == [key] + c.s
  }

  lemma RaiseIs(c: Cache, k: Word)
    requires Shape(c) && k in c.index
    ensures var r := Raise(c, k);
            && r.s == [k] + Remove(c.s, k) && r.q == c.q && r.stats == c.stats && r.clock == c.clock
            && r.index.Keys == c.index.Keys
            && forall x :: x in c.index ==> Still(c.index[x], r.index[x], c.index[x].kind, c.index[x].time)
  {
  }

  lemma TouchIs(c: Cache, k: Word)
    requires Shape(c) && k in c.index
    ensures var r := Touch(c, k);
            && r.s == c.s && r.q == c.q && r.stats == c.stats && r.clock == c.clock + 1
            && r.hirCapacity == c.hirCapacity && r.index.Keys == c.index.Keys && r.index[k].inS == c.index[k].inS
            && forall x :: x in c.index ==>
                 Still(c.index[x], r.index[x], c.index[x].kind, if x == k then c.clock + 1 else c.index[x].time)
  {
  }

  lemma SameCut(s: seq<Word>, t: seq<Word>, m: map<Word, Entry>, r: map<Word, Entry>)
    requires CutToLir(s, t, m) && m.Keys == r.Keys && forall x :: x in m ==> m[x].kind == r[x].kind
    ensures CutToLir(s, t, r)
  {
    assert forall k :: IsLir(m, k) <==> IsLir(r, k);
  }

  lemma HitResidentEffect(c: Cache, key: Word)
    requires Ready(c) && key in c.index && c.index[key].kind == Resident
    ensures var r := HitResident(c, key);
            && StackAfterGet(c, key, r.s, r.index) && r.q == QueueAfterGet(c, key) && r.clock == c.clock
            && r.stats == StatsAfterGet(c, key).(hits := c.stats.hits)
            && (forall k :: k in r.index ==>
                  k in c.index && Still(c.index[k], r.index[k], KindAfterHit(c, key, k), c.index[k].time))
  {
    hide Shape, TradePlaces, Raise, HitResident, Remove, CutToLir;
    PromotesIs(c, key);
    if c.index[key].inS {
      HitInStack(c, key);
      TradeEffect(c, key);
      var t := TradePlaces(c, key);
      RaiseIs(t, key);
      SameCut(c.s, t.s, t.index, Raise(t, key).index);
    } else {
      HitOutsideStack(c, key);
      RaiseIs(c, key);
    }
  }

  lemma PruneEffect(c: Cache)
    requires Shape(c)
    ensures var r := Prune(c);
            && CutToLir(c.s, r.s, r.index) && Unchanged(c.index, r.index)
            && r.q == c.q && r.stats == c.stats && r.clock == c.clock
  {
    hide Shape, CutToLir, Prune;
    PruneCuts(c);
  }

  /** `lirs_get` of a tracked key. */
  lemma GetEffect(c: Cache, key: Word)
    requires Ready(c) && key != NULL && key in c.index
    ensures var r := Get(c, key).0;
            && StackAfterGet(c, key, r.s, r.index) && r.q == QueueAfterGet(c, key)
            && KindsAfterGet(c, key, r.index)
            && r.stats == StatsAfterGet(c, key) && r.clock == c.clock + 1
  {
    hide Shape, Raise, Prune, HitResident, DropFromS, Remove, CutToLir, Touch;
    TouchIs(c, key);
    var c1 := Touch(c, key);
    match c.index[key].kind
    case Lir =>
      RaiseIs(Hit(c1), key);
      PruneEffect(Raise(Hit(c1), key));
    case Resident => HitResidentEffect(Hit(c1), key);
    case Ghost =>
      DropIs(Miss(c1), key);
      PruneEffect(DropFromS(Miss(c1), key));
  }

  lemma DropIs(c: Cache, key: Word)
    requires Shape(c) && key in c.index && c.index[key].kind == Ghost
    ensures var r := DropFromS(c, key);
            && r.s == Remove(c.s, key) && r.q == c.q && r.stats == c.stats && r.clock == c.clock
            && r.index == c.index - {key}
  {
  }

  // ---------- A put ----------

  /** What a put of an untracked key answers, from the sizes and the budget alone. */
  lemma PutCodes(c: Cache, key: Word, value: Word, size: Word, gotBlock: bool)
    requires Ready(c)
    ensures var code := Put(c, key, value, size, gotBlock).1;
            var fits := (c.stats.totalSize + size) % 0x1_0000_0000_0000_0000 <= c.maxSize;
            && (code == -1 <==> key == NULL)
            && (code == -2 <==> key != NULL && key !in c.index && !fits)
            && (code == -3 <==> key != NULL && key !in c.index && fits && !gotBlock)
            && (code == 0 <==> key != NULL && (key in c.index || (fits && gotBlock)))
  {
  }

  /** A new block enters as LIR while S is below its limit, a difference in 64 bits. */
  predicate EntersLir(c: Cache) {
    |c.s| < (c.capacity - c.hirCapacity) % 0x1_0000_0000_0000_0000
  }

  /** The new block pushes the head of Q out. */
  predicate PushesOut(c: Cache) {
    !EntersLir(c) && |c.q| == c.hirCapacity && c.q != []
  }

  function QueueAfterPut(c: Cache, key: Word): seq<Word> {
    if EntersLir(c) then c.q
    else if PushesOut(c) then c.q[1..] + [key]
    else c.q + [key]
  }

  function StatsAfterPut(c: Cache, size: Word): Stats
    requires PushesOut(c) ==> c.q[0] in c.index
  {
    var st := c.stats;
    var out := if PushesOut(c) then 1 else 0;
    var outSize := if PushesOut(c) then c.index[c.q[0]].size else 0;
    st.(lirCount := st.lirCount + (if EntersLir(c) then 1 else 0),
        hirCount := st.hirCount + (if EntersLir(c) then 0 else 1) - out,
        ghostCount := st.ghostCount + out, evictions := st.evictions + out,
        totalSize := (st.totalSize + size - outSize) % 0x1_0000_0000_0000_0000)
  }

  /** The new block, the evicted one turned ghost, and the others as they were. */
  ghost predicate BlocksAfterPut(c: Cache, key: Word, value: Word, size: Word, m: map<Word, Entry>) {
    forall k :: k in m ==>
      if k == key then
        m[k].value == value && m[k].size == size && m[k].time == c.clock + 1
        && m[k].kind == if EntersLir(c) then Lir else Resident
      else
        k in c.index
        && Still(c.index[k], m[k], if PushesOut(c) && k == c.q[0] then Ghost else c.index[k].kind, c.index[k].time)
  }

  lemma AdmitIs(c: Cache, key: Word, value: Word, size: Word)
    requires Shape(c) && key !in c.index
    ensures var r := Admit(c, key, value, size); var st := c.stats;
            && r.s == [key] + c.s && r.q == (if EntersLir(c) then c.q else c.q + [key])
            && r.clock == c.clock + 1 && r.hirCapacity == c.hirCapacity && key in r.index
            && r.stats == st.(lirCount := st.lirCount + (if EntersLir(c) then 1 else 0),
                              hirCount := st.hirCount + (if EntersLir(c) then 0 else 1),
                              totalSize := Add64(st.totalSize, size))
            && r.index == c.index[key := r.index[key]]
            && r.index[key].value == value && r.index[key].size == size && r.index[key].time == c.clock + 1
            && r.index[key].kind == if EntersLir(c) then Lir else Resident
  {
  }

  lemma EvictHeadIs(c: Cache)
    requires Shape(c) && c.q != []
    ensures var k := c.q[0]; var r := EvictHead(c); var st := c.stats;
            && k in c.index && c.index[k].kind == Resident
            && r.s == c.s && r.q == c.q[1..] && r.clock == c.clock
            && r.stats == st.(hirCount := st.hirCount - 1, ghostCount := st.ghostCount + 1,
                              evictions := st.evictions + 1, totalSize := Sub64(st.totalSize, c.index[k].size))
            && (r.index == c.index[k := c.index[k].(inQ := false, kind := Ghost)]
                || r.index == c.index[k := c.index[k].(inQ := false, kind := Ghost)] - {k})
  {
    assert c.q[0] in c.q;
  }

  lemma EvictEffect(c: Cache)
    requires Shape(c) && |c.q| <= c.hirCapacity + 1
    ensures |c.q| <= c.hirCapacity ==> EvictHir(c) == c
    ensures |c.q| > c.hirCapacity ==> EvictHir(c) == EvictHead(c)
  {
    if |c.q| > c.hirCapacity {
      assert EvictHir(c) == EvictHir(EvictHead(c));
    }
  }

  lemma HeadIsResident(c: Cache)
    requires Shape(c) && c.q != []
    ensures c.q[0] in c.index && c.index[c.q[0]].kind == Resident
  {
    assert c.q[0] in c.q;
  }

  /** `lirs_put` of a new key, accepted. */
  lemma PutEffect(c: Cache, key: Word, value: Word, size: Word, gotBlock: bool)
    requires Ready(c) && c.hirCapacity >= 1 && key != NULL && key !in c.index
    requires Put(c, key, value, size, gotBlock).1 == 0
    ensures PushesOut(c) ==> c.q[0] in c.index
    ensures var r := Put(c, key, value, size, gotBlock).0;
            && CutToLir([key] + c.s, r.s, r.index) && r.q == QueueAfterPut(c, key)
            && BlocksAfterPut(c, key, value, size, r.index)
            && r.stats == StatsAfterPut(c, size) && r.clock == c.clock + 1
  {
    hide Shape, Admit, Prune, EvictHir, EvictHead, CutToLir;
    var c1 := Admit(c, key, value, size);
    AdmitIs(c, key, value, size);
    PruneEffect(c1);
    var p := Prune(c1);
    assert p.hirCapacity == c.hirCapacity by {
      PruneCuts(c1);
    }
    EvictEffect(p);
    if PushesOut(c) {
      HeadIsResident(c);
      EvictHeadIs(p);
      var r := EvictHead(p);
      CutIgnoresResident([key] + c.s, p.s, p.index, r.index, c.q[0]);
      var out: int := c.index[c.q[0]].size;
      WrapAdd(c.stats.totalSize + size, -out);
      assert (c.q + [key])[1..] == c.q[1..] + [key];
    }
  }

  lemma CutIgnoresResident(s: seq<Word>, t: seq<Word>, m: map<Word, Entry>, r: map<Word, Entry>, k: Word)
    requires CutToLir(s, t, m) && k in m && m[k].kind != Lir
    requires r.Keys == m.Keys || r.Keys == m.Keys - {k}
    requires forall x :: x in r && x != k ==> r[x] == m[x]
    requires k in r ==> r[k].kind != Lir
    ensures CutToLir(s, t, r)
  {
    assert forall x :: IsLir(m, x) <==> IsLir(r, x);
  }

  // ---------- The other puts, removal and clearing ----------

  /** `lirs_put` of a tracked key replaces the value, and with a different value the size; nothing else moves. */
  lemma OverwriteEffect(c: Cache, key: Word, value: Word, size: Word, gotBlock: bool)
    requires Ready(c) && key != NULL && key in c.index
    ensures var r := Put(c, key, value, size, gotBlock).0; var e := c.index[key];
            && r.s == c.s && r.q == c.q && r.clock == c.clock
            && r.index == c.index[key := e.(value := value, size := if e.value == value then e.size else size)]
            && r.stats == c.stats.(totalSize := r.stats.totalSize)
            && r.stats.totalSize ==
               (if e.value == value then c.stats.totalSize
                else (c.stats.totalSize - e.size + size) % 0x1_0000_0000_0000_0000)
  {
    var e := c.index[key];
    WrapAdd(c.stats.totalSize - e.size, size);
    assert c.index[key := e] == c.index;
  }

  /** A put over the budget prunes S; one without a block, or of NULL, does nothing. */
  lemma RefusedPutEffect(c: Cache, key: Word, value: Word, size: Word, gotBlock: bool)
    requires Ready(c) && Put(c, key, value, size, gotBlock).1 != 0
    ensures var (r, code) := Put(c, key, value, size, gotBlock);
            && r.q == c.q && r.stats == c.stats && r.clock == c.clock && Unchanged(c.index, r.index)
            && (if code == -2 then CutToLir(c.s, r.s, r.index) else r == c)
  {
    hide Shape, CutToLir, Prune, Overwrite, Admit, EvictHir;
    PruneEffect(c);
    NothingChanged(c);
  }

  lemma NothingChanged(c: Cache)
    ensures Unchanged(c.index, c.index)
  {
  }

  lemma UnlinkIs(c: Cache, key: Word)
    requires Shape(c) && key in c.index
    ensures var r := Unlink(c, key);
            && r.s == Remove(c.s, key) && r.q == Remove(c.q, key) && r.index == c.index - {key} && r.clock == c.clock
            && r.stats == StatsAfterDelete(c, key)
  {
  }

  function StatsAfterDelete(c: Cache, key: Word): Stats
    requires key in c.index
  {
    var st := c.stats;
    var e := c.index[key];
    st.(lirCount := st.lirCount - (if e.kind == Lir then 1 else 0),
        hirCount := st.hirCount - (if e.kind == Resident then 1 else 0),
        ghostCount := st.ghostCount - (if e.kind == Ghost then 1 else 0),
        totalSize := (st.totalSize - e.size) % 0x1_0000_0000_0000_0000)
  }

  /** `lirs_remove` of a tracked key. */
  lemma DeleteEffect(c: Cache, key: Word)
    requires Ready(c) && key != NULL && key in c.index
    ensures var r := Delete(c, key).0;
            && CutToLir(Remove(c.s, key), r.s, r.index) && r.q == Remove(c.q, key)
            && key !in r.index && Unchanged(c.index, r.index)
            && r.stats == StatsAfterDelete(c, key) && r.clock == c.clock
  {
    hide Shape, Unlink, Prune, CutToLir, Remove;
    UnlinkIs(c, key);
    PruneEffect(Unlink(c, key));
  }
}
