/** The runs, bitmaps and lists of src/memory/chunk.c as they are updated in place. */
module ChunkRuns {
  import opened Words
  import opened Seqs
  import opened Bitmap
  import opened ChunkModel

  /** The first `n` bits of a bitmap. */
  function UsedOf(words: seq<Word>, n: nat): (used: seq<bool>)
    ensures |used| == n
  {
    seq(n, i requires 0 <= i < n => At(words, i))
  }

  lemma {:induction false} OnesOfBits(words: seq<Word>, n: nat)
    ensures Ones(UsedOf(words, n)) == CountSet(words, n)
    decreases n
  {
    if n > 0 {
      OnesOfBits(words, n - 1);
      assert UsedOf(words, n)[..n - 1] == UsedOf(words, n - 1);
    }
  }

  lemma BlankBits(words: seq<Word>, n: nat)
    requires forall i :: 0 <= i < |words| ==> words[i] == 0
    ensures UsedOf(words, n) == seq(n, _ => false)
  {
    forall i | 0 <= i < n ensures !At(words, i) {
      ZeroBit(i % WORD_SIZE);
    }
  }

  lemma OnlyOneFirst(used: seq<bool>, b: nat)
    requires b <= |used| && (b < |used| ==> !used[b]) && forall i :: 0 <= i < b ==> used[i]
    ensures FirstClear(used) == b
  {
    var f := FirstClear(used);
    assert f < |used| ==> !used[f];
  }

  lemma NothingSet(words: seq<Word>)
    requires forall i :: 0 <= i < |words| ==> words[i] == 0
    ensures forall i: nat :: !At(words, i)
  {
    forall i: nat ensures !At(words, i) {
      ZeroBit(i % WORD_SIZE);
    }
  }

  function Marked(r: Run, b: nat, v: bool): Run
    requires b < |r.used|
  {
    r.(used := r.used[b := v])
  }

  /** `struct chunk_run` */
  class ChunkRun {
    const sizeClass: nat
    const size: Word
    const numBlocks: nat
    const bitmap: array<Word>
    var freeBlocks: nat

    function Value(): Run
      reads bitmap
    {
      Run(size, UsedOf(bitmap[..], numBlocks))
    }

    /** `free_blocks_count` is the number of clear bits, and no bit past the last block is set. */
    ghost predicate Valid()
      reads this, bitmap
    {
      && size > 0 && numBlocks == RUN_SIZE / size && bitmap.Length == WordsFor(numBlocks)
      && freeBlocks + Ones(Value().used) == numBlocks
      && (forall i: nat :: i >= numBlocks ==> !At(bitmap[..], i))
    }

    constructor (sizeClass: nat, size: Word)
      requires size > 0
      ensures Valid() && fresh(bitmap) && Value() == NewRun(size) && this.sizeClass == sizeClass
    {
      this.sizeClass, this.size := sizeClass, size;
      numBlocks, freeBlocks := RUN_SIZE / size, RUN_SIZE / size;
      bitmap := new Word[WordsFor(RUN_SIZE / size)](_ => 0);
      new;
      BlankBits(bitmap[..], numBlocks);
      NothingSet(bitmap[..]);
      OnesExtremes(Value().used);
    }

    /** So `bitmap_count_set` of a run's bitmap and its `free_blocks_count` add up to the number of blocks. */
    lemma CountsAgree()
      requires Valid()
      ensures CountSet(bitmap[..], WORD_SIZE * WordsFor(numBlocks)) == CountSet(bitmap[..], numBlocks)
      ensures CountSet(bitmap[..], numBlocks) + freeBlocks == numBlocks
    {
      OnesOfBits(bitmap[..], numBlocks);
      CountBeyond(bitmap[..], numBlocks, WORD_SIZE * WordsFor(numBlocks));
    }

    method FindClear() returns (b: nat)
      requires Valid()
      ensures b == FirstClear(Value().used)
    {
      b := FindFirstClear(bitmap, numBlocks);
      OnlyOneFirst(Value().used, b);
    }

    /** `bitmap_set` or `bitmap_clear_bit` of a block that is not so yet, and the count that goes with it. */
    method Change(b: nat, v: bool)
      requires Valid() && b < numBlocks && Value().used[b] != v
      modifies this`freeBlocks, bitmap
      ensures Valid() && Value() == Marked(old(Value()), b, v)
    {
      BitInArray(b, numBlocks);
      OnesUpdate(Value().used, b, v);
      if v {
        Set(bitmap, b);
        freeBlocks := freeBlocks - 1;
      } else {
        ClearBit(bitmap, b);
        freeBlocks := freeBlocks + 1;
      }
      assert Value().used == old(Value().used)[b := v];
    }
  }

  lemma BitInArray(b: nat, n: nat)
    requires b < n
    ensures b / WORD_SIZE < WordsFor(n)
  {
  }

  /** The runs of a list, as values. */
  ghost predicate Mirrors(l: seq<ChunkRun>, values: seq<Run>)
    reads set r | r in l :: r.bitmap
  {
    |l| == |values| && forall i :: 0 <= i < |l| ==> l[i].Value() == values[i]
  }

  /** The runs of one class: no run twice, all of that class, and as the model has them. */
  ghost predicate InClass(free: seq<ChunkRun>, full: seq<ChunkRun>, c: nat, known: set<ChunkRun>) {
    && Distinct(free) && Distinct(full) && (forall r :: r in free ==> r !in full)
    && (forall i :: 0 <= i < |free| ==> free[i] in known && free[i].sizeClass == c)
    && (forall i :: 0 <= i < |full| ==> full[i] in known && full[i].sizeClass == c)
  }

  /** Replaces the run at a position of the two lists of a class. */
  function PutRun(s: Chunk, c: nat, idx: nat, r: Run): Chunk
    requires Shaped(s) && c < |s.sizes| && idx < |Listed(s, c)|
  {
    var n := |s.free[c]|;
    if idx < n then s.(free := s.free[c := s.free[c][idx := r]])
    else s.(full := s.full[c := s.full[c][idx - n := r]])
  }

  class ChunkHeap {
    const base: nat
    const offset: nat
    const sizes: seq<Word>
    var runsFree: seq<seq<ChunkRun>>
    var runsFull: seq<seq<ChunkRun>>
    var numRuns: nat
    var allocatedBytes: nat
    var freedBytes: nat
    /** Every run ever opened, all their bitmaps, and the value of the whole. */
    ghost var known: set<ChunkRun>
    ghost var bitmaps: set<array<Word>>
    ghost var model: Chunk

    ghost predicate ClassLinked(c: nat)
      requires c < |runsFree| == |runsFull| == |model.free| == |model.full|
      reads this, known, bitmaps
    {
      && InClass(runsFree[c], runsFull[c], c, known)
      && (forall r :: r in known ==> r.bitmap in bitmaps)
      && Mirrors(runsFree[c], model.free[c])
      && Mirrors(runsFull[c], model.full[c])
    }

    /** The counters are the model's and every run is healthy and has a bitmap of its own. */
    ghost predicate Rooted()
      reads this, known, bitmaps
    {
      && Shaped(model) && |runsFree| == |runsFull| == |sizes|
      && model == ChunkModel.Chunk(base, offset, sizes, model.free, model.full, numRuns, allocatedBytes, freedBytes)
      && (forall r :: r in known ==> r.bitmap in bitmaps && r.Valid())
      && (forall r, q :: r in known && q in known && r.bitmap == q.bitmap ==> r == q)
    }

    ghost predicate Linked()
      reads this, known, bitmaps
    {
      Rooted() && forall c :: 0 <= c < |sizes| ==> ClassLinked(c)
    }

    constructor (base: nat, offset: nat, sizes: seq<Word>)
      ensures Linked() && Sound(model) && model == Blank(base, offset, sizes)
      ensures known == {} && bitmaps == {}
    {
      this.base, this.offset, this.sizes := base, offset, sizes;
      runsFree, runsFull := seq(|sizes|, _ => []), seq(|sizes|, _ => []);
      numRuns, allocatedBytes, freedBytes := 0, offset, 0;
      known, bitmaps := {}, {};
      model := Blank(base, offset, sizes);
      new;
      BlankIsSound(base, offset, sizes);
    }

    method OpenRun(c: nat)
      requires Linked() && c < |sizes| && sizes[c] != 0
      modifies this`runsFree, this`runsFull, this`numRuns, this`known, this`bitmaps, this`model
      ensures Linked() && model == ChunkModel.OpenRun(old(model), c)
      ensures fresh(known - old(known)) && fresh(bitmaps - old(bitmaps))
    {
      hide InClass;
      assert ClassLinked(c);
      var run := new ChunkRun(c, sizes[c]);
      AddToClass(runsFree[c], runsFull[c], c, known, run);
      Register(run);
      assert ClassLinked(c);
      assert model.full[c := model.full[c]] == model.full;
      Relink(c, runsFree[c] + [run], runsFull[c], numRuns + 1, ChunkModel.OpenRun(model, c));
    }

    /** Makes a new run known; it is on no list yet. */
    ghost method Register(run: ChunkRun)
      requires Linked() && run !in known && run.bitmap !in bitmaps && run.Valid()
      modifies this`known, this`bitmaps
      ensures Linked() && known == old(known) + {run} && bitmaps == old(bitmaps) + {run.bitmap}
    {
      hide InClass, Mirrors;
      known, bitmaps := known + {run}, bitmaps + {run.bitmap};
      assert Rooted();
      forall d | 0 <= d < |sizes| ensures ClassLinked(d) {
        assert old(ClassLinked(d));
        KnownGrows(runsFree[d], runsFull[d], d, old(known), run);
      }
    }

    /** No list of another class, and no other place of its own list, shows a run's bitmap. */
    lemma OwnBitmap(c: nat, run: ChunkRun)
      requires Linked() && c < |sizes| && run in known && run.sizeClass == c
      ensures forall d, x :: 0 <= d < |sizes| && d != c && x in runsFree[d] ==> x.bitmap != run.bitmap
      ensures forall d, x :: 0 <= d < |sizes| && d != c && x in runsFull[d] ==> x.bitmap != run.bitmap
      ensures forall x :: x in runsFree[c] && x != run ==> x.bitmap != run.bitmap
      ensures forall x :: x in runsFull[c] && x != run ==> x.bitmap != run.bitmap
    {
      forall d | 0 <= d < |sizes|
        ensures forall x :: x in runsFree[d] ==> x in known && x.sizeClass == d
        ensures forall x :: x in runsFull[d] ==> x in known && x.sizeClass == d
      {
        assert ClassLinked(d);
      }
    }

    /** The open run's place on the list: the walk stops at the run it started from, which is the first. */
    method PositionOf(c: nat, run: ChunkRun) returns (idx: nat)
      requires c < |runsFree| && run in runsFree[c]
      ensures idx < |runsFree[c]| && runsFree[c][idx] == run && run !in runsFree[c][..idx]
    {
      idx := 0;
      while runsFree[c][idx] != run
        invariant 0 <= idx < |runsFree[c]| && run !in runsFree[c][..idx]
        decreases |runsFree[c]| - idx
      {
        idx := idx + 1;
        assert runsFree[c][..idx] == runsFree[c][..idx - 1] + [runsFree[c][idx - 1]];
      }
    }

    /** The run at a position of the two lists of a class. */
    function RunAt(c: nat, idx: nat): ChunkRun
      requires c < |runsFree| == |runsFull| && idx < |runsFree[c]| + |runsFull[c]|
      reads this
    {
      if idx < |runsFree[c]| then runsFree[c][idx] else runsFull[c][idx - |runsFree[c]|]
    }

    lemma AtIsListed(c: nat, idx: nat)
      requires Linked() && c < |sizes| && idx < |runsFree[c]| + |runsFull[c]|
      ensures idx < |Listed(model, c)| && RunAt(c, idx) in known && RunAt(c, idx).sizeClass == c
      ensures RunAt(c, idx).Value() == Listed(model, c)[idx]
    {
      assert ClassLinked(c);
    }

    lemma AtIsAlone(c: nat, idx: nat)
      requires c < |runsFree| == |runsFull| && InClass(runsFree[c], runsFull[c], c, known)
      requires idx < |runsFree[c]| + |runsFull[c]|
      ensures forall i :: 0 <= i < |runsFree[c]| && i != idx ==> runsFree[c][i] != RunAt(c, idx)
      ensures forall i :: 0 <= i < |runsFull[c]| && i != idx - |runsFree[c]| ==> runsFull[c][i] != RunAt(c, idx)
    {
      var free, full := runsFree[c], runsFull[c];
      forall i | 0 <= i < |free| && i != idx ensures free[i] != RunAt(c, idx) {
        assert free[i] in free;
      }
      forall i | 0 <= i < |full| && i != idx - |free| ensures full[i] != RunAt(c, idx) {
        assert full[i] in full;
        assert idx < |free| ==> free[idx] in free;
      }
    }

    /** Sets or clears a block of a listed run. */
    method SetBlock(c: nat, idx: nat, run: ChunkRun, b: nat, v: bool)
      requires Linked() && c < |sizes| && idx < |runsFree[c]| + |runsFull[c]| && run == RunAt(c, idx)
      requires idx < |Listed(model, c)| && run.Value() == Listed(model, c)[idx] && run in known && run.sizeClass == c
      requires b < |Listed(model, c)[idx].used| && Listed(model, c)[idx].used[b] != v
      modifies this`model, known, bitmaps
      ensures Linked() && model == PutRun(old(model), c, idx, Marked(Listed(old(model), c)[idx], b, v))
      ensures run.Value() == Marked(Listed(old(model), c)[idx], b, v)
    {
      hide InClass, Ones;
      assert ClassLinked(c);
      AtIsAlone(c, idx);
      OwnBitmap(c, run);
      ghost var r := Listed(model, c)[idx];
      run.Change(b, v);
      ghost var before := model;
      model := PutRun(model, c, idx, Marked(r, b, v));
      assert Rooted();
      assert Mirrors(runsFree[c], model.free[c]);
      assert Mirrors(runsFull[c], model.full[c]);
      forall d | 0 <= d < |sizes| ensures ClassLinked(d) {
        assert old(ClassLinked(d));
        if d != c {
          assert model.free[d] == before.free[d] && model.full[d] == before.full[d];
        }
      }
    }

    /** Gives a class new lists. */
    method Relink(c: nat, free: seq<ChunkRun>, full: seq<ChunkRun>, runs: nat, ghost s: Chunk)
      requires Linked() && c < |sizes| && Shaped(s) && s.sizes == sizes
      requires s == model.(free := model.free[c := s.free[c]], full := model.full[c := s.full[c]], runs := runs)
      requires InClass(free, full, c, known) && Mirrors(free, s.free[c]) && Mirrors(full, s.full[c])
      modifies this`runsFree, this`runsFull, this`numRuns, this`model
      ensures Linked() && model == s
    {
      hide InClass, Mirrors;
      runsFree, runsFull := runsFree[c := free], runsFull[c := full];
      numRuns := runs;
      model := s;
      assert Rooted();
      forall d | 0 <= d < |sizes| ensures ClassLinked(d) {
        assert old(ClassLinked(d));
      }
    }

    /** `list_del` of the open run and `list_add_tail` to the runs that have been full. */
    method MoveToFull(c: nat)
      requires Linked() && c < |sizes| && runsFree[c] != [] && model.free[c] != []
      modifies this`runsFree, this`runsFull, this`numRuns, this`model
      ensures Linked() && model == FillRun(old(model), c)
    {
      hide InClass;
      assert ClassLinked(c);
      var run := runsFree[c][0];
      FirstOfClass(runsFree[c], runsFull[c], c, known);
      Relink(c, runsFree[c][1..], runsFull[c] + [run], numRuns, FillRun(model, c));
    }

    /** `list_del` of a run, whichever list it is on. */
    method Delist(c: nat, idx: nat, run: ChunkRun)
      requires Linked() && c < |sizes| && idx < |runsFree[c]| + |runsFull[c]| && run == RunAt(c, idx)
      requires idx < |Listed(model, c)| && numRuns > 0
      modifies this`runsFree, this`runsFull, this`numRuns, this`model
      ensures Linked() && model == DropRun(old(model), c, idx)
    {
      hide InClass;
      assert ClassLinked(c);
      var free, full, n := runsFree[c], runsFull[c], |runsFree[c]|;
      CutOfClass(free, full, c, known, idx);
      ghost var s := DropRun(model, c, idx);
      assert model.free[c := model.free[c]] == model.free && model.full[c := model.full[c]] == model.full;
      if idx < n {
        Relink(c, WithoutAt(free, idx), full, numRuns - 1, s);
      } else {
        Relink(c, free, WithoutAt(full, idx - n), numRuns - 1, s);
      }
    }

    method CountAllocated(bytes: nat)
      requires Linked()
      modifies this`allocatedBytes, this`model
      ensures Linked() && model == old(model).(allocatedBytes := old(allocatedBytes) + bytes)
    {
      hide InClass, Mirrors;
      allocatedBytes := allocatedBytes + bytes;
      model := model.(allocatedBytes := allocatedBytes);
      forall c | 0 <= c < |sizes| ensures ClassLinked(c) {
        assert old(ClassLinked(c));
      }
    }

    method CountFreed(bytes: nat)
      requires Linked()
      modifies this`freedBytes, this`model
      ensures Linked() && model == old(model).(freedBytes := old(freedBytes) + bytes)
    {
      hide InClass, Mirrors;
      freedBytes := freedBytes + bytes;
      model := model.(freedBytes := freedBytes);
      forall c | 0 <= c < |sizes| ensures ClassLinked(c) {
        assert old(ClassLinked(c));
      }
    }

    /** Serves a block from the open run. */
    method Take(c: nat) returns (p: nat)
      requires Linked() && c < |sizes| && runsFree[c] != [] && model.free[c] != []
      modifies this`runsFree, this`runsFull, this`numRuns, this`allocatedBytes, this`model, known, bitmaps
      ensures Linked() && (model, p) == TakeBlock(old(model), c)
    {
      hide InClass, Ones, FirstClear, PutRun, FillRun, TakeBlock, Mirrors;
      var run := runsFree[c][0];
      AtIsListed(c, 0);
      var b := run.FindClear();
      TakeIs(model, c);
      if b >= run.numBlocks {
        return NULL;
      }
      SetBlock(c, 0, run, b, true);
      var runIdx := PositionOf(c, run);
      p := base + offset + runIdx * RUN_SIZE + b * run.size;
      CountAllocated(run.size);
      if run.freeBlocks == 0 {
        MoveToFull(c);
      }
    }

    ghost predicate Valid()
      reads this, known, bitmaps
    {
      Linked() && Sound(model)
    }

    /** `chunk_alloc_small` */
    method AllocSmall(c: nat, g: Grant) returns (p: nat)
      requires Valid() && c < |sizes|
      modifies this, known, bitmaps
      ensures Valid() && (model, p) == ChunkModel.AllocSmall(old(model), c, g)
      ensures fresh(known - old(known)) && fresh(bitmaps - old(bitmaps))
    {
      hide InClass, TakeBlock, Sound;
      AllocKeepsSound(model, c, g);
      FreeListed(c);
      if runsFree[c] == [] {
        if !g.run {
          return NULL;
        }
        if sizes[c] == 0 {
          return NULL;
        }
        if !g.bitmap {
          return NULL;
        }
        OpenRun(c);
        FreeListed(c);
      }
      p := Take(c);
    }

    lemma FreeListed(c: nat)
      requires Linked() && c < |sizes|
      ensures |runsFree[c]| == |model.free[c]| && |runsFull[c]| == |model.full[c]|
    {
      assert ClassLinked(c);
    }

    /** The walk over the open runs and then over those that have been full. */
    method FindListed(c: nat, idx: nat) returns (run: ChunkRun?)
      requires c < |runsFree| == |runsFull|
      ensures run == if idx < |runsFree[c]| + |runsFull[c]| then RunAt(c, idx) else null
    {
      var count := 0;
      var i := 0;
      while i < |runsFree[c]|
        invariant 0 <= i <= |runsFree[c]| && count == i <= idx
      {
        if count == idx {
          return runsFree[c][i];
        }
        count := count + 1;
        i := i + 1;
      }
      i := 0;
      while i < |runsFull[c]|
        invariant 0 <= i <= |runsFull[c]| && count == |runsFree[c]| + i <= idx
      {
        if count == idx {
          return runsFull[c][i];
        }
        count := count + 1;
        i := i + 1;
      }
      return null;
    }

    /** The allocated block the free path takes a pointer for; null when there is none. */
    method FindBlock(c: nat, p: Word) returns (run: ChunkRun?, idx: nat, b: nat)
      requires Linked() && c < |sizes|
      ensures run == null <==> Locate(model, c, p) == Nowhere
      ensures run != null ==> Locate(model, c, p) == Block(idx, b)
      ensures run != null ==> idx < |runsFree[c]| + |runsFull[c]| && run == RunAt(c, idx)
    {
      hide InClass, Mirrors, RunIndex, BlockIndex;
      FreeListed(c);
      var off := Sub64(p, base + offset);
      idx, b := RunIndex(off), 0;
      run := FindListed(c, idx);
      if run == null {
        return;
      }
      AtIsListed(c, idx);
      // The code also gives up on a block size of 0, which no listed run has.
      assert run.size > 0;
      b := BlockIndex(off, run.size);
      if b >= run.numBlocks {
        return null, idx, b;
      }
      BitInArray(b, run.numBlocks);
      var taken := Get(run.bitmap, b);
      if !taken {
        return null, idx, b;
      }
    }

    /** `chunk_free_small` */
    method FreeSmall(c: nat, p: Word)
      requires Valid() && c < |sizes|
      modifies this, known, bitmaps
      ensures Valid() && model == ChunkModel.FreeSmall(old(model), c, p)
    {
      hide InClass, Sound, Mirrors, ReleaseBlock, PutRun, DropRun, Locate;
      FreeKeepsSound(model, c, p);
      if p == NULL {
        return;
      }
      var run, idx, b := FindBlock(c, p);
      if run == null {
        return;
      }
      AtIsListed(c, idx);
      Release(c, idx, run, b);
    }

    /** Clears the block; the run goes when it is empty. A linked node is never an empty list, so else it stays put. */
    method Release(c: nat, idx: nat, run: ChunkRun, b: nat)
      requires Valid() && c < |sizes| && idx < |runsFree[c]| + |runsFull[c]| && run == RunAt(c, idx)
      requires idx < |Listed(model, c)| && run.Value() == Listed(model, c)[idx] && run in known && run.sizeClass == c
      requires b < |Listed(model, c)[idx].used| && Listed(model, c)[idx].used[b]
      modifies this, known, bitmaps
      ensures Linked() && model == ReleaseBlock(old(model), c, idx, b)
    {
      hide InClass, Mirrors, ReleaseBlock, PutRun, DropRun, Ones, GoodClass, TableSum;
      ReleaseKeepsSound(model, c, idx, b);
      ReleaseIs(model, c, idx, b);
      SetBlock(c, idx, run, b, false);
      CountFreed(run.size);
      if run.freeBlocks == run.numBlocks {
        Delist(c, idx, run);
      }
    }
  }

  /** The open run of a class joins the runs that have been full. */
  function FillRun(s: Chunk, c: nat): Chunk
    requires Shaped(s) && c < |s.sizes| && s.free[c] != []
  {
    s.(free := s.free[c := s.free[c][1..]], full := s.full[c := s.full[c] + [s.free[c][0]]])
  }

  function DropRun(s: Chunk, c: nat, idx: nat): Chunk
    requires Shaped(s) && c < |s.sizes| && idx < |Listed(s, c)|
  {
    var n := |s.free[c]|;
    var t := s.(runs := if s.runs > 0 then s.runs - 1 else 0);
    if idx < n then t.(free := s.free[c := WithoutAt(s.free[c], idx)])
    else t.(full := s.full[c := WithoutAt(s.full[c], idx - n)])
  }

  lemma CutOfClass(free: seq<ChunkRun>, full: seq<ChunkRun>, c: nat, known: set<ChunkRun>, idx: nat)
    requires InClass(free, full, c, known) && idx < |free| + |full|
    ensures idx < |free| ==> InClass(WithoutAt(free, idx), full, c, known)
    ensures idx >= |free| ==> InClass(free, WithoutAt(full, idx - |free|), c, known)
  {
    if idx < |free| {
      assert forall r :: r in WithoutAt(free, idx) ==> r in free;
    } else {
      assert forall r :: r in WithoutAt(full, idx - |free|) ==> r in full;
    }
  }

  lemma FirstOfClass(free: seq<ChunkRun>, full: seq<ChunkRun>, c: nat, known: set<ChunkRun>)
    requires InClass(free, full, c, known) && free != []
    ensures free[0] in known && free[0].sizeClass == c && free[0] !in full && free[0] !in free[1..]
    ensures InClass(free[1..], full + [free[0]], c, known)
  {
  }

  lemma AddToClass(free: seq<ChunkRun>, full: seq<ChunkRun>, c: nat, known: set<ChunkRun>, r: ChunkRun)
    requires InClass(free, full, c, known) && r.sizeClass == c
    ensures r !in known ==> InClass(free + [r], full, c, known + {r})
  {
  }

  lemma KnownGrows(free: seq<ChunkRun>, full: seq<ChunkRun>, c: nat, known: set<ChunkRun>, r: ChunkRun)
    requires InClass(free, full, c, known)
    ensures InClass(free, full, c, known + {r})
  {
  }

  /** `TakeBlock` as the steps of the code. */
  lemma TakeIs(s: Chunk, c: nat)
    requires Shaped(s) && c < |s.sizes| && s.free[c] != []
    ensures var run := s.free[c][0]; var b := FirstClear(run.used);
            if b < |run.used| then
              var t := PutRun(s, c, 0, Marked(run, b, true)).(allocatedBytes := s.allocatedBytes + run.size);
              && t.free[c] != []
              && TakeBlock(s, c) ==
                 (if Ones(Marked(run, b, true).used) == |run.used| then FillRun(t, c) else t, Address(s, run.size, b))
            else TakeBlock(s, c) == (s, NULL)
  {
    var l := s.free[c];
    var b := FirstClear(l[0].used);
    if b < |l[0].used| {
      var taken := Marked(l[0], b, true);
      assert l[0 := taken][1..] == l[1..];
      assert s.free[c := l[0 := taken]][c := l[1..]] == s.free[c := l[1..]];
    }
  }

  /** `ReleaseBlock` as the steps of the code. */
  lemma ReleaseIs(s: Chunk, c: nat, idx: nat, b: nat)
    requires Shaped(s) && c < |s.sizes| && idx < |Listed(s, c)| && b < |Listed(s, c)[idx].used|
    ensures var run := Listed(s, c)[idx];
            var t := PutRun(s, c, idx, Marked(run, b, false)).(freedBytes := s.freedBytes + run.size);
            && idx < |Listed(t, c)|
            && ReleaseBlock(s, c, idx, b) == if Ones(Marked(run, b, false).used) == 0 then DropRun(t, c, idx) else t
  {
    var run := Listed(s, c)[idx];
    var n := |s.free[c]|;
    if idx < n {
      CutUpdated(s.free[c], idx, Marked(run, b, false));
    } else {
      CutUpdated(s.full[c], idx - n, Marked(run, b, false));
    }
  }

  lemma CutUpdated<T>(l: seq<T>, i: nat, x: T)
    requires i < |l|
    ensures WithoutAt(l[i := x], i) == WithoutAt(l, i)
  {
  }
}
