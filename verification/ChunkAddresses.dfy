/** What the pointers of src/memory/chunk.c mean: which block an allocation returns and which one a free clears. */
module ChunkAddresses {
  import opened Words
  import opened Seqs
  import opened ChunkModel

  /** The first run's window lies in the address space and is not at address zero. */
  predicate Placed(s: Chunk) {
    s.base > 0 && s.base + s.offset + RUN_SIZE <= U64
  }

  lemma TimesGrows(a: nat, b: nat, size: nat)
    requires a < b
    ensures a * size + size <= b * size
  {
    var d := b - a;
    MulAtLeast(d, size);
    assert b * size == a * size + d * size;
  }

  lemma BlockFits(size: Word, block: nat)
    requires size > 0 && block < RUN_SIZE / size
    ensures block * size + size <= RUN_SIZE
  {
    var n := RUN_SIZE / size;
    assert n * size <= RUN_SIZE;
    TimesGrows(block, n, size);
  }

  /** Different blocks of one run do not overlap. */
  lemma BlocksAreDisjoint(s: Chunk, size: Word, a: nat, b: nat)
    requires a < b
    ensures Address(s, size, a) + size <= Address(s, size, b)
  {
    TimesGrows(a, b, size);
  }

  /** The run an allocation is served from: the open one, or a new one. */
  function Source(s: Chunk, c: nat): Run
    requires Shaped(s) && c < |s.sizes| && (s.free[c] != [] || s.sizes[c] > 0)
  {
    if s.free[c] != [] then s.free[c][0] else NewRun(s.sizes[c])
  }

  /** libc is asked for nothing, or gives what it is asked for. */
  predicate Supplied(s: Chunk, c: nat, g: Grant)
    requires Shaped(s) && c < |s.sizes|
  {
    s.free[c] != [] || (g.run && g.bitmap)
  }

  lemma SourceHasRoom(s: Chunk, c: nat)
    requires Sound(s) && c < |s.sizes| && s.sizes[c] > 0
    ensures var r := Source(s, c);
            && r.size == s.sizes[c] && |r.used| == RUN_SIZE / r.size
            && (FirstClear(r.used) < |r.used| <==> r.used != [])
    ensures |Source(s, c).used| > 0 <==> s.sizes[c] <= RUN_SIZE
    ensures s.free[c] != [] ==> s.free[c] == [Source(s, c)]
  {
    hide TableSum;
    var r := Source(s, c);
    assert GoodClass(s.free[c], s.full[c], s.sizes[c]);
    if s.free[c] != [] {
      assert GoodRun(s.free[c][0], s.sizes[c]);
    }
    OnesExtremes(r.used);
    HasBlocksIff(s.sizes[c]);
  }

  lemma HasBlocksIff(size: Word)
    requires size > 0
    ensures RUN_SIZE / size > 0 <==> size <= RUN_SIZE
  {
    if size > RUN_SIZE {
      ModuloUnique(RUN_SIZE, size, 0, RUN_SIZE);
    }
  }

  lemma OpenHasSize(s: Chunk, c: nat)
    requires Sound(s) && c < |s.sizes| && s.free[c] != []
    ensures s.sizes[c] > 0
  {
    assert GoodClass(s.free[c], s.full[c], s.sizes[c]);
    assert GoodRun(s.free[c][0], s.sizes[c]);
  }

  /**
   With memory from libc an allocation succeeds exactly when the class has a size and it is at most a run. It returns
   the lowest clear block of its run, inside the first 4096 bytes after the header.
   */
  lemma AllocReturnsLowestClear(s: Chunk, c: nat, g: Grant)
    requires Sound(s) && Placed(s) && c < |s.sizes|
    ensures AllocSmall(s, c, g).1 != NULL <==> Supplied(s, c, g) && 0 < s.sizes[c] <= 4096
    ensures AllocSmall(s, c, g).1 != NULL ==>
              && AllocSmall(s, c, g).1 == Address(s, s.sizes[c], FirstClear(Source(s, c).used))
              && s.base + s.offset <= AllocSmall(s, c, g).1
              && AllocSmall(s, c, g).1 + s.sizes[c] <= s.base + s.offset + 4096
  {
    hide FirstClear, GoodClass, TableSum, NewRun;
    if s.free[c] != [] {
      OpenHasSize(s, c);
    }
    if s.sizes[c] > 0 {
      SourceHasRoom(s, c);
      var r := Source(s, c);
      if r.used != [] {
        BlockFits(r.size, FirstClear(r.used));
      }
    }
  }

  // ---------- The free path ----------

  lemma OffsetOfBlock(size: Word, block: nat)
    requires size > 0 && block * size + size <= RUN_SIZE
    ensures RunIndex(block * size) == 0 && BlockIndex(block * size, size) == block
  {
    ModuloUnique(block * size, RUN_SIZE, 0, block * size);
    ModuloUnique(block * size, size, block, 0);
  }

  /** The free path's divisions recover the block index of an address, in whichever run is listed first. */
  lemma FreeRecoversBlock(s: Chunk, c: nat, block: nat)
    requires Sound(s) && Placed(s) && c < |s.sizes| && Listed(s, c) != [] && block < |Listed(s, c)[0].used|
    ensures Address(s, s.sizes[c], block) < U64
    ensures Locate(s, c, Address(s, s.sizes[c], block)) ==
            if Listed(s, c)[0].used[block] then Block(0, block) else Nowhere
  {
    hide TableSum, Ones;
    var run := Listed(s, c)[0];
    assert GoodClass(s.free[c], s.full[c], s.sizes[c]);
    assert GoodRun(run, s.sizes[c]) by {
      if s.free[c] != [] {
        assert run == s.free[c][0];
      } else {
        assert run == s.full[c][0];
      }
    }
    BlockFits(run.size, block);
    OffsetOfBlock(run.size, block);
    WrapSmall(block * run.size);
  }

  lemma WindowIsFirst(offset: nat)
    requires offset < RUN_SIZE
    ensures RunIndex(offset) == 0
  {
  }

  /**
   Every pointer into the window that allocations return is taken for the block it points into of the first listed run,
   when that is allocated, and for nothing otherwise.
   */
  lemma FreeHitsFirstListed(s: Chunk, c: nat, p: Word)
    requires Sound(s) && Placed(s) && c < |s.sizes|
    requires s.base + s.offset <= p < s.base + s.offset + RUN_SIZE
    ensures Listed(s, c) == [] ==> Locate(s, c, p) == Nowhere
    ensures Listed(s, c) != [] ==>
              && s.sizes[c] > 0
              && var b := BlockIndex(p - s.base - s.offset, s.sizes[c]);
                 Locate(s, c, p) == if HasBlock(Listed(s, c)[0], b) then Block(0, b) else Nowhere
  {
    hide TableSum, Ones, GoodClass, BlockIndex;
    var off := p - s.base - s.offset;
    WrapSmall(off);
    WindowIsFirst(off);
    if Listed(s, c) != [] {
      SameLength(s, c, 0);
    }
  }

  predicate HasBlock(r: Run, b: nat) {
    b < |r.used| && r.used[b]
  }

  lemma SameLength(s: Chunk, c: nat, i: nat)
    requires Sound(s) && c < |s.sizes| && i < |Listed(s, c)|
    ensures Listed(s, c)[i].size == s.sizes[c] > 0 && |Listed(s, c)[i].used| == RUN_SIZE / s.sizes[c]
  {
    assert GoodClass(s.free[c], s.full[c], s.sizes[c]);
    if i < |s.free[c]| {
      assert GoodRun(s.free[c][i], s.sizes[c]);
    } else {
      assert GoodRun(s.full[c][i - |s.free[c]|], s.sizes[c]);
    }
  }

  /**
   A free clears the allocated block it is given exactly when that block's run is listed first. Otherwise it clears the
   same block of the run that is, or nothing.
   */
  lemma FreeClearsOwnBlockIff(s: Chunk, c: nat, i: nat, b: nat)
    requires Sound(s) && Placed(s) && c < |s.sizes| && i < |Listed(s, c)| && HasBlock(Listed(s, c)[i], b)
    ensures Address(s, s.sizes[c], b) < U64
    ensures Locate(s, c, Address(s, s.sizes[c], b)) == Block(i, b) <==> i == 0
    ensures Locate(s, c, Address(s, s.sizes[c], b)) ==
            if HasBlock(Listed(s, c)[0], b) then Block(0, b) else Nowhere
  {
    hide TableSum, Ones, Locate, Address, GoodClass;
    SameLength(s, c, i);
    SameLength(s, c, 0);
    FreeRecoversBlock(s, c, b);
  }

  // ---------- Which pointers are new ----------

  /** A block of a listed run that is allocated. */
  predicate LiveBlock(s: Chunk, c: nat, i: nat, k: nat)
    requires Shaped(s)
  {
    c < |s.sizes| && i < |Listed(s, c)| && HasBlock(Listed(s, c)[i], k)
  }

  /** Two byte ranges have a byte in common. */
  predicate Meet(p: nat, n: nat, q: nat, m: nat) {
    p < q + m && q < p + n
  }

  /** The range has a byte in common with an allocated block of any run of any class. */
  ghost predicate Overlaps(s: Chunk, p: nat, n: nat)
    requires Shaped(s)
  {
    exists d: nat, i: nat, k: nat :: LiveBlock(s, d, i, k) && Meet(p, n, Address(s, s.sizes[d], k), s.sizes[d])
  }

  /**
   A run other than the open one of class `c` has an allocated block in the same place of its window as block `b` of
   that class.
   */
  ghost predicate OtherRunMeets(s: Chunk, c: nat, b: nat)
    requires Shaped(s) && c < |s.sizes|
  {
    exists d: nat, i: nat, k: nat ::
      LiveBlock(s, d, i, k) && (d != c || i >= |s.free[c]|)
      && Meet(b * s.sizes[c], s.sizes[c], k * s.sizes[d], s.sizes[d])
  }

  lemma MeetMoves(s: Chunk, m: Word, a: nat, n: Word, b: nat)
    ensures Meet(Address(s, m, a), m, Address(s, n, b), n) <==> Meet(a * m, m, b * n, n)
  {
  }

  /** The block an allocation takes meets no block that its own run has given out. */
  lemma SourceDoesNotMeet(s: Chunk, c: nat, k: nat)
    requires Sound(s) && c < |s.sizes| && s.free[c] != [] && HasBlock(s.free[c][0], k)
    ensures !Meet(FirstClear(s.free[c][0].used) * s.sizes[c], s.sizes[c], k * s.sizes[c], s.sizes[c])
  {
    var b := FirstClear(s.free[c][0].used);
    if b < k {
      TimesGrows(b, k, s.sizes[c]);
    } else if k < b {
      TimesGrows(k, b, s.sizes[c]);
    }
  }

  lemma PlaceOverlapsIff(s: Chunk, c: nat, b: nat)
    requires Sound(s) && c < |s.sizes| && (s.free[c] != [] ==> b == FirstClear(s.free[c][0].used))
    ensures Overlaps(s, Address(s, s.sizes[c], b), s.sizes[c]) <==> OtherRunMeets(s, c, b)
  {
    hide FirstClear, GoodClass, TableSum, Address, Meet, Sound;
    OneOpenRun(s, c);
    var p := Address(s, s.sizes[c], b);
    if Overlaps(s, p, s.sizes[c]) {
      var d: nat, i: nat, k: nat :| LiveBlock(s, d, i, k) && Meet(p, s.sizes[c], Address(s, s.sizes[d], k), s.sizes[d]);
      MeetMoves(s, s.sizes[c], b, s.sizes[d], k);
      if d == c && i < |s.free[c]| {
        SourceDoesNotMeet(s, c, k);
      }
    }
    if OtherRunMeets(s, c, b) {
      var d: nat, i: nat, k: nat :| LiveBlock(s, d, i, k) && (d != c || i >= |s.free[c]|)
                     && Meet(b * s.sizes[c], s.sizes[c], k * s.sizes[d], s.sizes[d]);
      MeetMoves(s, s.sizes[c], b, s.sizes[d], k);
    }
  }

  lemma OneOpenRun(s: Chunk, c: nat)
    requires Sound(s) && c < |s.sizes|
    ensures Shaped(s) && |s.free[c]| <= 1
  {
    assert GoodClass(s.free[c], s.full[c], s.sizes[c]);
  }

  /**
   An allocation returns memory that a live block already has exactly when another run has an allocated block in the
   same place: all runs of all classes share one window.
   */
  lemma AllocOverlapsIff(s: Chunk, c: nat, g: Grant)
    requires Sound(s) && Placed(s) && c < |s.sizes| && AllocSmall(s, c, g).1 != NULL
    ensures 0 < s.sizes[c]
    ensures Overlaps(s, AllocSmall(s, c, g).1, s.sizes[c]) <==> OtherRunMeets(s, c, FirstClear(Source(s, c).used))
  {
    hide FirstClear, GoodClass, TableSum, NewRun, Address, AllocSmall, Overlaps, OtherRunMeets;
    AllocReturnsLowestClear(s, c, g);
    SourceHasRoom(s, c);
    PlaceOverlapsIff(s, c, FirstClear(Source(s, c).used));
  }

  /** While no other class has a live block and no run of the class has been full, an allocation returns new memory. */
  lemma AllocIsNewAlone(s: Chunk, c: nat, g: Grant)
    requires Sound(s) && Placed(s) && c < |s.sizes| && AllocSmall(s, c, g).1 != NULL && s.full[c] == []
    requires forall d: nat, i: nat, k: nat :: d != c ==> !LiveBlock(s, d, i, k)
    ensures !Overlaps(s, AllocSmall(s, c, g).1, s.sizes[c])
  {
    hide FirstClear, GoodClass, TableSum, NewRun, Address, AllocSmall, Meet, Overlaps, Source;
    AllocReturnsLowestClear(s, c, g);
    AllocOverlapsIff(s, c, g);
  }

  // ---------- Within one class ----------

  /** The address is that of an allocated block of the class. */
  ghost predicate Issued(s: Chunk, c: nat, p: nat)
    requires Shaped(s) && c < |s.sizes|
  {
    exists i: nat, k: nat :: LiveBlock(s, c, i, k) && Address(s, s.sizes[c], k) == p
  }

  lemma SameAddress(s: Chunk, size: Word, a: nat, b: nat)
    requires size > 0
    ensures Address(s, size, a) == Address(s, size, b) <==> a == b
  {
    if a < b {
      BlocksAreDisjoint(s, size, a, b);
    } else if b < a {
      BlocksAreDisjoint(s, size, b, a);
    }
  }

  /**
   An allocation returns the address of a live block of its own class exactly when some run of the class that has been
   full still has that block allocated.
   */
  lemma AllocRepeatsAddressIff(s: Chunk, c: nat, g: Grant)
    requires Sound(s) && Placed(s) && c < |s.sizes| && AllocSmall(s, c, g).1 != NULL
    ensures 0 < s.sizes[c]
    ensures var b := FirstClear(Source(s, c).used);
            Issued(s, c, AllocSmall(s, c, g).1) <==> exists i :: 0 <= i < |s.full[c]| && HasBlock(s.full[c][i], b)
  {
    hide FirstClear, GoodClass, TableSum, NewRun, Address, AllocSmall;
    AllocReturnsLowestClear(s, c, g);
    SourceHasRoom(s, c);
    var size, n, p := s.sizes[c], |s.free[c]|, AllocSmall(s, c, g).1;
    var b := FirstClear(Source(s, c).used);
    if Issued(s, c, p) {
      var i: nat, k: nat :| LiveBlock(s, c, i, k) && Address(s, size, k) == p;
      SameAddress(s, size, k, b);
      assert i >= n;
      assert Listed(s, c)[i] == s.full[c][i - n];
      assert HasBlock(s.full[c][i - n], b);
    }
    if i :| 0 <= i < |s.full[c]| && HasBlock(s.full[c][i], b) {
      assert Listed(s, c)[n + i] == s.full[c][i];
      assert LiveBlock(s, c, n + i, b);
      assert Issued(s, c, p);
    }
  }

  /** Hence while no run of the class has been full the address is new within the class. */
  lemma AllocIsNewWithoutFullRuns(s: Chunk, c: nat, g: Grant)
    requires Sound(s) && Placed(s) && c < |s.sizes| && AllocSmall(s, c, g).1 != NULL && s.full[c] == []
    ensures !Issued(s, c, AllocSmall(s, c, g).1)
  {
    AllocRepeatsAddressIff(s, c, g);
  }

  /** And the first allocation after a run of the class has filled up returns that run's first block again. */
  lemma AllocAfterFullRepeats(s: Chunk, c: nat, g: Grant, i: nat)
    requires Sound(s) && Placed(s) && c < |s.sizes| && AllocSmall(s, c, g).1 != NULL
    requires s.free[c] == [] && i < |s.full[c]| && Ones(s.full[c][i].used) == |s.full[c][i].used|
    ensures Issued(s, c, AllocSmall(s, c, g).1)
  {
    AllocRepeatsAddressIff(s, c, g);
    OnesExtremes(s.full[c][i].used);
    assert GoodClass(s.free[c], s.full[c], s.sizes[c]);
    assert HasBlock(s.full[c][i], 0);
    assert FirstClear(Source(s, c).used) == 0;
  }

  // ---------- Concrete runs ----------

  /** The first block of a new run of at least two. */
  function FirstTaken(size: Word): Run
    requires 0 < size <= RUN_SIZE / 2
  {
    TwoBlocksFit(size);
    Run(size, NewRun(size).used[0 := true])
  }

  lemma TwoBlocksFit(size: Word)
    requires 0 < size <= RUN_SIZE / 2
    ensures RUN_SIZE / size >= 2
  {
    var n, r := RUN_SIZE / size, RUN_SIZE % size;
    assert n * size + r == RUN_SIZE;
    if n <= 1 {
      TimesAtMost(n, size);
    }
  }

  lemma TimesAtMost(n: nat, size: nat)
    requires n <= 1
    ensures n * size <= size
  {
  }

  /** Opening a run serves its first block, at the start of the window whatever the class. */
  lemma OpeningTakesFirst(s: Chunk, c: nat)
    requires Shaped(s) && c < |s.sizes| && 0 < s.sizes[c] <= RUN_SIZE / 2 && s.free[c] == []
    ensures AllocSmall(s, c, Grant(true, true)) ==
            (s.(free := s.free[c := [FirstTaken(s.sizes[c])]], runs := s.runs + 1,
                allocatedBytes := s.allocatedBytes + s.sizes[c]), s.base + s.offset)
  {
    var size := s.sizes[c];
    TwoBlocksFit(size);
    var r, t := NewRun(size), OpenRun(s, c);
    assert s.free[c] + [r] == [r];
    OnesUpdate(r.used, 0, true);
    OnesExtremes(r.used);
    assert FirstClear(r.used) == 0;
    assert Address(t, size, 0) == s.base + s.offset;
    assert [r][0 := FirstTaken(size)] == [FirstTaken(size)];
    assert t.free[c := [FirstTaken(size)]] == s.free[c := [FirstTaken(size)]];
  }

  /** One allocation each of 16 and of 32 bytes from a new chunk: one address, both live, no run ever full. */
  lemma TwoClassesShareAnAddress(base: nat, offset: nat)
    requires base > 0
    ensures var s := Blank(base, offset, [16, 32]); var g := Grant(true, true);
            var first := AllocSmall(s, 0, g); var second := AllocSmall(first.0, 1, g);
            && first.1 != NULL && second.1 == first.1
            && LiveBlock(second.0, 0, 0, 0) && LiveBlock(second.0, 1, 0, 0)
            && second.0.full == [[], []]
  {
    var s, g := Blank(base, offset, [16, 32]), Grant(true, true);
    OpeningTakesFirst(s, 0);
    OpeningTakesFirst(AllocSmall(s, 0, g).0, 1);
    hide AllocSmall;
    TwoBlocksFit(16);
    TwoBlocksFit(32);
  }

  lemma TakeWholeRun(s: Chunk)
    requires Shaped(s) && |s.sizes| > 0 && s.sizes[0] == RUN_SIZE && s.free[0] == []
    ensures AllocSmall(s, 0, Grant(true, true)) ==
            (s.(full := s.full[0 := s.full[0] + [Run(RUN_SIZE, [true])]], runs := s.runs + 1,
                allocatedBytes := s.allocatedBytes + RUN_SIZE), s.base + s.offset)
  {
    var r := NewRun(RUN_SIZE);
    var t := OpenRun(s, 0);
    assert r == Run(RUN_SIZE, [false]) && t.free[0] == [r];
    assert r.used[0 := true] == [true] && [r][1..] == [];
    assert Ones([true]) == 1 by {
      OnesExtremes([true]);
    }
    assert t.free[0 := []] == s.free;
  }

  /**
   Two allocations in a row, neither freed, with one address: in any chunk, for a class whose blocks are as large as a
   run.
   */
  lemma TwoLiveBlocksShareAnAddress(base: nat, offset: nat)
    requires base > 0
    ensures var s := Blank(base, offset, [RUN_SIZE]); var g := Grant(true, true);
            var first := AllocSmall(s, 0, g); var second := AllocSmall(first.0, 0, g);
            first.1 != NULL && second.1 == first.1 && |second.0.full[0]| == 2
  {
    hide AllocSmall;
    var s := Blank(base, offset, [RUN_SIZE]);
    TakeWholeRun(s);
    TakeWholeRun(AllocSmall(s, 0, Grant(true, true)).0);
  }

  const HALF_RUN: Word := 2048

  lemma HalfRunIs()
    ensures NewRun(HALF_RUN) == Run(HALF_RUN, [false, false])
    ensures FirstClear([false, false]) == 0 && FirstClear([true, false]) == 1
    ensures Ones([true, true]) == 2 && Ones([true, false]) == 1 && Ones([false, false]) == 0
  {
    assert [true, false][1..] == [false];
    OnesExtremes([true, true]);
    OnesExtremes([false, false]);
    assert [true, false][..1] == [true];
    OnesExtremes([true]);
  }

  /** The first block of a new run of two. */
  lemma TakeFirstHalf(s: Chunk)
    requires Shaped(s) && |s.sizes| > 0 && s.sizes[0] == HALF_RUN && s.free[0] == []
    ensures AllocSmall(s, 0, Grant(true, true)) ==
            (s.(free := s.free[0 := [Run(HALF_RUN, [true, false])]], runs := s.runs + 1,
                allocatedBytes := s.allocatedBytes + HALF_RUN), s.base + s.offset)
  {
    hide AllocSmall;
    HalfRunIs();
    OpeningTakesFirst(s, 0);
    assert [false, false][0 := true] == [true, false];
  }

  /** The second block fills the run. */
  lemma TakeSecondHalf(s: Chunk)
    requires Shaped(s) && |s.sizes| > 0 && s.free[0] == [Run(HALF_RUN, [true, false])]
    ensures AllocSmall(s, 0, Grant(true, true)) ==
            (s.(free := s.free[0 := []], full := s.full[0 := s.full[0] + [Run(HALF_RUN, [true, true])]],
                allocatedBytes := s.allocatedBytes + HALF_RUN), s.base + s.offset + HALF_RUN)
  {
    HalfRunIs();
    hide FirstClear, Ones;
    var r := s.free[0][0];
    assert r == Run(HALF_RUN, [true, false]) && FirstClear(r.used) == 1;
    assert r.used[1 := true] == [true, true];
    assert s.free[0][1..] == [];
    assert Address(s, HALF_RUN, 1) == s.base + s.offset + HALF_RUN;
    var taken := r.(used := r.used[1 := true]);
    assert taken == Run(HALF_RUN, [true, true]);
  }

  function ThreeTaken(base: nat, offset: nat): Chunk {
    Chunk(base, offset, [HALF_RUN], [[Run(HALF_RUN, [true, false])]], [[Run(HALF_RUN, [true, true])]],
          2, offset + 3 * HALF_RUN, 0)
  }

  /** Three allocations of half a run: the first and the third have one address. */
  lemma TakeThree(base: nat, offset: nat)
    requires base > 0
    ensures var s := Blank(base, offset, [HALF_RUN]); var g := Grant(true, true);
            var first := AllocSmall(s, 0, g);
            var second := AllocSmall(first.0, 0, g);
            var third := AllocSmall(second.0, 0, g);
            third.0 == ThreeTaken(base, offset) && first.1 == third.1 == base + offset
  {
    hide AllocSmall;
    var s, g := Blank(base, offset, [HALF_RUN]), Grant(true, true);
    assert s.free == [[]] && s.full == [[]];
    TakeFirstHalf(s);
    var first := AllocSmall(s, 0, g);
    TakeSecondHalf(first.0);
    var second := AllocSmall(first.0, 0, g);
    TakeFirstHalf(second.0);
    assert second.0.free[0 := [Run(HALF_RUN, [true, false])]] == [[Run(HALF_RUN, [true, false])]];
    assert [] + [Run(HALF_RUN, [true, true])] == [Run(HALF_RUN, [true, true])];
    assert second.0.full == [[Run(HALF_RUN, [true, true])]];
  }

  /**
   Freeing the first of those three gives up the third: the open run is emptied and goes, while the run of the first
   stays fully allocated.
   */
  lemma FreeLandsInOtherRun(base: nat, offset: nat)
    requires base > 0 && base + offset + RUN_SIZE <= U64
    ensures var t := FreeSmall(ThreeTaken(base, offset), 0, base + offset);
            t.free[0] == [] && t.full[0] == [Run(HALF_RUN, [true, true])] && t.runs == 1
  {
    HalfRunIs();
    hide Ones;
    var s := ThreeTaken(base, offset);
    WrapSmall(0);
    WindowIsFirst(0);
    OffsetOfBlock(HALF_RUN, 0);
    assert Listed(s, 0)[0] == Run(HALF_RUN, [true, false]);
    assert Locate(s, 0, base + offset) == Block(0, 0);
    assert [true, false][0 := false] == [false, false];
    assert WithoutAt(s.free[0], 0) == [];
  }

  // ---------- Freeing what was just allocated ----------

  /** The chunk with both byte counters moved on. */
  function Passed(s: Chunk, size: Word): Chunk {
    s.(allocatedBytes := s.allocatedBytes + size, freedBytes := s.freedBytes + size)
  }

  /** The chunk after an allocation that leaves the run open. */
  lemma AllocShape(s: Chunk, c: nat, g: Grant)
    requires Sound(s) && Placed(s) && c < |s.sizes|
    requires AllocSmall(s, c, g).1 != NULL && AllocSmall(s, c, g).0.free[c] != []
    ensures 0 < s.sizes[c] <= RUN_SIZE
    ensures var r := Source(s, c); var b := FirstClear(r.used);
            && b < |r.used| && r.size == s.sizes[c]
            && AllocSmall(s, c, g).1 == Address(s, s.sizes[c], b)
            && var taken := r.(used := r.used[b := true]);
               AllocSmall(s, c, g).0 == WithOpen(s, c, taken).(allocatedBytes := s.allocatedBytes + s.sizes[c])
  {
    hide FirstClear, GoodClass, TableSum, NewRun, Ones, Address;
    AllocReturnsLowestClear(s, c, g);
    SourceHasRoom(s, c);
    var r := Source(s, c);
    var taken := r.(used := r.used[FirstClear(r.used) := true]);
    assert [r][0 := taken] == [taken];
    if s.free[c] == [] {
      assert OpenRun(s, c).free[c] == [r];
      assert s.free[c := [r]][c := [taken]] == s.free[c := [taken]];
    }
  }

  lemma ReleaseShape(s: Chunk, c: nat, r: Run, b: nat)
    requires Sound(s) && c < |s.sizes| && s.sizes[c] > 0 && r == Source(s, c) && b < |r.used| && !r.used[b]
    ensures var taken := r.(used := r.used[b := true]);
            ReleaseBlock(WithOpen(s, c, taken), c, 0, b) == s.(freedBytes := s.freedBytes + r.size)
  {
    hide TableSum, NewRun, Ones, WithoutAt;
    var taken := r.(used := r.used[b := true]);
    assert taken.used[b := false] == r.used;
    assert WithoutAt([taken], 0) == [] by {
      CutOnly(taken);
    }
    assert GoodClass(s.free[c], s.full[c], s.sizes[c]);
    if s.free[c] == [] {
      BlankRun(s.sizes[c]);
      assert s.free[c := []] == s.free;
    } else {
      assert GoodRun(s.free[c][0], s.sizes[c]);
      assert taken.(used := r.used) == r && [taken][0 := r] == [r] == s.free[c];
      assert s.free[c := [taken]][c := [r]] == s.free;
    }
  }

  lemma CutOnly<T>(x: T)
    ensures WithoutAt([x], 0) == []
  {
  }

  /**
   When the allocation does not fill its run, freeing the pointer at once puts everything back but the two byte
   counters: the block is clear again, and a run opened for it is gone.
   */
  lemma FreeUndoesAlloc(s: Chunk, c: nat, g: Grant)
    requires Sound(s) && Placed(s) && c < |s.sizes|
    requires AllocSmall(s, c, g).1 != NULL && AllocSmall(s, c, g).0.free[c] != []
    ensures AllocSmall(s, c, g).1 < U64
    ensures FreeSmall(AllocSmall(s, c, g).0, c, AllocSmall(s, c, g).1) == Passed(s, s.sizes[c])
  {
    hide FirstClear, GoodClass, TableSum, NewRun, Ones, Address, AllocSmall, ReleaseBlock, Locate;
    AllocReturnsLowestClear(s, c, g);
    AllocKeepsSound(s, c, g);
    AllocShape(s, c, g);
    var r, t := Source(s, c), AllocSmall(s, c, g).0;
    var b := FirstClear(r.used);
    var taken := r.(used := r.used[b := true]);
    assert Listed(t, c)[0] == taken;
    SameWindow(s, t, s.sizes[c], b);
    FreeRecoversBlock(t, c, b);
    ReleaseShape(s, c, r, b);
    ReleaseCounts(WithOpen(s, c, taken), t, c, b);
  }

  lemma SameWindow(s: Chunk, t: Chunk, size: Word, b: nat)
    requires t.base == s.base && t.offset == s.offset
    ensures Address(s, size, b) == Address(t, size, b)
  {
  }

  /** Freeing does not look at the allocated-bytes counter. */
  lemma ReleaseCounts(s: Chunk, t: Chunk, c: nat, b: nat)
    requires Shaped(s) && c < |s.sizes| && Listed(s, c) != [] && b < |Listed(s, c)[0].used|
    requires t == s.(allocatedBytes := t.allocatedBytes)
    ensures ReleaseBlock(t, c, 0, b) == ReleaseBlock(s, c, 0, b).(allocatedBytes := t.allocatedBytes)
  {
  }

  /**
   When it does fill its run, the run goes to the end of those that have been full, and the free clears the block it
   was given exactly when no other run of the class is there. Otherwise it works on the first of them.
   */
  lemma FreeAfterFilling(s: Chunk, c: nat, g: Grant)
    requires Sound(s) && Placed(s) && c < |s.sizes|
    requires AllocSmall(s, c, g).1 != NULL && AllocSmall(s, c, g).0.free[c] == []
    ensures AllocSmall(s, c, g).1 < U64
    ensures var t := AllocSmall(s, c, g).0; var p := AllocSmall(s, c, g).1; var b := FirstClear(Source(s, c).used);
            && |t.full[c]| == |s.full[c]| + 1 && Listed(t, c) == t.full[c] && HasBlock(t.full[c][|s.full[c]|], b)
            && Locate(t, c, p) == (if HasBlock(t.full[c][0], b) then Block(0, b) else Nowhere)
            && (Locate(t, c, p) == Block(|s.full[c]|, b) <==> s.full[c] == [])
  {
    hide FirstClear, GoodClass, TableSum, NewRun, Ones, Address, Locate;
    AllocReturnsLowestClear(s, c, g);
    AllocKeepsSound(s, c, g);
    SourceHasRoom(s, c);
    var t := AllocSmall(s, c, g).0;
    var b := FirstClear(Source(s, c).used);
    SameWindow(s, t, s.sizes[c], b);
    FreeClearsOwnBlockIff(t, c, |s.full[c]|, b);
  }

  // ---------- Runs that have been full ----------

  /** The run still has at most the blocks it had. */
  predicate Descends(later: Run, earlier: Run) {
    && later.size == earlier.size && |later.used| == |earlier.used|
    && forall k :: 0 <= k < |later.used| && later.used[k] ==> earlier.used[k]
  }

  /**
   The first runs of `later` are runs of `earlier`, those at `from`, in their order and with at most the blocks they
   had.
   */
  ghost predicate OnlyShrunk(earlier: seq<Run>, later: seq<Run>, from: seq<nat>) {
    && |from| <= |later|
    && (forall j :: 0 <= j < |from| ==> from[j] < |earlier| && Descends(later[j], earlier[from[j]]))
    && (forall i, j :: 0 <= i < j < |from| ==> from[i] < from[j])
  }

  lemma ClearedOnlyShrinks(earlier: seq<Run>, l: seq<Run>, from: seq<nat>, i: nat, b: nat)
    requires OnlyShrunk(earlier, l, from) && i < |l| && b < |l[i].used|
    ensures OnlyShrunk(earlier, l[i := l[i].(used := l[i].used[b := false])], from)
  {
  }

  lemma RemovedOnlyShrinks(earlier: seq<Run>, l: seq<Run>, from: seq<nat>, i: nat) returns (r: seq<nat>)
    requires OnlyShrunk(earlier, l, from) && i < |l|
    ensures OnlyShrunk(earlier, WithoutAt(l, i), r)
    ensures |r| == if i < |from| then |from| - 1 else |from|
  {
    r := if i < |from| then from[..i] + from[i + 1..] else from;
    hide Descends;
    forall j | 0 <= j < |r| ensures r[j] < |earlier| && Descends(WithoutAt(l, i)[j], earlier[r[j]]) {
      var q := if j < i then j else j + 1;
      assert WithoutAt(l, i)[j] == l[q];
      if i < |from| {
        assert r[j] == from[q];
      }
    }
  }

  lemma LongerOnlyShrinks(earlier: seq<Run>, l: seq<Run>, m: seq<Run>, from: seq<nat>)
    requires OnlyShrunk(earlier, l, from) && l <= m
    ensures OnlyShrunk(earlier, m, from)
  {
  }

  lemma AllStay(l: seq<Run>) returns (from: seq<nat>)
    ensures OnlyShrunk(l, l, from) && |from| == |l|
  {
    from := seq(|l|, i => i);
  }

  lemma AllocAppendsToFull(s: Chunk, d: nat, g: Grant, c: nat)
    requires Shaped(s) && d < |s.sizes| && c < |s.sizes|
    ensures Shaped(AllocSmall(s, d, g).0) && |AllocSmall(s, d, g).0.full| == |s.full|
    ensures s.full[c] <= AllocSmall(s, d, g).0.full[c]
  {
    hide FirstClear, Ones, Address, NewRun;
  }

  /** Clearing this block gives up a run that has been full. */
  predicate LeavesFull(s: Chunk, c: nat, idx: nat, b: nat)
    requires Shaped(s) && c < |s.sizes| && idx < |Listed(s, c)| && b < |Listed(s, c)[idx].used|
  {
    idx >= |s.free[c]| && Ones(Listed(s, c)[idx].used[b := false]) == 0
  }

  /** A free of class `c` that clears the last block of a run that has been full. */
  predicate GivesUpFull(s: Chunk, op: Op, c: nat)
    requires Shaped(s) && c < |s.sizes|
  {
    op.Free? && op.c == c && op.p != NULL
    && var place := Locate(s, c, op.p); place.Block? && LeavesFull(s, c, place.idx, place.block)
  }

  /** How many operations of a run were such frees. */
  ghost function GivenUp(s: Chunk, ops: seq<Op>, c: nat): nat
    requires Sound(s) && c < |s.sizes|
    decreases |ops|
  {
    if ops == [] then 0
    else
      var front := ops[..|ops| - 1];
      RunKeepsSizes(s, front);
      GivenUp(s, front, c) + if GivesUpFull(RunOps(s, front), Last(ops), c) then 1 else 0
  }

  lemma {:induction false} RunKeepsSizes(s: Chunk, ops: seq<Op>)
    requires Sound(s)
    ensures Sound(RunOps(s, ops)) && RunOps(s, ops).sizes == s.sizes
    decreases |ops|
  {
    hide GoodClass, TableSum, Step;
    if ops != [] {
      var front := ops[..|ops| - 1];
      RunKeepsSizes(s, front);
      if Last(ops).c < |s.sizes| {
        StepKeepsSound(RunOps(s, front), Last(ops));
      }
    }
  }

  lemma ReleaseOnlyShrinks(earlier: seq<Run>, s: Chunk, d: nat, idx: nat, b: nat, c: nat, from: seq<nat>)
      returns (r: seq<nat>)
    requires Shaped(s) && c < |s.sizes| && d < |s.sizes| && idx < |Listed(s, d)| && b < |Listed(s, d)[idx].used|
    requires OnlyShrunk(earlier, s.full[c], from)
    ensures OnlyShrunk(earlier, ReleaseBlock(s, d, idx, b).full[c], r)
    ensures |r| >= |from| - (if d == c && LeavesFull(s, c, idx, b) then 1 else 0)
  {
    hide OnlyShrunk, Ones, WithoutAt;
    r := from;
    if d == c && idx >= |s.free[c]| {
      var i := idx - |s.free[c]|;
      assert Listed(s, c)[idx] == s.full[c][i];
      if LeavesFull(s, c, idx, b) {
        r := RemovedOnlyShrinks(earlier, s.full[c], from, i);
      } else {
        ClearedOnlyShrinks(earlier, s.full[c], from, i, b);
      }
    }
  }

  /** One operation. A run leaves the list only when a free clears its last block. */
  lemma StepOnlyShrinks(earlier: seq<Run>, s: Chunk, op: Op, c: nat, from: seq<nat>) returns (r: seq<nat>)
    requires Shaped(s) && c < |s.sizes| && op.c < |s.sizes| && OnlyShrunk(earlier, s.full[c], from)
    ensures Shaped(Step(s, op)) && c < |Step(s, op).full| && OnlyShrunk(earlier, Step(s, op).full[c], r)
    ensures |r| >= |from| - (if GivesUpFull(s, op, c) then 1 else 0)
  {
    hide OnlyShrunk, AllocSmall, Locate;
    r := from;
    match op
    case Alloc(d, g) =>
      AllocAppendsToFull(s, d, g, c);
      LongerOnlyShrinks(earlier, s.full[c], AllocSmall(s, d, g).0.full[c], from);
    case Free(d, p) =>
      var place := Locate(s, d, p);
      if p != NULL && place.Block? {
        r := ReleaseOnlyShrinks(earlier, s, d, place.idx, place.block, c, from);
      }
  }

  /**
   Over every run of operations, the runs of a class that have been full stay on their list, in their order and with at
   most the blocks they had. None of them serves an allocation again, however many blocks it has clear, and at most one
   leaves for each free that clears a run's last block.
   */
  lemma {:induction false} FullRunsOnlyShrink(s: Chunk, ops: seq<Op>, c: nat) returns (from: seq<nat>)
    requires Sound(s) && c < |s.sizes|
    ensures Sound(RunOps(s, ops)) && RunOps(s, ops).sizes == s.sizes
    ensures OnlyShrunk(s.full[c], RunOps(s, ops).full[c], from)
    ensures |from| >= |s.full[c]| - GivenUp(s, ops, c)
    decreases |ops|
  {
    RunKeepsSizes(s, ops);
    hide Step, OnlyShrunk, GoodClass, TableSum, GivesUpFull;
    if ops == [] {
      from := AllStay(s.full[c]);
    } else {
      var front := ops[..|ops| - 1];
      RunKeepsSizes(s, front);
      from := FullRunsOnlyShrink(s, front, c);
      if Last(ops).c < |s.sizes| {
        from := StepOnlyShrinks(s.full[c], RunOps(s, front), Last(ops), c, from);
      }
    }
  }

  /** Nor does any sequence of frees put a run back on the list allocations are served from. */
  lemma {:induction false} FreesOpenNothing(s: Chunk, ops: seq<Op>, c: nat)
    requires Sound(s) && c < |s.sizes| && forall i :: 0 <= i < |ops| ==> ops[i].Free?
    ensures Sound(RunOps(s, ops)) && RunOps(s, ops).sizes == s.sizes
    ensures |RunOps(s, ops).free[c]| <= |s.free[c]|
    decreases |ops|
  {
    RunKeepsSizes(s, ops);
    hide GoodClass, TableSum, Locate;
    if ops != [] {
      var front := ops[..|ops| - 1];
      RunKeepsSizes(s, front);
      FreesOpenNothing(s, front, c);
      assert ops[|ops| - 1] == Last(ops);
      if Last(ops).c < |s.sizes| {
        FreeOpensNothing(RunOps(s, front), Last(ops).c, Last(ops).p, c);
      }
    }
  }

  lemma FreeOpensNothing(s: Chunk, d: nat, p: Word, c: nat)
    requires Shaped(s) && d < |s.sizes| && c < |s.sizes|
    ensures Shaped(FreeSmall(s, d, p)) && |FreeSmall(s, d, p).free[c]| <= |s.free[c]|
    ensures s.free[d] == [] ==> FreeSmall(s, d, p).free == s.free
  {
    hide Locate;
  }
}
