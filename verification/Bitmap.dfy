/** The word arrays of src/utils/bitmap.h, and the set of bits they stand for. */
module Bitmap {
  import opened Words
  import opened Hash

  const WORD_SIZE: int := 64
  const ALL_ONES: Word := 0xFFFF_FFFF_FFFF_FFFF

  /** `bitmap_size` */
  function WordsFor(bits: nat): (n: nat)
    ensures WORD_SIZE * (n - 1) < bits <= WORD_SIZE * n
  {
    (bits + WORD_SIZE - 1) / WORD_SIZE
  }

  // ---------- Single words ----------

  lemma {:induction false} OrBit(a: nat, b: nat, i: nat)
    ensures Bit(BitOr(a, b), i) <==> Bit(a, i) || Bit(b, i)
    decreases i
  {
    if a == 0 || b == 0 {
      ZeroBit(i);
    } else {
      var h := BitOr(a / 2, b / 2);
      var low := if a % 2 == 1 || b % 2 == 1 then 1 else 0;
      assert BitOr(a, b) == 2 * h + low;
      HalfDouble(h, low);
      if i > 0 {
        OrBit(a / 2, b / 2, i - 1);
      }
    }
  }

  lemma {:induction false} AndBit(a: nat, b: nat, i: nat)
    ensures Bit(BitAnd(a, b), i) <==> Bit(a, i) && Bit(b, i)
    decreases i
  {
    if a == 0 || b == 0 {
      ZeroBit(i);
    } else {
      var h := BitAnd(a / 2, b / 2);
      var low := (a % 2) * (b % 2);
      assert low == if a % 2 == 1 && b % 2 == 1 then 1 else 0;
      assert BitAnd(a, b) == 2 * h + low;
      HalfDouble(h, low);
      if i > 0 {
        AndBit(a / 2, b / 2, i - 1);
      }
    }
  }

  lemma HalfDouble(h: nat, low: nat)
    requires low < 2
    ensures (2 * h + low) / 2 == h && (2 * h + low) % 2 == low
  {
  }

  lemma {:induction false} ZeroBit(i: nat)
    ensures !Bit(0, i)
    decreases i
  {
    if i > 0 {
      ZeroBit(i - 1);
    }
  }

  lemma {:induction false} PowerBit(j: nat, i: nat)
    ensures Bit(Pow2(j), i) <==> i == j
    decreases i
  {
    if j > 0 {
      HalfDouble(Pow2(j - 1), 0);
      if i > 0 {
        PowerBit(j - 1, i - 1);
      }
    } else if i > 0 {
      ZeroBit(i - 1);
      assert Pow2(0) / 2 == 0;
    }
  }

  lemma {:induction false} ComplementBit(n: nat, x: nat, i: nat)
    requires x < Pow2(n) && i < n
    ensures Bit(Pow2(n) - 1 - x, i) <==> !Bit(x, i)
    decreases i
  {
    var p := Pow2(n - 1);
    assert Pow2(n) == 2 * p;
    assert (2 * p - 1 - x) / 2 == p - 1 - x / 2 && (2 * p - 1 - x) % 2 == 1 - x % 2;
    if i > 0 {
      ComplementBit(n - 1, x / 2, i - 1);
    }
  }

  lemma Pow2Of64()
    ensures Pow2(64) == U64
  {
    hide Pow2;
    Pow2Of32();
    PowAdds(32, 32);
  }

  lemma {:induction false} OrBound(a: nat, b: nat, n: nat)
    requires a < Pow2(n) && b < Pow2(n)
    ensures BitOr(a, b) < Pow2(n)
    decreases n
  {
    if a != 0 && b != 0 {
      OrBound(a / 2, b / 2, n - 1);
    }
  }

  /** `1ULL << j` */
  function Mask(j: nat): (m: Word)
    requires j < WORD_SIZE
    ensures m == Pow2(j)
  {
    Pow2Of64();
    PowGrows(j, WORD_SIZE);
    Pow2(j)
  }

  /** `w | (1ULL << j)` sets one bit and no other. */
  function SetInWord(w: Word, j: nat): (r: Word)
    requires j < WORD_SIZE
  {
    Pow2Of64();
    OrBound(w, Mask(j), WORD_SIZE);
    BitOr(w, Mask(j))
  }

  lemma SetWordBit(w: Word, j: nat, i: nat)
    requires j < WORD_SIZE
    ensures Bit(SetInWord(w, j), i) <==> i == j || Bit(w, i)
  {
    OrBit(w, Mask(j), i);
    PowerBit(j, i);
  }

  /** `w & ~(1ULL << j)` clears one bit and no other. */
  function ClearInWord(w: Word, j: nat): (r: Word)
    requires j < WORD_SIZE
  {
    BitAnd(w, ALL_ONES - Mask(j))
  }

  lemma ClearWordBit(w: Word, j: nat, i: nat)
    requires j < WORD_SIZE && i < WORD_SIZE
    ensures Bit(ClearInWord(w, j), i) <==> i != j && Bit(w, i)
  {
    Pow2Of64();
    AndBit(w, ALL_ONES - Mask(j), i);
    ComplementBit(WORD_SIZE, Mask(j), i);
    PowerBit(j, i);
  }

  /** A word that is not zero has a set bit. */
  lemma {:induction false} SomeBit(w: nat, n: nat) returns (i: nat)
    requires 0 < w < Pow2(n)
    ensures i < n && Bit(w, i)
    decreases n
  {
    if w % 2 == 1 {
      i := 0;
    } else {
      var k := SomeBit(w / 2, n - 1);
      i := k + 1;
    }
  }

  /** A word is all ones exactly when each of its bits is set. */
  lemma AllBitsSet(w: Word)
    ensures w == ALL_ONES <==> forall i: nat :: i < WORD_SIZE ==> Bit(w, i)
  {
    Pow2Of64();
    forall i: nat | i < WORD_SIZE ensures Bit(ALL_ONES - w, i) <==> !Bit(w, i) {
      ComplementBit(WORD_SIZE, w, i);
    }
    if w == ALL_ONES {
      forall i: nat ensures !Bit(0, i) {
        ZeroBit(i);
      }
    } else {
      var i := SomeBit(ALL_ONES - w, WORD_SIZE);
      ComplementBit(WORD_SIZE, w, i);
      assert !Bit(w, i);
    }
  }

  // ---------- The bits of a word array ----------

  /** The bit of a given index; past the end there is none. */
  predicate At(words: seq<Word>, index: nat) {
    index / WORD_SIZE < |words| && Bit(words[index / WORD_SIZE], index % WORD_SIZE)
  }

  /** How many of the first `n` bits are set. */
  function CountSet(words: seq<Word>, n: nat): (c: nat)
    ensures c <= n
  {
    if n == 0 then 0 else CountSet(words, n - 1) + (if At(words, n - 1) then 1 else 0)
  }

  lemma {:induction false} CountFull(words: seq<Word>, n: nat)
    ensures CountSet(words, n) == n <==> forall i: nat :: i < n ==> At(words, i)
    ensures CountSet(words, n) == 0 <==> forall i: nat :: i < n ==> !At(words, i)
    decreases n
  {
    if n > 0 {
      CountFull(words, n - 1);
    }
  }

  /** Setting a bit of one word sets exactly that index. */
  lemma SetAt(words: seq<Word>, index: nat, i: nat)
    requires index / WORD_SIZE < |words|
    ensures At(SetIndex(words, index), i) <==> i == index || At(words, i)
  {
    hide Bit, SetInWord;
    SameWord(i, index);
    SetWordBit(words[index / WORD_SIZE], index % WORD_SIZE, i % WORD_SIZE);
  }

  lemma ClearAt(words: seq<Word>, index: nat, i: nat)
    requires index / WORD_SIZE < |words|
    ensures At(ClearIndex(words, index), i) <==> i != index && At(words, i)
  {
    hide Bit, ClearInWord;
    SameWord(i, index);
    ClearWordBit(words[index / WORD_SIZE], index % WORD_SIZE, i % WORD_SIZE);
  }

  function SetIndex(words: seq<Word>, index: nat): seq<Word>
    requires index / WORD_SIZE < |words|
  {
    words[index / WORD_SIZE := SetInWord(words[index / WORD_SIZE], index % WORD_SIZE)]
  }

  function ClearIndex(words: seq<Word>, index: nat): seq<Word>
    requires index / WORD_SIZE < |words|
  {
    words[index / WORD_SIZE := ClearInWord(words[index / WORD_SIZE], index % WORD_SIZE)]
  }

  lemma SameWord(i: nat, j: nat)
    ensures i == j <==> i / WORD_SIZE == j / WORD_SIZE && i % WORD_SIZE == j % WORD_SIZE
  {
  }

  lemma IndexOfBit(w: nat, j: nat)
    requires j < WORD_SIZE
    ensures (WORD_SIZE * w + j) / WORD_SIZE == w && (WORD_SIZE * w + j) % WORD_SIZE == j
  {
  }

  // ---------- The operations ----------

  /** `bitmap_get` */
  method Get(a: array<Word>, index: nat) returns (b: bool)
    requires index / WORD_SIZE < a.Length
    ensures b <==> At(a[..], index)
  {
    b := Bit(a[index / WORD_SIZE], index % WORD_SIZE);
  }

  /** `bitmap_set` */
  method Set(a: array<Word>, index: nat)
    requires index / WORD_SIZE < a.Length
    modifies a
    ensures forall i: nat :: At(a[..], i) <==> i == index || At(old(a[..]), i)
  {
    ghost var before := a[..];
    a[index / WORD_SIZE] := SetInWord(a[index / WORD_SIZE], index % WORD_SIZE);
    assert a[..] == SetIndex(before, index);
    forall i: nat ensures At(a[..], i) <==> i == index || At(before, i) {
      SetAt(before, index, i);
    }
  }

  /** `bitmap_clear_bit` */
  method ClearBit(a: array<Word>, index: nat)
    requires index / WORD_SIZE < a.Length
    modifies a
    ensures forall i: nat :: At(a[..], i) <==> i != index && At(old(a[..]), i)
  {
    ghost var before := a[..];
    a[index / WORD_SIZE] := ClearInWord(a[index / WORD_SIZE], index % WORD_SIZE);
    assert a[..] == ClearIndex(before, index);
    forall i: nat ensures At(a[..], i) <==> i != index && At(before, i) {
      ClearAt(before, index, i);
    }
  }

  /** `bitmap_find_first_clear`: the lowest clear index below `bits`, or `bits`. */
  method FindFirstClear(a: array<Word>, bits: nat) returns (index: nat)
    requires a.Length == WordsFor(bits)
    ensures index <= bits
    ensures index < bits ==> !At(a[..], index)
    ensures forall i: nat :: i < index ==> At(a[..], i)
  {
    hide Bit, At;
    var i := 0;
    while i < a.Length
      invariant 0 <= i <= a.Length
      invariant forall k: nat :: k < bits && k < WORD_SIZE * i ==> At(a[..], k)
    {
      if a[i] != ALL_ONES {
        var j := 0;
        while j < WORD_SIZE
          invariant 0 <= j <= WORD_SIZE
          invariant forall k: nat :: k < bits && k < WORD_SIZE * i + j ==> At(a[..], k)
        {
          AtBit(a[..], i, j);
          if !Bit(a[i], j) {
            index := WORD_SIZE * i + j;
            if index < bits {
              return;
            }
          }
          j := j + 1;
        }
      } else {
        AllOnes(a[..], i);
      }
      i := i + 1;
    }
    index := bits;
  }

  lemma AtBit(words: seq<Word>, w: nat, j: nat)
    requires w < |words| && j < WORD_SIZE
    ensures At(words, WORD_SIZE * w + j) <==> Bit(words[w], j)
  {
    IndexOfBit(w, j);
  }

  lemma AllOnes(words: seq<Word>, w: nat)
    requires w < |words| && words[w] == ALL_ONES
    ensures forall k: nat :: WORD_SIZE * w <= k < WORD_SIZE * (w + 1) ==> At(words, k)
  {
    AllBitsSet(words[w]);
    forall k: nat | WORD_SIZE * w <= k < WORD_SIZE * (w + 1) ensures At(words, k) {
      AtBit(words, w, k - WORD_SIZE * w);
    }
  }

  lemma AllZero(words: seq<Word>, w: nat)
    requires w < |words| && words[w] == 0
    ensures forall k: nat :: WORD_SIZE * w <= k < WORD_SIZE * (w + 1) ==> !At(words, k)
  {
    forall k: nat | WORD_SIZE * w <= k < WORD_SIZE * (w + 1) ensures !At(words, k) {
      AtBit(words, w, k - WORD_SIZE * w);
      ZeroBit(k - WORD_SIZE * w);
    }
  }

  /** `bitmap_find_first_set` */
  method FindFirstSet(a: array<Word>, bits: nat) returns (index: nat)
    requires a.Length == WordsFor(bits)
    ensures index <= bits
    ensures index < bits ==> At(a[..], index)
    ensures forall i: nat :: i < index ==> !At(a[..], i)
  {
    hide Bit, At;
    var i := 0;
    while i < a.Length
      invariant 0 <= i <= a.Length
      invariant forall k: nat :: k < bits && k < WORD_SIZE * i ==> !At(a[..], k)
    {
      if a[i] != 0 {
        var j := 0;
        while j < WORD_SIZE
          invariant 0 <= j <= WORD_SIZE
          invariant forall k: nat :: k < bits && k < WORD_SIZE * i + j ==> !At(a[..], k)
        {
          AtBit(a[..], i, j);
          if Bit(a[i], j) {
            index := WORD_SIZE * i + j;
            if index < bits {
              return;
            }
          }
          j := j + 1;
        }
      } else {
        AllZero(a[..], i);
      }
      i := i + 1;
    }
    index := bits;
  }

  /** The set bits of one word, shifted out one by one. */
  function CountWord(w: nat): nat {
    if w == 0 then 0 else w % 2 + CountWord(w / 2)
  }

  /** Bits of a word from the bottom, up to `n`. */
  function CountLow(w: nat, n: nat): nat {
    if n == 0 then 0 else w % 2 + CountLow(w / 2, n - 1)
  }

  lemma {:induction false} CountWordIsLow(w: nat, n: nat)
    requires w < Pow2(n)
    ensures CountWord(w) == CountLow(w, n)
    decreases n
  {
    if n > 0 {
      CountWordIsLow(w / 2, n - 1);
    }
  }

  lemma {:induction false} CountLowTop(w: nat, n: nat)
    ensures CountLow(w, n + 1) == CountLow(w, n) + (if Bit(w, n) then 1 else 0)
    decreases n
  {
    if n > 0 {
      CountLowTop(w / 2, n - 1);
    }
  }

  lemma {:induction false} CountNextWord(words: seq<Word>, w: nat, n: nat)
    requires w < |words| && n <= WORD_SIZE
    ensures CountSet(words, WORD_SIZE * w + n) == CountSet(words, WORD_SIZE * w) + CountLow(words[w], n)
    decreases n
  {
    if n > 0 {
      CountNextWord(words, w, n - 1);
      CountLowTop(words[w], n - 1);
      AtBit(words, w, n - 1);
    }
  }

  /**
   `bitmap_count_set` counts whole words, so the answer is the number of set bits below `bits` only when no bit past
   the end is set.
   */
  method Count(a: array<Word>, bits: nat) returns (count: nat)
    requires a.Length == WordsFor(bits)
    ensures count == CountSet(a[..], WORD_SIZE * WordsFor(bits))
    ensures count == CountSet(a[..], bits) <==> forall i: nat :: i >= bits ==> !At(a[..], i)
  {
    hide Bit, At;
    count := 0;
    var i := 0;
    while i < a.Length
      invariant 0 <= i <= a.Length && count == CountSet(a[..], WORD_SIZE * i)
    {
      var word := a[i];
      while word != 0
        invariant CountSet(a[..], WORD_SIZE * i) + CountWord(a[i]) == count + CountWord(word)
        decreases word
      {
        count := count + word % 2;
        word := word / 2;
      }
      Pow2Of64();
      CountWordIsLow(a[i], WORD_SIZE);
      CountNextWord(a[..], i, WORD_SIZE);
      i := i + 1;
    }
    CountBeyond(a[..], bits, WORD_SIZE * a.Length);
    PastTheEnd(a[..]);
  }

  /** `bitmap_init`: every word of the array is filled, past the last bit too. */
  method Init(a: array<Word>, bits: nat, value: bool)
    requires a.Length == WordsFor(bits)
    modifies a
    ensures a[..] == if value then Filled(bits) else seq(WordsFor(bits), _ => 0)
  {
    var fill := if value then ALL_ONES else 0;
    forall i | 0 <= i < a.Length {
      a[i] := fill;
    }
  }

  function Filled(bits: nat): seq<Word> {
    seq(WordsFor(bits), _ => ALL_ONES)
  }

  /**
   After `bitmap_fill` all `bits` bits are set, but `bitmap_count_set` answers with that number only when it is a
   multiple of the word size: a filled bitmap of one bit counts 64.
   */
  lemma FilledCountIff(bits: nat)
    ensures var whole := CountSet(Filled(bits), WORD_SIZE * WordsFor(bits));
            && CountSet(Filled(bits), bits) == bits
            && whole == WORD_SIZE * WordsFor(bits)
            && (whole == bits <==> bits % WORD_SIZE == 0)
  {
    var words := Filled(bits);
    forall i: nat | i < WORD_SIZE * |words| ensures At(words, i) {
      AllOnes(words, i / WORD_SIZE);
    }
    CountFull(words, bits);
    CountFull(words, WORD_SIZE * |words|);
  }

  lemma OneBitCounts64()
    ensures CountSet(Filled(1), WORD_SIZE * WordsFor(1)) == 64 && CountSet(Filled(1), 1) == 1
  {
    FilledCountIff(1);
  }

  lemma {:induction false} CountBeyond(words: seq<Word>, bits: nat, n: nat)
    requires bits <= n
    ensures CountSet(words, bits) <= CountSet(words, n)
    ensures CountSet(words, n) == CountSet(words, bits) <==> forall i: nat :: bits <= i < n ==> !At(words, i)
    decreases n
  {
    if bits < n {
      CountBeyond(words, bits, n - 1);
    }
  }

  lemma PastTheEnd(words: seq<Word>)
    ensures forall i: nat :: i >= WORD_SIZE * |words| ==> !At(words, i)
  {
  }
}
