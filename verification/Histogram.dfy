/** The latency histogram of src/debug/stats_collector.h. */
module Histogram {
  import opened Words
  import opened Seqs

  const BUCKET_SIZE: int := 16
  const MAX_BUCKETS: int := 64

  /** The bucket of a sample; samples past the end go to the last one. */
  function BucketOf(value: Word): (b: nat)
    ensures b < MAX_BUCKETS && b * BUCKET_SIZE <= value
    ensures b < MAX_BUCKETS - 1 ==> value < (b + 1) * BUCKET_SIZE
  {
    var b := value / BUCKET_SIZE;
    if b >= MAX_BUCKETS then MAX_BUCKETS - 1 else b
  }

  // ---------- What has been recorded ----------

  function InBucket(samples: seq<Word>, b: nat): nat {
    if samples == [] then 0
    else InBucket(samples[..|samples| - 1], b) + (if BucketOf(Last(samples)) == b then 1 else 0)
  }

  /** How many samples lie in the first `n` buckets. */
  function Below(samples: seq<Word>, n: nat): nat {
    if samples == [] then 0
    else Below(samples[..|samples| - 1], n) + (if BucketOf(Last(samples)) < n then 1 else 0)
  }

  function Total(samples: seq<Word>): nat {
    if samples == [] then 0 else Total(samples[..|samples| - 1]) + Last(samples)
  }

  function MaxOf(samples: seq<Word>): (m: Word)
    ensures forall i :: 0 <= i < |samples| ==> samples[i] <= m
    ensures samples == [] ==> m == 0
    ensures samples != [] ==> m in samples
  {
    if samples == [] then 0
    else
      var m := MaxOf(samples[..|samples| - 1]);
      if |samples| == 1 || Last(samples) > m then Last(samples) else m
  }

  function MinOf(samples: seq<Word>): (m: Word)
    requires samples != []
    ensures m in samples && forall i :: 0 <= i < |samples| ==> m <= samples[i]
  {
    if |samples| == 1 then samples[0]
    else
      var m := MinOf(samples[..|samples| - 1]);
      if Last(samples) < m then Last(samples) else m
  }

  /** What `min_ns` holds: a recorded zero counts as "nothing yet". */
  function MinField(samples: seq<Word>): Word {
    if samples == [] then 0
    else
      var m := MinField(samples[..|samples| - 1]);
      if Last(samples) < m || m == 0 then Last(samples) else m
  }

  lemma {:induction false} MinFieldWithoutZero(samples: seq<Word>)
    requires samples != [] && 0 !in samples
    ensures MinField(samples) == MinOf(samples) > 0
    decreases |samples|
  {
    var front := samples[..|samples| - 1];
    if front != [] {
      assert forall i :: 0 <= i < |front| ==> front[i] == samples[i];
      MinFieldWithoutZero(front);
    } else {
      assert MinField(front) == 0;
    }
  }

  lemma {:induction false} MinFieldAfterLast(samples: seq<Word>)
    requires samples != [] && Last(samples) != 0
    ensures MinField(samples) != 0
    decreases |samples|
  {
  }

  /** `min_ns` is the smallest sample exactly when no sample is zero or the latest one is. */
  lemma {:induction false} MinIsMinimumIff(samples: seq<Word>)
    requires samples != []
    ensures MinField(samples) == MinOf(samples) <==> 0 !in samples || Last(samples) == 0
  {
    if 0 !in samples {
      MinFieldWithoutZero(samples);
    } else {
      assert MinOf(samples) == 0;
      if Last(samples) != 0 {
        MinFieldAfterLast(samples);
      }
    }
  }

  /** A zero and then a five: the field says five. */
  lemma MinFieldMissesZero()
    ensures MinField([0, 5]) == 5 && MinOf([0, 5]) == 0
  {
    assert [0, 5][..1] == [0];
    assert MinField([0]) == 0 && MinOf([0]) == 0;
  }

  // ---------- Percentiles ----------

  lemma {:induction false} BelowStep(samples: seq<Word>, n: nat)
    ensures Below(samples, n + 1) == Below(samples, n) + InBucket(samples, n)
    decreases |samples|
  {
    if samples != [] {
      BelowStep(samples[..|samples| - 1], n);
    }
  }

  lemma {:induction false} BelowEnds(samples: seq<Word>)
    ensures Below(samples, 0) == 0 && Below(samples, MAX_BUCKETS) == |samples|
    decreases |samples|
  {
    if samples != [] {
      BelowEnds(samples[..|samples| - 1]);
    }
  }

  lemma {:induction false} BelowMonotone(samples: seq<Word>, a: nat, b: nat)
    requires a <= b
    ensures Below(samples, a) <= Below(samples, b)
    decreases |samples|
  {
    if samples != [] {
      BelowMonotone(samples[..|samples| - 1], a, b);
    }
  }

  /** The bucket at which the cumulative count reaches the target. */
  predicate ReachedAt(samples: seq<Word>, target: nat, b: nat) {
    b < MAX_BUCKETS && Below(samples, b + 1) >= target && (b == 0 || Below(samples, b) < target)
  }

  ghost predicate Sorted(s: seq<Word>) {
    forall i, j :: 0 <= i < j < |s| ==> s[i] <= s[j]
  }

  lemma BucketMonotone(a: Word, b: Word)
    requires a <= b
    ensures BucketOf(a) <= BucketOf(b)
  {
  }

  /** In a sorted sequence the samples of the first buckets come first. */
  lemma {:induction false} SortedBelow(t: seq<Word>, n: nat, i: nat)
    requires Sorted(t) && i < |t|
    ensures BucketOf(t[i]) < n <==> i < Below(t, n)
    decreases |t|
  {
    var front := t[..|t| - 1];
    BelowAtMost(front, n);
    if i < |front| {
      SortedBelow(front, n, i);
      BucketMonotone(t[i], Last(t));
      if BucketOf(Last(t)) < n {
        AllBelow(front, n, BucketOf(Last(t)));
      }
    } else if BucketOf(Last(t)) < n {
      AllBelow(front, n, BucketOf(Last(t)));
    }
  }

  lemma {:induction false} BelowAtMost(s: seq<Word>, n: nat)
    ensures Below(s, n) <= |s|
    decreases |s|
  {
    if s != [] {
      BelowAtMost(s[..|s| - 1], n);
    }
  }

  lemma {:induction false} AllBelow(s: seq<Word>, n: nat, b: nat)
    requires b < n && forall i :: 0 <= i < |s| ==> BucketOf(s[i]) <= b
    ensures Below(s, n) == |s|
    decreases |s|
  {
    if s != [] {
      AllBelow(s[..|s| - 1], n, b);
    }
  }

  lemma {:induction false} BelowWithout(s: seq<Word>, j: nat, n: nat)
    requires j < |s|
    ensures Below(s, n) == Below(s[..j] + s[j + 1..], n) + (if BucketOf(s[j]) < n then 1 else 0)
    decreases |s|
  {
    var front := s[..|s| - 1];
    var r := s[..j] + s[j + 1..];
    if j < |front| {
      BelowWithout(front, j, n);
      assert r[..|r| - 1] == front[..j] + front[j + 1..];
      assert Last(r) == Last(s);
    } else {
      assert r == front;
    }
  }

  /** The count does not depend on the order of the samples. */
  lemma {:induction false} BelowPermuted(a: seq<Word>, b: seq<Word>, n: nat)
    requires multiset(a) == multiset(b)
    ensures Below(a, n) == Below(b, n)
    decreases |a|
  {
    assert |a| == |multiset(a)| == |multiset(b)| == |b|;
    if a != [] {
      var front, x := a[..|a| - 1], Last(a);
      assert a == front + [x];
      assert x in multiset(b);
      var j :| 0 <= j < |b| && b[j] == x;
      var rest := b[..j] + b[j + 1..];
      assert b == b[..j] + [x] + b[j + 1..];
      assert multiset(front) == multiset(a) - multiset{x};
      assert multiset(rest) == multiset(b) - multiset{x};
      BelowPermuted(front, rest, n);
      BelowWithout(b, j, n);
    }
  }

  /** The bucket reached is that of the target-th smallest sample, in whatever way the samples are sorted. */
  lemma ReachedIsRank(samples: seq<Word>, t: seq<Word>, target: nat, b: nat)
    requires ReachedAt(samples, target, b) && Sorted(t) && multiset(t) == multiset(samples)
    requires 1 <= target <= |samples|
    ensures |t| == |samples| && BucketOf(t[target - 1]) == b
  {
    assert |t| == |multiset(t)| == |samples|;
    BelowPermuted(samples, t, b);
    BelowPermuted(samples, t, b + 1);
    BelowEnds(samples);
    SortedBelow(t, b, target - 1);
    SortedBelow(t, b + 1, target - 1);
  }

  /** The value read off is at most 16 below the exact percentile, unless that lies past the last bucket. */
  lemma PercentileError(samples: seq<Word>, t: seq<Word>, target: nat, b: nat)
    requires ReachedAt(samples, target, b) && Sorted(t) && multiset(t) == multiset(samples)
    requires 1 <= target <= |samples|
    ensures |t| == |samples| && 16 * b <= t[target - 1]
    ensures b < 63 ==> t[target - 1] < 16 * b + 16
  {
    ReachedIsRank(samples, t, target, b);
  }

  /** A target of zero, which both percentiles have exactly for a single sample, is reached in the first bucket. */
  lemma LoneSampleReadsZero(samples: seq<Word>, b: nat)
    requires samples != []
    ensures |samples| / 2 == 0 <==> |samples| == 1
    ensures |samples| * 99 / 100 == 0 <==> |samples| == 1
    ensures |samples| == 1 && (ReachedAt(samples, |samples| / 2, b) || ReachedAt(samples, |samples| * 99 / 100, b)) ==>
              b == 0
  {
  }

  lemma LaterTarget(samples: seq<Word>, a: nat, b: nat, i: nat, j: nat)
    requires a <= b && ReachedAt(samples, a, i) && ReachedAt(samples, b, j)
    ensures i <= j
  {
    if j < i {
      BelowMonotone(samples, j + 1, i);
    }
  }

  /** A bucket that is reached has a sample, so its lower edge is at most the maximum. */
  lemma {:induction false} SomeSample(samples: seq<Word>, b: nat)
    requires Below(samples, b) < Below(samples, b + 1)
    ensures b * BUCKET_SIZE <= MaxOf(samples)
    decreases |samples|
  {
    var front := samples[..|samples| - 1];
    if BucketOf(Last(samples)) != b {
      SomeSample(front, b);
      var i :| 0 <= i < |front| && front[i] == MaxOf(front);
      assert samples[i] == front[i];
    } else {
      assert samples[|samples| - 1] == Last(samples);
    }
  }

  lemma ReachedWithinMax(samples: seq<Word>, target: nat, b: nat)
    requires ReachedAt(samples, target, b)
    ensures b * BUCKET_SIZE <= MaxOf(samples)
  {
    if b > 0 {
      SomeSample(samples, b);
    }
  }

  /** What one more sample does to everything that is kept. */
  lemma OneMore(samples: seq<Word>, value: Word)
    ensures forall b :: 0 <= b < MAX_BUCKETS ==>
              InBucket(samples + [value], b) == InBucket(samples, b) + (if BucketOf(value) == b then 1 else 0)
    ensures Total(samples + [value]) == Total(samples) + value
    ensures MaxOf(samples + [value]) == if value > MaxOf(samples) then value else MaxOf(samples)
    ensures MinField(samples + [value]) ==
            if value < MinField(samples) || MinField(samples) == 0 then value else MinField(samples)
  {
    assert (samples + [value])[..|samples|] == samples;
  }

  /** `struct latency_histogram` */
  class LatencyHistogram {
    const buckets: array<nat>
    var totalSamples: nat
    var sumNs: nat
    var minNs: Word
    var maxNs: Word
    /** Everything recorded so far. */
    ghost var samples: seq<Word>

    ghost predicate Valid()
      reads this, buckets
    {
      && buckets.Length == MAX_BUCKETS
      && (forall b :: 0 <= b < MAX_BUCKETS ==> buckets[b] == InBucket(samples, b))
      && totalSamples == |samples| && sumNs == Total(samples)
      && minNs == MinField(samples) && maxNs == MaxOf(samples)
    }

    constructor ()
      ensures Valid() && samples == [] && fresh(buckets)
    {
      buckets := new nat[MAX_BUCKETS](_ => 0);
      totalSamples, sumNs, minNs, maxNs := 0, 0, 0, 0;
      samples := [];
    }

    /** `latency_histogram_add` */
    method Add(value: Word)
      requires Valid()
      modifies this, buckets
      ensures Valid() && samples == old(samples) + [value]
    {
      hide InBucket, Total, MinField, MaxOf;
      var b := value / BUCKET_SIZE;
      if b >= MAX_BUCKETS {
        b := MAX_BUCKETS - 1;
      }
      OneMore(samples, value);
      buckets[b] := buckets[b] + 1;
      totalSamples := totalSamples + 1;
      sumNs := sumNs + value;
      if value < minNs || minNs == 0 {
        minNs := value;
      }
      if value > maxNs {
        maxNs := value;
      }
      samples := samples + [value];
    }

    /** The scan of both percentiles: the loop never runs off the end. */
    method Scan(target: nat) returns (b: nat)
      requires Valid() && target <= |samples|
      ensures ReachedAt(samples, target, b)
    {
      hide InBucket, Below, MaxOf;
      BelowEnds(samples);
      var cumulative := 0;
      b := 0;
      while b < MAX_BUCKETS
        invariant 0 <= b <= MAX_BUCKETS && cumulative == Below(samples, b)
        invariant b > 0 ==> cumulative < target
      {
        BelowStep(samples, b);
        cumulative := cumulative + buckets[b];
        if cumulative >= target {
          return;
        }
        b := b + 1;
      }
    }

    /** `latency_histogram_get_p50` */
    method GetP50() returns (p: Word)
      requires Valid()
      ensures samples == [] ==> p == 0
      ensures samples != [] ==>
                p % BUCKET_SIZE == 0 && ReachedAt(samples, |samples| / 2, p / BUCKET_SIZE) && p <= MaxOf(samples)
    {
      hide ReachedAt, MaxOf;
      if totalSamples == 0 {
        return 0;
      }
      var b := Scan(totalSamples / 2);
      ReachedWithinMax(samples, totalSamples / 2, b);
      p := b * BUCKET_SIZE;
    }

    /** `latency_histogram_get_p99` */
    method GetP99() returns (p: Word)
      requires Valid()
      ensures samples == [] ==> p == 0
      ensures samples != [] ==>
                p % BUCKET_SIZE == 0 && ReachedAt(samples, |samples| * 99 / 100, p / BUCKET_SIZE) && p <= MaxOf(samples)
    {
      hide ReachedAt, MaxOf;
      if totalSamples == 0 {
        return 0;
      }
      var b := Scan(totalSamples * 99 / 100);
      ReachedWithinMax(samples, totalSamples * 99 / 100, b);
      p := b * BUCKET_SIZE;
    }
  }

  /** The median is never above the 99th percentile. */
  lemma MedianBelowP99(samples: seq<Word>, p50: nat, p99: nat)
    requires samples != []
    requires ReachedAt(samples, |samples| / 2, p50 / BUCKET_SIZE) && p50 % BUCKET_SIZE == 0
    requires ReachedAt(samples, |samples| * 99 / 100, p99 / BUCKET_SIZE) && p99 % BUCKET_SIZE == 0
    ensures p50 <= p99
  {
    LaterTarget(samples, |samples| / 2, |samples| * 99 / 100, p50 / BUCKET_SIZE, p99 / BUCKET_SIZE);
  }

  /** The buckets add up to the number of samples. */
  lemma BucketsAddUp(samples: seq<Word>, counts: seq<nat>)
    requires |counts| == MAX_BUCKETS && forall b :: 0 <= b < MAX_BUCKETS ==> counts[b] == InBucket(samples, b)
    ensures SumOf(counts) == |samples|
  {
    BelowEnds(samples);
    PrefixSum(samples, counts, MAX_BUCKETS);
    assert counts[..MAX_BUCKETS] == counts;
  }

  function SumOf(counts: seq<nat>): nat {
    if counts == [] then 0 else SumOf(counts[..|counts| - 1]) + Last(counts)
  }

  lemma {:induction false} PrefixSum(samples: seq<Word>, counts: seq<nat>, n: nat)
    requires n <= |counts| && forall b :: 0 <= b < |counts| ==> counts[b] == InBucket(samples, b)
    ensures SumOf(counts[..n]) == Below(samples, n)
    decreases n
  {
    if n == 0 {
      BelowEnds(samples);
    } else {
      PrefixSum(samples, counts, n - 1);
      BelowStep(samples, n - 1);
      assert counts[..n][..n - 1] == counts[..n - 1];
    }
  }
}
