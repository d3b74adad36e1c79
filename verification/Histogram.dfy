/** The load generator's fixed-bucket latency histogram, held to the samples it was given. */
module Histogram {
  import opened Core

  const FINE_BUCKETS: nat := 1000
  const COARSE_BUCKETS: nat := 990
  const BUCKETS: nat := FINE_BUCKETS + COARSE_BUCKETS + 1
  const CEILING_US: nat := 100_000

  /** The bucket a latency in microseconds falls into. */
  function Index(micros: nat): (i: nat)
    ensures i < BUCKETS
  {
    if micros < FINE_BUCKETS then micros
    else if micros < CEILING_US then FINE_BUCKETS + (micros - FINE_BUCKETS) / 100
    else FINE_BUCKETS + COARSE_BUCKETS
  }

  /** The latency a bucket reports. */
  function ValueOf(index: nat): nat {
    if index < FINE_BUCKETS then index
    else if index < FINE_BUCKETS + COARSE_BUCKETS then FINE_BUCKETS + (index - FINE_BUCKETS) * 100
    else CEILING_US
  }

  /** Buckets respect order, and report exactly below 1 ms, rounded down to the tenth of a millisecond
      below 100 ms, and no more than that above. */
  lemma BucketError(a: nat, b: nat)
    ensures a <= b ==> Index(a) <= Index(b)
    ensures a < 1000 ==> ValueOf(Index(a)) == a
    ensures 1000 <= a < 100_000 ==> ValueOf(Index(a)) == a - a % 100
    ensures a < CEILING_US ==> ValueOf(Index(a)) <= a < ValueOf(Index(a)) + 100
    ensures a >= 100_000 ==> ValueOf(Index(a)) == 100_000
  {
  }

  /** The tests samples are counted by. */
  datatype Test = Under(v: nat) | UpTo(v: nat) | Equal(v: nat) | InBucket(i: nat) | InBucketUnder(i: nat) {
    predicate Holds(x: nat) {
      match this
      case Under(v) => x < v
      case UpTo(v) => x <= v
      case Equal(v) => x == v
      case InBucket(i) => Index(x) == i
      case InBucketUnder(i) => Index(x) < i
    }
  }

  function Count(samples: seq<nat>, f: Test): nat {
    if samples == [] then 0 else (if f.Holds(samples[0]) then 1 else 0) + Count(samples[1..], f)
  }

  function Sum(samples: seq<nat>): nat {
    if samples == [] then 0 else samples[0] + Sum(samples[1..])
  }

  lemma {:induction false} CountAppend(a: seq<nat>, b: seq<nat>, f: Test)
    ensures Count(a + b, f) == Count(a, f) + Count(b, f)
  {
    if a == [] {
      assert a + b == b;
    } else {
      assert (a + b)[1..] == a[1..] + b;
      CountAppend(a[1..], b, f);
    }
  }

  lemma {:induction false} SumAppend(a: seq<nat>, b: seq<nat>)
    ensures Sum(a + b) == Sum(a) + Sum(b)
  {
    if a == [] {
      assert a + b == b;
    } else {
      assert (a + b)[1..] == a[1..] + b;
      SumAppend(a[1..], b);
    }
  }

  lemma {:induction false} CountMonotone(samples: seq<nat>, f: Test, g: Test)
    requires forall x: nat :: f.Holds(x) ==> g.Holds(x)
    ensures Count(samples, f) <= Count(samples, g) <= |samples|
  {
    if samples != [] { CountMonotone(samples[1..], f, g); }
  }

  /** Splitting one value off a test splits its count. */
  lemma {:induction false} CountSplits(samples: seq<nat>, f: Test, g: Test, h: Test)
    requires forall x: nat :: f.Holds(x) <==> g.Holds(x) || h.Holds(x)
    requires forall x: nat :: !(g.Holds(x) && h.Holds(x))
    ensures Count(samples, f) == Count(samples, g) + Count(samples, h)
  {
    if samples != [] { CountSplits(samples[1..], f, g, h); }
  }

  lemma {:induction false} CountWitness(samples: seq<nat>, f: Test)
    ensures Count(samples, f) > 0 ==> exists x :: x in samples && f.Holds(x)
  {
    if samples != [] {
      CountWitness(samples[1..], f);
      if f.Holds(samples[0]) { assert samples[0] in samples; }
    }
  }

  function Bucketed(samples: seq<nat>, i: nat): nat { Count(samples, InBucket(i)) }
  function BucketedBelow(samples: seq<nat>, i: nat): nat { Count(samples, InBucketUnder(i)) }
  function AtMost(samples: seq<nat>, v: nat): nat { Count(samples, UpTo(v)) }
  function Below(samples: seq<nat>, v: nat): nat { Count(samples, Under(v)) }

  /** `v` is the k-th smallest sample, counting repeats. */
  ghost predicate IsKth(samples: seq<nat>, v: nat, k: nat) {
    v in samples && Below(samples, v) < k <= AtMost(samples, v)
  }

  /** There is a k-th smallest sample for every rank. */
  lemma KthExists(samples: seq<nat>, k: nat) returns (v: nat)
    requires 1 <= k <= |samples|
    ensures IsKth(samples, v, k)
  {
    var top := Largest(samples);
    v := 0;
    NothingCounts(samples, Under(0));
    while AtMost(samples, v) < k
      invariant v <= top && Below(samples, v) < k
      decreases top - v
    {
      if v == top { EverythingCounts(samples, UpTo(top)); }
      CountMonotone(samples, Under(v + 1), UpTo(v));
      v := v + 1;
    }
    CountSplits(samples, UpTo(v), Under(v), Equal(v));
    CountWitness(samples, Equal(v));
  }

  lemma {:induction false} NothingCounts(samples: seq<nat>, f: Test)
    requires forall x: nat :: !f.Holds(x)
    ensures Count(samples, f) == 0
  {
    if samples != [] { NothingCounts(samples[1..], f); }
  }

  lemma {:induction false} EverythingCounts(samples: seq<nat>, f: Test)
    requires forall i :: 0 <= i < |samples| ==> f.Holds(samples[i])
    ensures Count(samples, f) == |samples|
  {
    if samples != [] { EverythingCounts(samples[1..], f); }
  }

  function Largest(samples: seq<nat>): (top: nat)
    ensures forall i :: 0 <= i < |samples| ==> samples[i] <= top
  {
    if samples == [] then 0 else Max(samples[0], Largest(samples[1..]))
  }

  /** The bucket where the running count first reaches `k` is the k-th smallest sample's. */
  lemma KthBucket(samples: seq<nat>, v: nat, k: nat, i: nat)
    requires IsKth(samples, v, k)
    requires BucketedBelow(samples, i) < k <= BucketedBelow(samples, i + 1)
    ensures Index(v) == i
  {
    if Index(v) < i {
      forall x: nat ensures x <= v ==> Index(x) < i { BucketError(x, v); }
      CountMonotone(samples, UpTo(v), InBucketUnder(i));
    } else if Index(v) > i {
      forall x: nat ensures Index(x) < i + 1 ==> x < v { BucketError(v, x); }
      CountMonotone(samples, InBucketUnder(i + 1), Under(v));
    }
  }

  class Histogram {
    const buckets: array<u32>
    var count: nat
    var sumUs: nat
    var maxUs: nat
    /** Every latency recorded, here or in a histogram merged in. */
    ghost var samples: seq<nat>

    constructor ()
      ensures Valid() && samples == [] && fresh(buckets)
    {
      buckets := new u32[BUCKETS](i => 0);
      count, sumUs, maxUs, samples := 0, 0, 0, [];
    }

    ghost predicate Valid()
      reads this, buckets
    {
      && buckets.Length == BUCKETS
      && count == |samples| && sumUs == Sum(samples) && maxUs == Largest(samples)
      && forall i :: 0 <= i < BUCKETS ==> buckets[i] == Bucketed(samples, i)
    }

    method Record(micros: nat)
      requires Valid() && |samples| < U32_MAX
      modifies this, buckets
      ensures Valid() && samples == old(samples) + [micros]
    {
      forall i: nat
        ensures Bucketed(samples + [micros], i) == Bucketed(samples, i) + (if Index(micros) == i then 1 else 0)
      {
        CountAppend(samples, [micros], InBucket(i));
      }
      CountMonotone(samples, InBucket(Index(micros)), InBucketUnder(BUCKETS));
      SumAppend(samples, [micros]);
      LargestAppend(samples, [micros]);
      buckets[Index(micros)] := buckets[Index(micros)] + 1;
      count := count + 1;
      sumUs := sumUs + micros;
      maxUs := Max(maxUs, micros);
      samples := samples + [micros];
    }

    method Merge(other: Histogram)
      requires Valid() && other.Valid() && other != this && other.buckets != buckets
      requires |samples| + |other.samples| <= U32_MAX
      modifies this, buckets
      ensures Valid() && samples == old(samples) + other.samples
    {
      for i := 0 to buckets.Length
        invariant other.Valid() && unchanged(this)
        invariant forall j :: 0 <= j < i ==> buckets[j] == Bucketed(samples + other.samples, j)
        invariant forall j :: i <= j < BUCKETS ==> buckets[j] == Bucketed(samples, j)
      {
        CountAppend(samples, other.samples, InBucket(i));
        CountMonotone(samples + other.samples, InBucket(i), InBucketUnder(BUCKETS));
        buckets[i] := buckets[i] + other.buckets[i];
      }
      SumAppend(samples, other.samples);
      LargestAppend(samples, other.samples);
      count := count + other.count;
      sumUs := sumUs + other.sumUs;
      maxUs := Max(maxUs, other.maxUs);
      samples := samples + other.samples;
    }

    /** The latency reported for a rank: the bucket value of the target-th smallest sample. */
    method Percentile(target: nat) returns (us: nat)
      requires Valid()
      ensures count == 0 || target == 0 ==> us == 0
      ensures 1 <= target <= count ==> exists v :: IsKth(samples, v, target) && us == ValueOf(Index(v))
      ensures forall v :: 1 <= target <= count && IsKth(samples, v, target) ==> us == ValueOf(Index(v))
      ensures target > count > 0 ==> us == maxUs
    {
      if count == 0 {
        return 0;
      }
      var seen := 0;
      NothingCounts(samples, InBucketUnder(0));
      for i := 0 to buckets.Length
        invariant seen == BucketedBelow(samples, i)
        invariant i > 0 ==> seen < target
      {
        CountSplits(samples, InBucketUnder(i + 1), InBucketUnder(i), InBucket(i));
        CountMonotone(samples, InBucketUnder(i + 1), InBucketUnder(BUCKETS));
        seen := seen + buckets[i];
        if seen >= target {
          forall v | 1 <= target <= count && IsKth(samples, v, target)
            ensures Index(v) == i
          {
            KthBucket(samples, v, target, i);
          }
          if 1 <= target <= count { ghost var v := KthExists(samples, target); }
          return ValueOf(i);
        }
      }
      EverythingCounts(samples, InBucketUnder(BUCKETS));
      us := maxUs;
    }
  }

  lemma {:induction false} LargestAppend(a: seq<nat>, b: seq<nat>)
    ensures Largest(a + b) == Max(Largest(a), Largest(b))
  {
    if a == [] {
      assert a + b == b;
    } else {
      assert (a + b)[1..] == a[1..] + b;
      LargestAppend(a[1..], b);
    }
  }
}
