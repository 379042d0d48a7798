/** The histogram of cycle counts. Bucket boundaries are computed in 64-bit arithmetic from a
    range and a step that are cut to 32-bit signed integers on the way. */
module Histogram {
  import opened Bits

  function ToInt32(x: int): (r: int)
    ensures -0x8000_0000 <= r < 0x8000_0000
  {
    if x % U32 < 0x8000_0000 then x % U32 else x % U32 - U32
  }

  function Wrap(x: int): (r: Word) { x % U64 }

  function Range(min: Word, max: Word): int { ToInt32(Wrap(max - min + 1)) }

  function StepOf(range: int, n: nat): int
    requires n > 0
  {
    ToInt32((Wrap(range) - Wrap(range) % n) / n)
  }

  /** The lower boundary of bucket j. */
  function Bound(min: Word, step: int, j: nat): Word { Wrap(min + j * step) }

  // ----- what the buckets hold -------------------------------------------------------------------

  /** Word d is counted in bucket j of n + 1; the last bucket has no upper boundary. */
  predicate Hits(min: Word, step: int, n: nat, d: Word, j: nat) {
    Bound(min, step, j) <= d && (j < n ==> d < Bound(min, step, j + 1))
  }

  function Tally(min: Word, step: int, n: nat, data: seq<Word>, j: nat): (r: nat)
    ensures r <= |data|
  {
    if data == [] then 0
    else
      var last := |data| - 1;
      Tally(min, step, n, data[..last], j) + if Hits(min, step, n, data[last], j) then 1 else 0
  }

  /** The contents of buckets 0 to k - 1 together. */
  function Total(min: Word, step: int, n: nat, data: seq<Word>, k: nat): nat {
    if k == 0 then 0 else Total(min, step, n, data, k - 1) + Tally(min, step, n, data, k - 1)
  }

  /** In how many of the buckets 0 to k - 1 one sample is counted. */
  function Counted(min: Word, step: int, n: nat, d: Word, k: nat): nat {
    if k == 0 then 0
    else Counted(min, step, n, d, k - 1) + if Hits(min, step, n, d, k - 1) then 1 else 0
  }

  /** How often the boundaries 0, ..., k come back down to d after having passed it. */
  function Reentries(min: Word, step: int, d: Word, k: nat): (r: nat)
    ensures r <= k
  {
    if k == 0 then 0
    else
      Reentries(min, step, d, k - 1)
      + if Bound(min, step, k - 1) > d && Bound(min, step, k) <= d then 1 else 0
  }

  function AllReentries(min: Word, step: int, n: nat, data: seq<Word>): nat {
    if data == [] then 0
    else AllReentries(min, step, n, data[..|data| - 1]) + Reentries(min, step, data[|data| - 1], n)
  }

  function Started(min: Word, step: int, d: Word, j: nat): nat {
    if Bound(min, step, j) <= d then 1 else 0
  }

  lemma {:induction false} CountedTelescopes(min: Word, step: int, n: nat, d: Word, k: nat)
    requires k <= n
    ensures Counted(min, step, n, d, k) + Started(min, step, d, k) ==
            Started(min, step, d, 0) + Reentries(min, step, d, k)
  {
    if k > 0 {
      CountedTelescopes(min, step, n, d, k - 1);
    }
  }

  /** A sample not below `min` is counted once, and once more for every re-entry. */
  lemma CountedExactly(min: Word, step: int, n: nat, d: Word)
    requires min <= d
    ensures Counted(min, step, n, d, n + 1) == 1 + Reentries(min, step, d, n)
  {
    CountedTelescopes(min, step, n, d, n);
    assert Bound(min, step, 0) == min by {
      ResidueOf(min, 0, min, U64);
    }
  }

  lemma {:induction false} TotalGrows(min: Word, step: int, n: nat, data: seq<Word>, k: nat)
    requires data != []
    ensures Total(min, step, n, data, k) ==
            Total(min, step, n, data[..|data| - 1], k) + Counted(min, step, n, data[|data| - 1], k)
  {
    if k > 0 {
      TotalGrows(min, step, n, data, k - 1);
    }
  }

  lemma {:induction false} TotalOfNone(min: Word, step: int, n: nat, k: nat)
    ensures Total(min, step, n, [], k) == 0
  {
    if k > 0 {
      TotalOfNone(min, step, n, k - 1);
    }
  }

  /** All buckets together hold one entry for each sample and one for each re-entry: whatever
      the step, and however its computation was cut. */
  lemma {:induction false} TotalExact(min: Word, step: int, n: nat, data: seq<Word>)
    requires forall d :: d in data ==> min <= d
    ensures Total(min, step, n, data, n + 1) == |data| + AllReentries(min, step, n, data)
  {
    if data == [] {
      TotalOfNone(min, step, n, n + 1);
    } else {
      var last := |data| - 1;
      assert data[last] in data && forall d :: d in data[..last] ==> d in data;
      TotalExact(min, step, n, data[..last]);
      TotalGrows(min, step, n, data, n + 1);
      CountedExactly(min, step, n, data[last]);
    }
  }

  /** The boundaries, once above d, stay above d. */
  ghost predicate StaysAbove(min: Word, step: int, d: Word, n: nat) {
    forall j: nat :: j < n && Bound(min, step, j) > d ==> Bound(min, step, j + 1) > d
  }

  ghost predicate NoReentry(min: Word, step: int, n: nat, data: seq<Word>) {
    forall d :: d in data ==> StaysAbove(min, step, d, n)
  }

  lemma {:induction false} ReentriesZero(min: Word, step: int, d: Word, k: nat)
    ensures Reentries(min, step, d, k) == 0 <==> StaysAbove(min, step, d, k)
  {
    if k > 0 {
      ReentriesZero(min, step, d, k - 1);
    }
  }

  lemma {:induction false} AllReentriesZero(min: Word, step: int, n: nat, data: seq<Word>)
    ensures AllReentries(min, step, n, data) == 0 <==> NoReentry(min, step, n, data)
  {
    if data != [] {
      var last := |data| - 1;
      assert data == data[..last] + [data[last]];
      AllReentriesZero(min, step, n, data[..last]);
      ReentriesZero(min, step, data[last], n);
    }
  }

  /** Every sample is in exactly one bucket, so the buckets sum to the number of samples, if and
      only if no boundary comes back down to a sample. */
  lemma ConservedIff(min: Word, step: int, n: nat, data: seq<Word>)
    requires forall d :: d in data ==> min <= d
    ensures Total(min, step, n, data, n + 1) == |data| <==> NoReentry(min, step, n, data)
  {
    TotalExact(min, step, n, data);
    AllReentriesZero(min, step, n, data);
  }

  // ----- when no boundary comes back --------------------------------------------------------------------

  lemma StepTimes(step: int, j: nat, n: nat)
    requires j <= n && -0x8000_0000 <= step < 0x8000_0000
    ensures step >= 0 ==> 0 <= j * step <= n * 0x8000_0000
    ensures step < 0 ==> -(n * 0x8000_0000) <= j * step <= 0
  {
    MulMonotone(j, n, 0x8000_0000);
    if step >= 0 {
      MulMonotone(step, 0x8000_0000, j);
    } else {
      MulMonotone(-0x8000_0000, step, j);
    }
  }

  lemma BoundAbove(min: Word, step: int, n: nat, j: nat, d: Word)
    requires j < n && min <= d && d + n * 0x8000_0000 < U64
    requires -0x8000_0000 <= step < 0x8000_0000 && Bound(min, step, j) > d
    ensures Bound(min, step, j + 1) > d
  {
    StepTimes(step, j, n);
    StepTimes(step, j + 1, n);
    assert (j + 1) * step == j * step + step;
    var x, y := min + j * step, min + (j + 1) * step;
    if step >= 0 {
      ResidueOf(x, 0, x, U64);
      ResidueOf(y, 0, y, U64);
    } else {
      assert x < 0 by {
        if x >= 0 {
          ResidueOf(x, 0, x, U64);
        }
      }
      ResidueOf(y, -1, y + U64, U64);
    }
  }

  /** With samples that leave room for the buckets below 2^64, nothing is lost or counted
      twice: even when the range does not fit an int and the step comes out negative. */
  lemma ConservedBelow(min: Word, step: int, n: nat, data: seq<Word>)
    requires -0x8000_0000 <= step < 0x8000_0000
    requires forall d :: d in data ==> min <= d && d + n * 0x8000_0000 < U64
    ensures Total(min, step, n, data, n + 1) == |data|
  {
    forall d | d in data ensures StaysAbove(min, step, d, n) {
      forall j: nat | j < n && Bound(min, step, j) > d ensures Bound(min, step, j + 1) > d {
        BoundAbove(min, step, n, j, d);
      }
    }
    ConservedIff(min, step, n, data);
  }

  lemma StepIsQuotient(range: nat, n: nat)
    requires n > 0 && range < 0x8000_0000
    ensures StepOf(range, n) == range / n && n * (range / n) <= range
  {
    var q, r := range / n, range % n;
    assert range == q * n + r;
    ResidueOf(range, 0, range, U64);
    ResidueOf(range - r, q, 0, n);
    assert q <= range by {
      MulMonotone(1, n, q);
    }
    ResidueOf(q, 0, q, U32);
  }

  lemma SmallBound(min: Word, range: nat, n: nat, j: nat)
    requires min <= U32 && range < 0x8000_0000 && n > 0 && j <= n && n * (range / n) <= range
    ensures Bound(min, range / n, j) == min + j * (range / n)
  {
    MulMonotone(j, n, range / n);
    ResidueOf(min + j * (range / n), 0, min + j * (range / n), U64);
  }

  lemma RangeExact(min: Word, max: Word)
    requires min <= max && max - min + 1 < 0x8000_0000
    ensures Range(min, max) == max - min + 1
  {
    var range := max - min + 1;
    ResidueOf(range, 0, range, U64);
    ResidueOf(range, 0, range, U32);
  }

  lemma SmallNext(min: Word, range: nat, n: nat, j: nat)
    requires min <= U32 && range < 0x8000_0000 && n > 0 && j < n && n * (range / n) <= range
    ensures Bound(min, range / n, j) <= Bound(min, range / n, j + 1)
  {
    SmallBound(min, range, n, j);
    SmallBound(min, range, n, j + 1);
    MulMonotone(j, j + 1, range / n);
  }

  lemma SmallStaysAbove(min: Word, range: nat, n: nat, d: Word)
    requires min <= U32 && range < 0x8000_0000 && n > 0
    ensures StaysAbove(min, StepOf(range, n), d, n)
  {
    StepIsQuotient(range, n);
    forall j: nat | j < n && Bound(min, range / n, j) > d ensures Bound(min, range / n, j + 1) > d {
      SmallNext(min, range, n, j);
    }
  }

  /** Whenever the range fits an int, for every positive number of buckets, each sample is in
      exactly one bucket. */
  lemma ConservedWhenRangeFits(min: Word, max: Word, n: nat, data: seq<Word>)
    requires n > 0 && IsMin(min, data) && IsMax(max, data) && max - min + 1 < 0x8000_0000
    ensures Total(min, StepOf(Range(min, max), n), n, data, n + 1) == |data|
  {
    forall d | d in data ensures StaysAbove(min, StepOf(Range(min, max), n), d, n) {
      RangeExact(min, max);
      SmallStaysAbove(min, max - min + 1, n, d);
    }
    ConservedIff(min, StepOf(Range(min, max), n), n, data);
  }

  /** The bucket of a sample that lies `above` the minimum, by division. */
  function BucketOf(above: nat, step: nat, n: nat): nat {
    if step == 0 || above / step > n then n else above / step
  }

  lemma QuotientIs(x: nat, s: nat, j: nat)
    requires s > 0
    ensures j * s <= x <==> j <= x / s
  {
    var q, r := x / s, x % s;
    assert x == q * s + r;
    if j <= q {
      MulMonotone(j, q, s);
    } else {
      MulGap(q, j, s);
    }
  }

  lemma HitsByDivision(min: Word, d: Word, step: nat, n: nat, j: nat)
    requires min <= d && j <= n && Bound(min, step, j) == min + j * step
    requires j < n ==> Bound(min, step, j + 1) == min + (j + 1) * step
    ensures Hits(min, step, n, d, j) <==> j == BucketOf(d - min, step, n)
  {
    if step > 0 {
      QuotientIs(d - min, step, j);
      QuotientIs(d - min, step, j + 1);
    }
  }

  lemma StepInRange(min: Word, max: Word, n: nat, range: nat)
    requires n > 0 && min <= max && range == max - min + 1 < 0x8000_0000
    ensures StepOf(Range(min, max), n) == range / n
  {
    RangeExact(min, max);
    StepIsQuotient(range, n);
  }

  /** Whenever the range fits an int, the buckets are what a histogram should be: the step is the range
      divided by the number of buckets, and each sample is counted in the bucket that division gives,
      the last one taking what is left over. */
  lemma BucketsByDivision(min: Word, max: Word, n: nat, d: Word, j: nat, range: nat, step: nat)
    requires n > 0 && min <= U32 && min <= d <= max && range == max - min + 1 < 0x8000_0000 && j <= n
    requires step == range / n
    ensures StepOf(Range(min, max), n) == step
    ensures Hits(min, step, n, d, j) <==> j == BucketOf(d - min, step, n)
  {
    StepInRange(min, max, n, range);
    StepIsQuotient(range, n);
    SmallBound(min, range, n, j);
    if j < n {
      SmallBound(min, range, n, j + 1);
    }
    HitsByDivision(min, d, step, n, j);
  }

  lemma TwoSamples(min: Word, step: int, n: nat, a: Word, b: Word)
    ensures AllReentries(min, step, n, [a, b]) == Reentries(min, step, a, n) + Reentries(min, step, b, n)
  {
    var data := [a, b];
    assert data[..1] == [a] && [a][..0] == [];
    assert AllReentries(min, step, n, [a]) == Reentries(min, step, a, n);
  }

  lemma ThriceStep(last: Word)
    requires last == 0xffff_ffff_ffff_fffe
    ensures StepOf(Range(0, last), 2) == -1
  {
    assert Range(0, last) == -1;
    assert StepOf(-1, 2) == -1;
  }

  lemma BoundBelowZero(j: nat)
    requires 0 < j < U64
    ensures Bound(0, -1, j) == U64 - j
  {
    var x: int := 0 - j;
    ResidueOf(x, -1, U64 - j, U64);
  }

  lemma OneReturn(d: Word, one: nat, two: nat)
    requires one == 1 && two == 2 && Bound(0, -1, 0) <= d < Bound(0, -1, one)
    ensures Reentries(0, -1, d, two) == if Bound(0, -1, two) <= d then 1 else 0
  {
    assert Reentries(0, -1, d, one) == 0;
  }

  lemma ThriceReturns(last: Word, n: nat)
    requires last == 0xffff_ffff_ffff_fffe && n == 2
    ensures Reentries(0, -1, 0, n) == 0 && Reentries(0, -1, last, n) == 1
  {
    var one: nat := 1;
    BoundBelowZero(one);
    BoundBelowZero(n);
    ResidueOf(0, 0, 0, U64);
    OneReturn(0, one, n);
    OneReturn(last, one, n);
  }

  /** Without either it fails: the samples 0 and 2^64 - 2 in two buckets are counted three
      times. */
  lemma CountedThrice(last: Word, n: nat)
    requires last == 0xffff_ffff_ffff_fffe && n == 2
    ensures var step := StepOf(Range(0, last), n);
            step == -1 && Total(0, step, n, [0, last], n + 1) == 3
  {
    ThriceStep(last);
    ThriceReturns(last, n);
    TwoSamples(0, -1, n, 0, last);
    TotalExact(0, -1, n, [0, last]);
  }

  // ----- the loops -----------------------------------------------------------------------------------------

  predicate IsMin(min: Word, data: seq<Word>) {
    && min <= U32 && (forall d :: d in data ==> min <= d)
    && (min == U32 || min in data)
  }

  predicate IsMax(max: Word, data: seq<Word>) {
    (forall d :: d in data ==> d <= max) && (max == 0 || max in data)
  }

  method Extremes(data: array<Word>) returns (min: Word, max: Word)
    ensures IsMin(min, data[..]) && IsMax(max, data[..])
  {
    min, max := U32, 0;
    for i := 0 to data.Length
      invariant IsMin(min, data[..i]) && IsMax(max, data[..i])
    {
      assert data[..i + 1] == data[..i] + [data[i]];
      if data[i] > max {
        max := data[i];
      }
      if data[i] < min {
        min := data[i];
      }
    }
    assert data[..data.Length] == data[..];
  }

  /** Count sample i: the inner loop and the test for the last bucket. */
  method CountSample(data: array<Word>, i: nat, buckets: array<nat>, n: nat, min: Word, step: int)
    requires i < data.Length && buckets.Length == n + 1 && buckets as object != data
    requires forall j: nat :: j <= n ==> buckets[j] == Tally(min, step, n, data[..i], j)
    modifies buckets
    ensures forall j: nat :: j <= n ==> buckets[j] == Tally(min, step, n, data[..i + 1], j)
  {
    var d := data[i];
    assert data[..i + 1][..i] == data[..i] && data[..i + 1][i] == d;
    for j := 0 to n
      invariant forall j': nat :: j' < j ==> buckets[j'] == Tally(min, step, n, data[..i + 1], j')
      invariant forall j': nat :: j <= j' <= n ==> buckets[j'] == Tally(min, step, n, data[..i], j')
    {
      if Bound(min, step, j) <= d {
        if Bound(min, step, j + 1) > d {
          buckets[j] := buckets[j] + 1;
        }
      }
    }
    if Bound(min, step, n) <= d {
      buckets[n] := buckets[n] + 1;
    }
  }

  /** What bucket_cycles_count leaves behind, for the extremes min and max of the data. */
  ghost predicate Outcome(data: seq<Word>, buckets: seq<nat>, n: nat, min: Word, max: Word, sum: nat, matched: bool)
    requires n > 0 && |buckets| == n + 1
  {
    var step := StepOf(Range(min, max), n);
    && IsMin(min, data) && IsMax(max, data)
    && (forall j: nat :: j <= n ==> buckets[j] == Tally(min, step, n, data, j))
    && sum == |data| + AllReentries(min, step, n, data)
    && (matched <==> NoReentry(min, step, n, data))
    && (max - min + 1 < 0x8000_0000 ==> matched)
  }

  ghost predicate RoomBelow(data: seq<Word>, n: nat) {
    forall d :: d in data ==> d + n * 0x8000_0000 < U64
  }

  lemma Settle(data: seq<Word>, buckets: seq<nat>, n: nat, min: Word, max: Word, sum: nat)
    requires n > 0 && |buckets| == n + 1 && IsMin(min, data) && IsMax(max, data)
    requires var step := StepOf(Range(min, max), n);
             && (forall j: nat :: j <= n ==> buckets[j] == Tally(min, step, n, data, j))
             && sum == Total(min, step, n, data, n + 1)
    ensures Outcome(data, buckets, n, min, max, sum, sum == |data|)
    ensures RoomBelow(data, n) ==> sum == |data|
  {
    var step := StepOf(Range(min, max), n);
    TotalExact(min, step, n, data);
    ConservedIff(min, step, n, data);
    if max - min + 1 < 0x8000_0000 {
      ConservedWhenRangeFits(min, max, n, data);
    }
    if RoomBelow(data, n) {
      ConservedBelow(min, step, n, data);
    }
  }

  method SumBuckets(buckets: array<nat>, n: nat, ghost min: Word, ghost step: int, ghost data: seq<Word>)
    returns (sum: nat)
    requires buckets.Length == n + 1
    requires forall j: nat :: j <= n ==> buckets[j] == Tally(min, step, n, data, j)
    ensures sum == Total(min, step, n, data, n + 1)
  {
    sum := 0;
    for i := 0 to n + 1
      invariant sum == Total(min, step, n, data, i)
    {
      sum := sum + buckets[i];
    }
  }

  /** bucket_cycles_count: `matched` is false when the mismatch message would be printed. */
  method BucketCycles(data: array<Word>, buckets: array<nat>, n: nat) returns (sum: nat, matched: bool)
    requires n > 0 && buckets.Length == n + 1 && buckets as object != data
    modifies buckets
    ensures exists min: Word, max: Word :: Outcome(data[..], buckets[..], n, min, max, sum, matched)
    ensures RoomBelow(data[..], n) ==> matched
  {
    for i := 0 to n + 1
      invariant forall j :: 0 <= j < i ==> buckets[j] == 0
    {
      buckets[i] := 0;
    }
    var min, max := Extremes(data);
    var step := StepOf(Range(min, max), n);
    for i := 0 to data.Length
      invariant forall j: nat :: j <= n ==> buckets[j] == Tally(min, step, n, data[..i], j)
    {
      CountSample(data, i, buckets, n, min, step);
    }
    assert data[..data.Length] == data[..];
    sum := SumBuckets(buckets, n, min, step, data[..]);
    matched := sum == data.Length;
    Settle(data[..], buckets[..], n, min, max, sum);
  }
}
