/** Half-even bucketing of a spending series before it goes into a prompt, over exact amounts. */
module Redaction {

  datatype Profile = Standard | Strict | LocalOnly

  datatype Point = Point(day: int, amount: real)

  // ----- Rounding to the nearest integer, ties to even -----

  function Abs(x: real): (r: real)
    ensures r >= 0.0
  {
    if x < 0.0 then -x else x
  }

  function HalfEven(x: real): int {
    var k := x.Floor;
    var rest := x - k as real;
    if rest < 0.5 then k else if rest > 0.5 then k + 1 else if k % 2 == 0 then k else k + 1
  }

  /** `k` is a nearest integer to `x`, and the even one of two. */
  predicate Nearest(x: real, k: int) {
    Abs(x - k as real) <= 0.5 && (Abs(x - k as real) == 0.5 ==> k % 2 == 0)
  }

  lemma HalfEvenNearest(x: real)
    ensures Nearest(x, HalfEven(x))
  {
  }

  lemma NearestKeepsOrder(x: real, y: real, j: int, k: int)
    requires x <= y && Nearest(x, j) && Nearest(y, k)
    ensures j <= k
  {
    assert j >= k + 2 ==> j as real >= k as real + 2.0;
    assert j == k + 1 ==> j as real == k as real + 1.0;
  }

  lemma NearestUnique(x: real, k: int)
    requires Nearest(x, k)
    ensures HalfEven(x) == k
  {
    HalfEvenNearest(x);
    NearestKeepsOrder(x, x, k, HalfEven(x));
    NearestKeepsOrder(x, x, HalfEven(x), k);
  }

  // ----- One amount -----

  function Times(k: int, bucket: real): real {
    k as real * bucket
  }

  /** `_round_to_bucket` */
  function RoundToBucket(amount: real, bucket: real): real {
    if bucket == 0.0 then amount else Times(HalfEven(amount / bucket), bucket)
  }

  lemma QuotientOrder(a: real, b: real, bucket: real)
    requires bucket > 0.0 && a <= b
    ensures a / bucket <= b / bucket
  {
  }

  lemma TimesOrder(j: real, k: real, bucket: real)
    requires bucket > 0.0 && j <= k
    ensures j * bucket <= k * bucket
  {
  }

  lemma RoundKeepsOrder(a: real, b: real, bucket: real)
    requires bucket > 0.0 && a <= b
    ensures RoundToBucket(a, bucket) <= RoundToBucket(b, bucket)
  {
    QuotientOrder(a, b, bucket);
    HalfEvenNearest(a / bucket);
    HalfEvenNearest(b / bucket);
    NearestKeepsOrder(a / bucket, b / bucket, HalfEven(a / bucket), HalfEven(b / bucket));
    TimesOrder(HalfEven(a / bucket) as real, HalfEven(b / bucket) as real, bucket);
  }

  lemma RoundMovesHalf(a: real, bucket: real)
    requires bucket > 0.0
    ensures Abs(RoundToBucket(a, bucket) - a) <= bucket / 2.0
  {
    var k := HalfEven(a / bucket);
    HalfEvenNearest(a / bucket);
    var d := k as real - a / bucket;
    OffBy(a, bucket, k as real, d);
    TimesOrder(d, 0.5, bucket);
    TimesOrder(-0.5, d, bucket);
    assert RoundToBucket(a, bucket) == Times(k, bucket);
    assert Times(k, bucket) - a == d * bucket;
    assert -0.5 * bucket <= d * bucket <= 0.5 * bucket;
    assert 0.5 * bucket == bucket / 2.0;
  }

  lemma OffBy(a: real, bucket: real, k: real, d: real)
    requires bucket > 0.0 && d == k - a / bucket
    ensures k * bucket - a == d * bucket
  {
    var x := a / bucket;
    assert x * bucket == a;
    assert (k - x) * bucket == k * bucket - x * bucket;
  }

  lemma QuotientOfMultiple(k: int, bucket: real)
    requires bucket > 0.0
    ensures Times(k, bucket) / bucket == k as real && Times(-k, bucket) == -Times(k, bucket)
  {
  }

  /** Multiples of the bucket are left alone. */
  lemma RoundFixesMultiples(k: int, bucket: real)
    requires bucket > 0.0
    ensures RoundToBucket(Times(k, bucket), bucket) == Times(k, bucket)
  {
    QuotientOfMultiple(k, bucket);
    NearestUnique(k as real, k);
  }

  /** Within `n` buckets of zero the quotient rounds to at most `n` in magnitude. */
  lemma QuotientInRange(a: real, n: int, bucket: real)
    requires bucket > 0.0 && Times(-n, bucket) <= a <= Times(n, bucket)
    ensures -n <= HalfEven(a / bucket) <= n
  {
    QuotientOfMultiple(n, bucket);
    QuotientOfMultiple(-n, bucket);
    QuotientOrder(a, Times(n, bucket), bucket);
    QuotientOrder(Times(-n, bucket), a, bucket);
    HalfEvenNearest(a / bucket);
    NearestKeepsOrder(a / bucket, n as real, HalfEven(a / bucket), n);
    NearestKeepsOrder((-n) as real, a / bucket, -n, HalfEven(a / bucket));
  }

  // ----- The series -----

  function MaxAbs(series: seq<Point>): (r: real)
    ensures r >= 0.0
    ensures forall i | 0 <= i < |series| :: Abs(series[i].amount) <= r
    ensures series != [] ==> exists i :: 0 <= i < |series| && Abs(series[i].amount) == r
  {
    if series == [] then 0.0
    else
      var n := |series| - 1;
      var front, last := MaxAbs(series[..n]), Abs(series[n].amount);
      assert forall i | 0 <= i < n :: series[..n][i] == series[i];
      if front >= last && n > 0 then front else
        assert Abs(series[n].amount) == last;
        last
  }

  /** How many buckets the largest magnitude is cut into: 5% or 25% each. */
  function Parts(profile: Profile): int
    requires profile != LocalOnly
  {
    if profile == Standard then 20 else 4
  }

  function BucketSize(series: seq<Point>, profile: Profile): real
    requires profile != LocalOnly
  {
    MaxAbs(series) * if profile == Standard then 0.05 else 0.25
  }

  predicate PassesThrough(series: seq<Point>, profile: Profile) {
    profile == LocalOnly || series == [] || MaxAbs(series) == 0.0
  }

  /** `bucket_time_series` */
  function BucketTimeSeries(series: seq<Point>, profile: Profile): (r: seq<Point>)
    ensures |r| == |series| && forall i | 0 <= i < |r| :: r[i].day == series[i].day
    ensures PassesThrough(series, profile) ==> r == series
  {
    if PassesThrough(series, profile) then series
    else
      seq(|series|, i requires 0 <= i < |series| =>
        Point(series[i].day, RoundToBucket(series[i].amount, BucketSize(series, profile))))
  }

  lemma PartsMakeWhole(series: seq<Point>, profile: Profile)
    requires profile != LocalOnly
    ensures Times(Parts(profile), BucketSize(series, profile)) == MaxAbs(series)
    ensures Times(-Parts(profile), BucketSize(series, profile)) == -MaxAbs(series)
  {
  }

  /** No amount moves by more than half a bucket. */
  lemma MovesAtMostHalfABucket(series: seq<Point>, profile: Profile, i: nat)
    requires i < |series|
    ensures Abs(BucketTimeSeries(series, profile)[i].amount - series[i].amount)
         <= if profile == LocalOnly then 0.0 else BucketSize(series, profile) / 2.0
  {
    if !PassesThrough(series, profile) {
      RoundMovesHalf(series[i].amount, BucketSize(series, profile));
    }
  }

  /** So an amount moves by at most a fortieth of the largest magnitude, an eighth under `strict`, and not at all locally. */
  lemma MovesLittle(series: seq<Point>, profile: Profile, i: nat, largest: real)
    requires i < |series|
    requires exists j | 0 <= j < |series| :: series[j].amount == largest || series[j].amount == -largest
    requires forall j | 0 <= j < |series| :: -largest <= series[j].amount <= largest
    ensures var moved := BucketTimeSeries(series, profile)[i].amount - series[i].amount;
            match profile
            case Standard => -largest <= 40.0 * moved <= largest
            case Strict => -largest <= 8.0 * moved <= largest
            case LocalOnly => moved == 0.0
  {
    MovesAtMostHalfABucket(series, profile, i);
    assert MaxAbs(series) == largest;
  }

  /** Order is kept, and so is the sign: a spend never becomes an income or the reverse, though it may become zero. */
  lemma KeepsOrderAndSign(series: seq<Point>, profile: Profile, i: nat, j: nat)
    requires i < |series| && j < |series|
    ensures var r := BucketTimeSeries(series, profile);
            && (series[i].amount <= series[j].amount ==> r[i].amount <= r[j].amount)
            && (series[i].amount >= 0.0 ==> r[i].amount >= 0.0)
            && (series[i].amount <= 0.0 ==> r[i].amount <= 0.0)
  {
    if !PassesThrough(series, profile) {
      var bucket, a, b := BucketSize(series, profile), series[i].amount, series[j].amount;
      RoundFixesMultiples(0, bucket);
      assert Times(0, bucket) == 0.0;
      if a <= b {
        RoundKeepsOrder(a, b, bucket);
      }
      if a >= 0.0 {
        RoundKeepsOrder(0.0, a, bucket);
      }
      if a <= 0.0 {
        RoundKeepsOrder(a, 0.0, bucket);
      }
    }
  }

  /** Every result is one of `2 * parts + 1` multiples of the bucket. */
  lemma ResultIsMultiple(series: seq<Point>, profile: Profile, i: nat) returns (k: int)
    requires i < |series| && !PassesThrough(series, profile)
    ensures -Parts(profile) <= k <= Parts(profile)
    ensures BucketTimeSeries(series, profile)[i].amount == Times(k, BucketSize(series, profile))
  {
    k := HalfEven(series[i].amount / BucketSize(series, profile));
    PartsMakeWhole(series, profile);
    assert Abs(series[i].amount) <= MaxAbs(series);
    QuotientInRange(series[i].amount, Parts(profile), BucketSize(series, profile));
  }

  /** The amounts of largest magnitude are unchanged. */
  lemma LargestUnchanged(series: seq<Point>, profile: Profile, i: nat)
    requires i < |series| && Abs(series[i].amount) == MaxAbs(series)
    ensures BucketTimeSeries(series, profile)[i].amount == series[i].amount
  {
    if !PassesThrough(series, profile) {
      var bucket, n := BucketSize(series, profile), Parts(profile);
      PartsMakeWhole(series, profile);
      if series[i].amount == Times(n, bucket) {
        RoundFixesMultiples(n, bucket);
      } else {
        assert series[i].amount == Times(-n, bucket);
        RoundFixesMultiples(-n, bucket);
      }
    }
  }

  /** Bucketing twice is bucketing once: the largest magnitude, and with it the bucket, stays. */
  lemma Idempotent(series: seq<Point>, profile: Profile)
    ensures BucketTimeSeries(BucketTimeSeries(series, profile), profile) == BucketTimeSeries(series, profile)
  {
    if !PassesThrough(series, profile) {
      SameMaximum(series, profile);
      forall i | 0 <= i < |series|
        ensures BucketTimeSeries(BucketTimeSeries(series, profile), profile)[i] == BucketTimeSeries(series, profile)[i]
      {
        AgainTheSame(series, profile, i);
      }
    }
  }

  lemma AgainTheSame(series: seq<Point>, profile: Profile, i: nat)
    requires i < |series| && !PassesThrough(series, profile)
    requires MaxAbs(BucketTimeSeries(series, profile)) == MaxAbs(series)
    ensures BucketTimeSeries(BucketTimeSeries(series, profile), profile)[i] == BucketTimeSeries(series, profile)[i]
  {
    var r, bucket := BucketTimeSeries(series, profile), BucketSize(series, profile);
    SameBucket(r, series, profile);
    var k := ResultIsMultiple(series, profile, i);
    RoundFixesMultiples(k, bucket);
    assert RoundToBucket(r[i].amount, BucketSize(r, profile)) == r[i].amount;
  }

  lemma SameBucket(r: seq<Point>, series: seq<Point>, profile: Profile)
    requires profile != LocalOnly && MaxAbs(r) == MaxAbs(series)
    ensures BucketSize(r, profile) == BucketSize(series, profile)
  {
  }

  lemma SameMaximum(series: seq<Point>, profile: Profile)
    requires !PassesThrough(series, profile)
    ensures MaxAbs(BucketTimeSeries(series, profile)) == MaxAbs(series)
  {
    var r, m := BucketTimeSeries(series, profile), MaxAbs(series);
    var i :| 0 <= i < |series| && Abs(series[i].amount) == m;
    LargestUnchanged(series, profile, i);
    forall j | 0 <= j < |r|
      ensures Abs(r[j].amount) <= m
    {
      ResultWithinMaximum(series, profile, j);
    }
    assert Abs(r[i].amount) <= MaxAbs(r);
  }

  lemma ResultWithinMaximum(series: seq<Point>, profile: Profile, i: nat)
    requires i < |series| && !PassesThrough(series, profile)
    ensures Abs(BucketTimeSeries(series, profile)[i].amount) <= MaxAbs(series)
  {
    var k := ResultIsMultiple(series, profile, i);
    PartsMakeWhole(series, profile);
    TimesWithin(k, Parts(profile), BucketSize(series, profile));
  }

  lemma TimesWithin(k: int, n: int, bucket: real)
    requires bucket > 0.0 && -n <= k <= n
    ensures Times(-n, bucket) <= Times(k, bucket) <= Times(n, bucket)
  {
    var low, mid, high := (-n) as real, k as real, n as real;
    assert low <= mid <= high;
    TimesOrder(mid, high, bucket);
    TimesOrder(low, mid, bucket);
    assert Times(-n, bucket) == low * bucket && Times(k, bucket) == mid * bucket && Times(n, bucket) == high * bucket;
  }

  // ----- How many values are left -----

  function Values(series: seq<Point>): set<real> {
    set i | 0 <= i < |series| :: series[i].amount
  }

  lemma ValueAt(series: seq<Point>, v: real) returns (i: nat)
    requires v in Values(series)
    ensures i < |series| && series[i].amount == v
  {
    var k :| 0 <= k < |series| && series[k].amount == v;
    i := k;
  }

  /** The multiples of the bucket from `lo` to `hi`. */
  function Multiples(lo: int, hi: int, bucket: real): (r: set<real>)
    requires lo <= hi + 1
    ensures |r| <= hi - lo + 1
    ensures forall k | lo <= k <= hi :: Times(k, bucket) in r
    decreases hi - lo + 1
  {
    if lo > hi then {} else Multiples(lo + 1, hi, bucket) + {Times(lo, bucket)}
  }

  lemma {:induction false} SubsetSize<T>(a: set<T>, b: set<T>)
    requires a <= b
    ensures |a| <= |b|
  {
    if a != {} {
      var x :| x in a;
      SubsetSize(a - {x}, b - {x});
    }
  }

  /** At most 41 distinct amounts are left under the standard profile and 9 under the strict one, however long the series. */
  lemma FewValues(series: seq<Point>, profile: Profile)
    requires profile != LocalOnly
    ensures |Values(BucketTimeSeries(series, profile))| <= if profile == Standard then 41 else 9
  {
    var r, n := BucketTimeSeries(series, profile), Parts(profile);
    if PassesThrough(series, profile) {
      SubsetSize(Values(r), {0.0});
    } else {
      var multiples := Multiples(-n, n, BucketSize(series, profile));
      forall v | v in Values(r)
        ensures v in multiples
      {
        var i := ValueAt(r, v);
        var k := ResultIsMultiple(series, profile, i);
      }
      SubsetSize(Values(r), multiples);
    }
  }
}
