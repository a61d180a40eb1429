/** When a cached chunk or the flux horizon cuts a bucket of a query: conditions on the bounds, for queries that read up
    to before their end, and for logs queries, which read their end as well. */
module BucketBounds {
  import opened Wrappers
  import opened SeriesCache
  import opened MissingRanges
  import opened QueryCache
  import opened CachedQuery
  import opened Buckets
  import opened BucketedQuery

  // ---- the condition on the bounds of the ranges ----

  ghost predicate Covers(ranges: seq<Interval>, query: Interval) {
    forall t :: In(query, t) ==> InSome(ranges, t)
  }

  /** Not empty, and some of it lies after the start and before the end of the query's last bucket. */
  predicate Overlaps(r: Interval, query: Interval, w: int)
    requires w > 0
  {
    r.start < r.end && query.start < r.end && r.start < Floor(query.end, w) + w
  }

  /** Where the range begins and ends inside the query, a bucket does, and it does not reach past the query. */
  predicate OnBuckets(r: Interval, query: Interval, w: int)
    requires w > 0
  {
    && (r.start <= query.start || IsBucket(r.start, w))
    && (r.end == query.end || (r.end < query.end && IsBucket(r.end, w)))
  }

  predicate BoundsOnBuckets(ranges: seq<Interval>, query: Interval, w: int)
    requires w > 0
  {
    IsBucket(query.start, w) && forall i :: 0 <= i < |ranges| && Overlaps(ranges[i], query, w) ==>
      OnBuckets(ranges[i], query, w)
  }

  /** Read up to before its end. */
  lemma HalfOpenIff(ranges: seq<Interval>, query: Interval, w: int)
    requires w > 0 && query.start < query.end && Covers(ranges, query)
    ensures NoBucketCut(ranges, query, HalfOpen, w) <==> BoundsOnBuckets(ranges, query, w)
  {
    hide IsBucket, Floor, IsWhole, NoBucketCut;
    if BoundsOnBuckets(ranges, query, w) {
      forall b | IsBucket(b, w) ensures IsWhole(b, ranges, query, HalfOpen, w) {
        HalfOpenWhole(b, ranges, query, w);
      }
      assert NoBucketCut(ranges, query, HalfOpen, w) by {
        EachWhole(ranges, query, HalfOpen, w);
      }
    }
    if NoBucketCut(ranges, query, HalfOpen, w) {
      HalfOpenStart(ranges, query, w);
      forall i | 0 <= i < |ranges| && Overlaps(ranges[i], query, w) ensures OnBuckets(ranges[i], query, w) {
        HalfOpenBounds(i, ranges, query, w);
      }
    }
  }

  lemma EachWhole(ranges: seq<Interval>, query: Interval, scan: Scan, w: int)
    requires w > 0 && forall b :: IsBucket(b, w) ==> IsWhole(b, ranges, query, scan, w)
    ensures NoBucketCut(ranges, query, scan, w)
  {
  }

  lemma WholeAt(b: int, ranges: seq<Interval>, query: Interval, scan: Scan, w: int)
    requires w > 0 && NoBucketCut(ranges, query, scan, w) && IsBucket(b, w)
    ensures IsWhole(b, ranges, query, scan, w)
  {
  }

  lemma HalfOpenWhole(b: int, ranges: seq<Interval>, query: Interval, w: int)
    requires w > 0 && query.start < query.end && Covers(ranges, query)
    requires BoundsOnBuckets(ranges, query, w) && IsBucket(b, w)
    ensures IsWhole(b, ranges, query, HalfOpen, w)
  {
    hide IsBucket, Floor;
    BucketsInSteps(query.start, b, w);
    if Meets(HalfOpen(query), b, w) {
      assert In(query, b) && InSome(ranges, b);
    }
    FloorIsBucket(query.end, w);
    BucketsInSteps(b, Floor(query.end, w), w);
    forall i | query.start <= b <= query.end && 0 <= i < |ranges| && Meets(HalfOpen(ranges[i]), b, w)
      ensures InBucket(HalfOpen(ranges[i]), b, w) == InBucket(HalfOpen(query), b, w)
    {
      var r := ranges[i];
      assert Overlaps(r, query, w);
      if IsBucket(r.start, w) {
        BucketsInSteps(r.start, b, w);
      }
      if IsBucket(r.end, w) {
        BucketsInSteps(r.end, b, w);
      }
    }
  }

  lemma HalfOpenStart(ranges: seq<Interval>, query: Interval, w: int)
    requires w > 0 && query.start < query.end && NoBucketCut(ranges, query, HalfOpen, w)
    ensures IsBucket(query.start, w)
  {
    hide NoBucketCut;
    var b := Floor(query.start, w);
    FloorIsBucket(query.start, w);
    WholeAt(b, ranges, query, HalfOpen, w);
    assert Meets(HalfOpen(query), b, w);
  }

  lemma HalfOpenBounds(i: nat, ranges: seq<Interval>, query: Interval, w: int)
    requires w > 0 && query.start < query.end && NoBucketCut(ranges, query, HalfOpen, w) && IsBucket(query.start, w)
    requires i < |ranges| && Overlaps(ranges[i], query, w)
    ensures OnBuckets(ranges[i], query, w)
  {
    hide IsBucket, Floor, NoBucketCut, MetBySome;
    var r := ranges[i];
    FloorIsBucket(query.end, w);
    BucketsInSteps(query.start, Floor(query.end, w), w);
    if r.start > query.start {
      BoundInside(r.start, query, w);
      assert Meets(HalfOpen(r), Floor(r.start, w), w);
      WholeAt(Floor(r.start, w), ranges, query, HalfOpen, w);
    }
    if r.end > query.end {
      assert Meets(HalfOpen(r), Floor(query.end, w), w);
      WholeAt(Floor(query.end, w), ranges, query, HalfOpen, w);
    } else if r.end < query.end {
      BoundInside(r.end, query, w);
      assert r.end > Floor(r.end, w) ==> Meets(HalfOpen(r), Floor(r.end, w), w);
      WholeAt(Floor(r.end, w), ranges, query, HalfOpen, w);
    }
  }

  /** A time from the start to the end of the last bucket lies in a bucket of the query. */
  lemma BoundInside(t: int, query: Interval, w: int)
    requires w > 0 && IsBucket(query.start, w) && query.start <= t < Floor(query.end, w) + w
    ensures IsBucket(Floor(t, w), w) && query.start <= Floor(t, w) <= query.end
    ensures Floor(t, w) <= t < Floor(t, w) + w && (IsBucket(t, w) <==> Floor(t, w) == t)
  {
    hide IsBucket, Floor;
    FloorIsBucket(t, w);
    FloorIsBucket(query.end, w);
    BucketsInSteps(query.start, Floor(t, w), w);
    BucketsInSteps(Floor(t, w), Floor(query.end, w), w);
  }

  // ---- logs ----

  /** With the end read as well: no range that has any of the query's buckets ends elsewhere than the query. */
  predicate EndsWithQuery(ranges: seq<Interval>, query: Interval, w: int)
    requires w > 0
  {
    IsBucket(query.start, w) && forall i :: 0 <= i < |ranges| && Touches(ranges[i], query, w) ==>
      EndsWith(ranges[i], query, w)
  }

  predicate EndsWith(r: Interval, query: Interval, w: int)
    requires w > 0
  {
    r.end == query.end && (r.start <= query.start || IsBucket(r.start, w))
  }

  predicate Touches(r: Interval, query: Interval, w: int)
    requires w > 0
  {
    r.start <= r.end && query.start <= r.end && r.start < Floor(query.end, w) + w
  }

  lemma InclusiveIff(ranges: seq<Interval>, query: Interval, w: int)
    requires w > 0 && query.start < query.end && Covers(ranges, query)
    ensures NoBucketCut(ranges, query, Inclusive, w) <==> EndsWithQuery(ranges, query, w)
  {
    hide IsBucket, Floor, IsWhole, NoBucketCut;
    if EndsWithQuery(ranges, query, w) {
      forall b | IsBucket(b, w) ensures IsWhole(b, ranges, query, Inclusive, w) {
        InclusiveWhole(b, ranges, query, w);
      }
      assert NoBucketCut(ranges, query, Inclusive, w) by {
        EachWhole(ranges, query, Inclusive, w);
      }
    }
    if NoBucketCut(ranges, query, Inclusive, w) {
      InclusiveStart(ranges, query, w);
      forall i | 0 <= i < |ranges| && Touches(ranges[i], query, w) ensures EndsWith(ranges[i], query, w) {
        InclusiveBounds(i, ranges, query, w);
      }
    }
  }

  lemma InclusiveWhole(b: int, ranges: seq<Interval>, query: Interval, w: int)
    requires w > 0 && query.start < query.end && Covers(ranges, query)
    requires EndsWithQuery(ranges, query, w) && IsBucket(b, w)
    ensures IsWhole(b, ranges, query, Inclusive, w)
  {
    hide IsBucket, Floor;
    BucketsInSteps(query.start, b, w);
    if Meets(Inclusive(query), b, w) {
      var t := if b < query.end then b else query.end - 1;
      assert In(query, t) && InSome(ranges, t);
    }
    FloorIsBucket(query.end, w);
    BucketsInSteps(b, Floor(query.end, w), w);
    forall i | query.start <= b <= query.end && 0 <= i < |ranges| && Meets(Inclusive(ranges[i]), b, w)
      ensures InBucket(Inclusive(ranges[i]), b, w) == InBucket(Inclusive(query), b, w)
    {
      var r := ranges[i];
      assert Touches(r, query, w);
      if IsBucket(r.start, w) {
        BucketsInSteps(r.start, b, w);
      }
    }
  }

  lemma InclusiveStart(ranges: seq<Interval>, query: Interval, w: int)
    requires w > 0 && query.start < query.end && NoBucketCut(ranges, query, Inclusive, w)
    ensures IsBucket(query.start, w)
  {
    hide NoBucketCut;
    var b := Floor(query.start, w);
    FloorIsBucket(query.start, w);
    WholeAt(b, ranges, query, Inclusive, w);
    assert Meets(Inclusive(query), b, w);
  }

  lemma InclusiveBounds(i: nat, ranges: seq<Interval>, query: Interval, w: int)
    requires w > 0 && query.start < query.end && NoBucketCut(ranges, query, Inclusive, w) && IsBucket(query.start, w)
    requires i < |ranges| && Touches(ranges[i], query, w)
    ensures EndsWith(ranges[i], query, w)
  {
    hide IsBucket, Floor, NoBucketCut, MetBySome;
    var r := ranges[i];
    FloorIsBucket(query.end, w);
    BucketsInSteps(query.start, Floor(query.end, w), w);
    if r.end > query.end {
      assert Meets(Inclusive(r), Floor(query.end, w), w);
      WholeAt(Floor(query.end, w), ranges, query, Inclusive, w);
    } else if r.end < query.end {
      BoundInside(r.end, query, w);
      assert Meets(Inclusive(r), Floor(r.end, w), w);
      WholeAt(Floor(r.end, w), ranges, query, Inclusive, w);
    }
    if r.start > query.start {
      BoundInside(r.start, query, w);
      assert Meets(Inclusive(r), Floor(r.start, w), w);
      WholeAt(Floor(r.start, w), ranges, query, Inclusive, w);
    }
  }
}
