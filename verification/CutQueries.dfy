/** Builder queries through the cache on rows that are counted per step: when the cache shows, and what holds of the
    cache over many queries. */
module CutQueries {
  import opened Wrappers
  import opened SeriesCache
  import opened MissingRanges
  import opened QueryCache
  import opened CachedQuery
  import opened TimeRange
  import opened BucketedQuery
  import opened CutCounts
  import opened Buckets
  import opened BucketBounds
  import opened MetricBuckets
  import opened CutRanges

  // ---- the cache never shows, exactly if ----

  /** What is cached under a key, what was fetched for it since the entry was made, and what a query asks for. */
  ghost function RangesFor(cache: Cache, start: int, end: int, step: int, cacheKey: string, now: nat): Ranges
    requires step != 0
    reads cache
  {
    Ranges(Intervals(cache.Cached(cacheKey)), Intervals(cache.Parts(cacheKey)),
           cache.Asked(start, end, step, cacheKey, now))
  }

  /** Whatever rows there are, and however what the database counted was merged since: the answer through the cache is
      the one the database would give to the query itself. */
  ghost predicate NeverShows(cache: Cache, start: int, end: int, step: int, cacheKey: string, now: nat, scan: Scan)
    requires step > 0
    reads cache
  {
    AlwaysDirect(RangesFor(cache, start, end, step, cacheKey, now), Interval(start, end), scan, step * 1000, Count)
  }

  lemma RangesOfValid(cache: Cache, start: int, end: int, step: int, cacheKey: string, now: nat)
    requires step > 0 && cache.Valid() && cache.enabled && cacheKey != ""
    ensures var r, horizon := RangesFor(cache, start, end, step, cacheKey, now), cache.Horizon(step, now);
      && IsCached(r.cached) && CoverSame(r.got, r.cached) && CanBeMerged(r)
      && r.asked == AskedOf(r.cached, horizon, Interval(start, end))
      && Covers(r.got + r.asked, Interval(start, end))
  {
    var r, horizon := RangesFor(cache, start, end, step, cacheKey, now), cache.Horizon(step, now);
    PartsCover(cache, cacheKey);
    RangesCover(r.cached, horizon, Interval(start, end));
    CoverBothWays(r.got, r.cached, r.asked, Interval(start, end));
  }

  lemma PartsCover(cache: Cache, cacheKey: string)
    requires cache.Valid() && cache.enabled && cacheKey != ""
    ensures var cached, got := Intervals(cache.Cached(cacheKey)), Intervals(cache.Parts(cacheKey));
      IsCached(cached) && CoverSame(got, cached) && (got != [] ==> cached != [])
  {
    hide KeepsPoints, IsCached;
    NothingCached(0, 0);
    assert Intervals([]) == [];
    var cached, got := Intervals(cache.Cached(cacheKey)), Intervals(cache.Parts(cacheKey));
    if got != [] {
      assert In(got[0], got[0].start) && InSome(got, got[0].start);
    }
  }

  /** For logs: exactly if the query starts on a step, and every range ever fetched that has any of its buckets ends
      with it and begins before it or on a step, and the same holds of what is asked for now (CacheFitsLogs). What was
      merged since is not enough to tell. */
  lemma LogsNeverShowIff(cache: Cache, start: int, end: int, step: int, cacheKey: string, now: nat)
    requires step > 0 && start < end && cache.Valid() && cache.enabled && cacheKey != ""
    ensures var query, w, horizon := Interval(start, end), step * 1000, cache.Horizon(step, now);
      NeverShows(cache, start, end, step, cacheKey, now, Inclusive)
      <==> EndsWithQuery(Intervals(cache.Parts(cacheKey)), query, w)
           && CacheFitsLogs(Intervals(cache.Cached(cacheKey)), horizon, query, w)
  {
    hide *;
    var r, query, w := RangesFor(cache, start, end, step, cacheKey, now), Interval(start, end), step * 1000;
    RangesOfValid(cache, start, end, step, cacheKey, now);
    RangesForAre(cache, start, end, step, cacheKey, now, Inclusive);
    NeverShowsIff(r, query, Inclusive, w);
    InclusiveIff(r.got + r.asked, query, w);
    GotFitsLogsIff(r.got, r.cached, cache.Horizon(step, now), query, w);
  }

  lemma RangesForAre(cache: Cache, start: int, end: int, step: int, cacheKey: string, now: nat, scan: Scan)
    requires step > 0
    ensures var r := RangesFor(cache, start, end, step, cacheKey, now);
      && r.cached == Intervals(cache.Cached(cacheKey)) && r.got == Intervals(cache.Parts(cacheKey))
      && (NeverShows(cache, start, end, step, cacheKey, now, scan)
          <==> AlwaysDirect(r, Interval(start, end), scan, step * 1000, Count))
  {
  }

  /** For metrics, of any step: exactly if the query takes no extra step, and starts on a step and all that is read
      inside it, for what was fetched before or is asked for now, ends with it or on a step; or it reads nothing. */
  lemma MetricsNeverShowIff(cache: Cache, start: int, end: int, step: int, cacheKey: string, now: nat, mq: MetricQuery)
    requires step > 0 && 0 <= start < end && cache.Valid() && cache.enabled && cacheKey != ""
    ensures NeverShows(cache, start, end, step, cacheKey, now, Adjusted(step, mq))
            <==> MetricsFit(Intervals(cache.Parts(cacheKey)) + cache.Asked(start, end, step, cacheKey, now),
                            Interval(start, end), step, mq)
  {
    hide *;
    var r, query := RangesFor(cache, start, end, step, cacheKey, now), Interval(start, end);
    RangesOfValid(cache, start, end, step, cacheKey, now);
    RangesForAre(cache, start, end, step, cacheKey, now, Adjusted(step, mq));
    AskedIs(cache, start, end, step, cacheKey, now);
    NeverShowsIff(r, query, Adjusted(step, mq), step * 1000);
    AdjustedIff(r.got + r.asked, query, step, mq);
  }

  lemma AskedIs(cache: Cache, start: int, end: int, step: int, cacheKey: string, now: nat)
    requires step > 0
    ensures RangesFor(cache, start, end, step, cacheKey, now).asked == cache.Asked(start, end, step, cacheKey, now)
  {
  }

  /** For steps up to a minute only whole buckets are read, so that what was merged tells as much: exactly if the query
      starts on a step and nothing cached has the last time of the bucket its end lies in, or it reads nothing. */
  lemma MinuteMetricsNeverShowIff(cache: Cache, start: int, end: int, step: int, cacheKey: string, now: nat,
                                  mq: MetricQuery)
    requires 0 < step <= 60 && 0 <= start < end && cache.Valid() && cache.enabled && cacheKey != ""
    ensures NeverShows(cache, start, end, step, cacheKey, now, Adjusted(step, mq))
            <==> MinuteMetricsFit(Intervals(cache.Cached(cacheKey)), Interval(start, end), step, mq)
  {
    hide *;
    var r, query := RangesFor(cache, start, end, step, cacheKey, now), Interval(start, end);
    RangesOfValid(cache, start, end, step, cacheKey, now);
    RangesForAre(cache, start, end, step, cacheKey, now, Adjusted(step, mq));
    AskedIs(cache, start, end, step, cacheKey, now);
    MetricsNeverShowIff(cache, start, end, step, cacheKey, now, mq);
    MinuteFitsIff(r.got + r.asked, query, step, mq);
    MinuteFitsCached(r.got, r.cached, cache.Horizon(step, now), query, step, mq);
  }

  lemma MinuteFitsCached(got: seq<Interval>, cached: seq<Interval>, horizon: int, query: Interval, step: int,
                         mq: MetricQuery)
    requires 0 < step <= 60 && IsCached(cached) && CoverSame(got, cached)
    ensures MinuteMetricsFit(got + AskedOf(cached, horizon, query), query, step, mq)
            <==> MinuteMetricsFit(cached, query, step, mq)
  {
    hide IsBucket, Floor, MissingFrom, CutLast, ExtraSteps, IsCached;
    var cut, t := CutLast(cached, horizon), Floor(query.end, step * 1000) + step * 1000 - 1;
    FloorIsBucket(query.end, step * 1000);
    InSomeBoth(got, AskedOf(cached, horizon, query));
    CachedIsSorted(cached);
    CutLastCovers(cached, horizon, t);
    MissingIsComplement(cut, query.start, query.start, query.end, t);
  }

  /** A helper for reads up to before the end of a range: exactly if the query starts on a step and no bound of a range
      fetched so far, nor the horizon, cuts a bucket in it. */
  lemma NeverShowsIffOnBuckets(cache: Cache, start: int, end: int, step: int, cacheKey: string, now: nat)
    requires step > 0 && start < end && cache.Valid() && cache.enabled && cacheKey != ""
    ensures var query, w, horizon := Interval(start, end), step * 1000, cache.Horizon(step, now);
      NeverShows(cache, start, end, step, cacheKey, now, HalfOpen)
      <==> BoundsOnBuckets(Intervals(cache.Parts(cacheKey)), query, w)
           && (HorizonInside(Intervals(cache.Cached(cacheKey)), horizon, query) ==> IsBucket(horizon, w))
  {
    hide *;
    var r, query, w := RangesFor(cache, start, end, step, cacheKey, now), Interval(start, end), step * 1000;
    RangesOfValid(cache, start, end, step, cacheKey, now);
    RangesForAre(cache, start, end, step, cacheKey, now, HalfOpen);
    NeverShowsIff(r, query, HalfOpen, w);
    HalfOpenIff(r.got + r.asked, query, w);
    GotOnBucketsIff(r.got, r.cached, cache.Horizon(step, now), query, w);
  }

  // ---- what a query then answers ----

  /** One series per label set, each with exactly the points of the direct answer. */
  ghost predicate IsDirectAnswer(series: seq<Series>, rows: seq<Row>, read: Interval, w: int, agg: Aggregate)
    requires w > 0
    reads series
  {
    && DistinctLabels(series)
    && (forall i :: 0 <= i < |series| ==> SameAsDirect(series[i].points, series[i].labels, rows, read, w, agg))
    && (forall l, p :: IsPoint(p, l, rows, read, w, agg) ==> IsOneOf(l, series))
  }

  /** The whole answer of a query, as RunBuilderQuery puts it together from what was merged and what is fetched, for any
      aggregate. */
  lemma AnswerIsDirect(series: seq<Series>, stored: seq<Chunk>, parts: seq<Chunk>, fetched: seq<Chunk>, rows: seq<Row>,
                       query: Interval, scan: Scan, w: int, agg: Aggregate)
    requires w > 0 && AnswersFrom(series, stored + fetched, query.start, query.end) && KeepsPoints(stored, parts)
    requires AllDirect(parts + fetched, rows, scan, w, agg) && NoBucketCut(Intervals(parts + fetched), query, scan, w)
    ensures IsDirectAnswer(series, rows, scan(query), w, agg)
  {
    hide AllDirect, NoBucketCut, IsMerged, SameAsDirect, IsPoint, DistinctLabels, IsOneOf, Flatten, HasPoint,
         KeepsTimes, KeepsPoints;
    MergedTimesKept(stored, parts, fetched, rows, scan, w, agg);
    forall i | 0 <= i < |series| ensures SameAsDirect(series[i].points, series[i].labels, rows, scan(query), w, agg) {
      assert IsMergedSeries(series[i], stored + fetched, query.start, query.end);
      assert IsAnswer(series[i].points, series[i].labels, rows, stored, parts, fetched, query, scan, w, agg);
      MergedUncutIsDirect(series[i].points, series[i].labels, rows, stored, parts, fetched, query, scan, w, agg);
    }
    forall l, p | IsPoint(p, l, rows, scan(query), w, agg) ensures IsOneOf(l, series) {
      DirectPointIsFound(p, l, parts + fetched, rows, query, scan, w, agg);
      var q := KeptPoint(Flatten(stored + fetched), Flatten(parts + fetched), l, p);
    }
  }

  /** However metrics chunks of whole buckets were merged, they go on holding the direct answers: the aggregate of every
      bucket of which the last time is covered, and no other point. */
  lemma MergedMetricsStayDirect(stored: seq<Chunk>, parts: seq<Chunk>, rows: seq<Row>, step: int, mq: MetricQuery,
                                agg: Aggregate, l: Labels, p: Point)
    requires 0 < step <= 60 && ExtraSteps(mq) == 0 && p.timestamp >= 0
    requires SameCover(stored, parts) && KeepsPoints(stored, parts)
    requires AllDirect(parts, rows, Adjusted(step, mq), step * 1000, agg)
    ensures var w := step * 1000;
      HasPoint(Flatten(stored), l, p) <==>
        && InSome(Intervals(stored), p.timestamp + w - 1)
        && IsPoint(p, l, rows, HalfOpen(Interval(p.timestamp, p.timestamp + w)), w, agg)
  {
    hide AllDirect, KeepsTimes, Flatten, HasPoint, IsPoint, SameCover, Adjusted;
    var w := step * 1000;
    DirectPartsKept(stored, parts, rows, Adjusted(step, mq), w, agg);
    if HasPoint(Flatten(stored), l, p) {
      assert HasPoint(Flatten(parts), l, p) by {
        KeptFrom(Flatten(stored), Flatten(parts), l, p);
      }
      PartHasBucket(parts, rows, step, mq, agg, l, p);
      CoversSame(stored, parts, p.timestamp + w - 1);
    }
    if InSome(Intervals(stored), p.timestamp + w - 1) {
      CoversSame(stored, parts, p.timestamp + w - 1);
      if IsPoint(p, l, rows, HalfOpen(Interval(p.timestamp, p.timestamp + w)), w, agg) {
        BucketHasPart(parts, rows, step, mq, agg, l, p);
        var q := KeptPoint(Flatten(stored), Flatten(parts), l, p);
        KeptFrom(Flatten(stored), Flatten(parts), l, q);
        PartHasBucket(parts, rows, step, mq, agg, l, q);
        SameAggregate(p, q, l, rows, w, agg);
      }
    }
  }

  lemma CoversSame(stored: seq<Chunk>, parts: seq<Chunk>, t: int)
    requires SameCover(stored, parts)
    ensures InSome(Intervals(stored), t) <==> InSome(Intervals(parts), t)
  {
  }

  lemma KeptFrom(merged: seq<SeriesData>, seen: seq<SeriesData>, l: Labels, p: Point)
    requires KeepsTimes(merged, seen) && HasPoint(merged, l, p)
    ensures HasPoint(seen, l, p)
  {
  }

  lemma DirectPartsKept(stored: seq<Chunk>, parts: seq<Chunk>, rows: seq<Row>, scan: Scan, w: int, agg: Aggregate)
    requires w > 0 && KeepsPoints(stored, parts) && AllDirect(parts, rows, scan, w, agg)
    ensures KeepsTimes(Flatten(stored), Flatten(parts))
  {
    assert stored + [] == stored && parts + [] == parts;
    MergedTimesKept(stored, parts, [], rows, scan, w, agg);
  }

  lemma SameAggregate(p: Point, q: Point, l: Labels, rows: seq<Row>, w: int, agg: Aggregate)
    requires w > 0 && p.timestamp == q.timestamp
    requires IsPoint(p, l, rows, HalfOpen(Interval(p.timestamp, p.timestamp + w)), w, agg)
    requires IsPoint(q, l, rows, HalfOpen(Interval(q.timestamp, q.timestamp + w)), w, agg)
    ensures p == q
  {
  }

  lemma PartHasBucket(parts: seq<Chunk>, rows: seq<Row>, step: int, mq: MetricQuery, agg: Aggregate, l: Labels,
                      p: Point)
    requires 0 < step <= 60 && ExtraSteps(mq) == 0 && p.timestamp >= 0 && HasPoint(Flatten(parts), l, p)
    requires AllDirect(parts, rows, Adjusted(step, mq), step * 1000, agg)
    ensures var w := step * 1000;
      && InSome(Intervals(parts), p.timestamp + w - 1)
      && IsPoint(p, l, rows, HalfOpen(Interval(p.timestamp, p.timestamp + w)), w, agg)
  {
    hide Flatten, HasPoint, RowsIn, InBucket, Meets, Adjusted;
    var w := step * 1000;
    var i := FoundIn(parts, l, p);
    var read := Adjusted(step, mq)(IntervalOf(parts[i]));
    assert IsDirect(parts[i].data, rows, read, w, agg) && IsPoint(p, l, rows, read, w, agg);
    SomeRowMeets(rows, l, read, p.timestamp, w);
    AdjustedReads(IntervalOf(parts[i]), step, mq, p.timestamp);
    WholeBucket(p.timestamp, w);
    assert In(Intervals(parts)[i], p.timestamp + w - 1);
  }

  lemma WholeBucket(b: int, w: int)
    requires w > 0
    ensures InBucket(HalfOpen(Interval(b, b + w)), b, w) == HalfOpen(Interval(b, b + w))
  {
  }

  lemma BucketHasPart(parts: seq<Chunk>, rows: seq<Row>, step: int, mq: MetricQuery, agg: Aggregate, l: Labels,
                      p: Point)
    requires 0 < step <= 60 && ExtraSteps(mq) == 0 && p.timestamp >= 0
    requires InSome(Intervals(parts), p.timestamp + step * 1000 - 1)
    requires IsPoint(p, l, rows, HalfOpen(Interval(p.timestamp, p.timestamp + step * 1000)), step * 1000, agg)
    requires AllDirect(parts, rows, Adjusted(step, mq), step * 1000, agg)
    ensures HasPoint(Flatten(parts), l, p)
  {
    hide Flatten, HasPoint, RowsIn, InBucket, Meets, Adjusted;
    var w := step * 1000;
    var i :| 0 <= i < |Intervals(parts)| && In(Intervals(parts)[i], p.timestamp + w - 1);
    var read := Adjusted(step, mq)(IntervalOf(parts[i]));
    AdjustedReads(IntervalOf(parts[i]), step, mq, p.timestamp);
    WholeBucket(p.timestamp, w);
    assert IsDirect(parts[i].data, rows, read, w, agg) && IsPoint(p, l, rows, read, w, agg);
    FlattenHas(parts, i, l, p);
  }

  // ---- over many queries ----

  /** Two states of the table that agree on rows before a time. */
  ghost predicate SameBefore(seen: seq<Row>, rows: seq<Row>, time: int) {
    forall l, i: Interval :: i.end <= time ==> RowsIn(seen, l, i) == RowsIn(rows, l, i)
  }

  /** The points are the aggregates of whole buckets. */
  ghost predicate AreBucketsOf(points: map<Labels, seq<Point>>, rows: seq<Row>, w: int, agg: Aggregate)
    requires w > 0
  {
    forall l, p :: p in PointsOf(FinalBut(points, iset{}), l) <==>
      IsPoint(p, l, rows, HalfOpen(Interval(p.timestamp, p.timestamp + w)), w, agg)
  }

  /** A bucket of a range of which its query does not read all, or that may still get rows. */
  predicate IsSplit(b: int, i: Interval, scan: Scan, w: int, horizon: int)
    requires w > 0
  {
    && IsBucket(b, w) && (Meets(scan(i), b, w) || In(i, b))
    && (InBucket(scan(i), b, w) != HalfOpen(Interval(b, b + w)) || b + w > horizon)
  }

  ghost function SplitBuckets(scan: Scan, w: int, horizon: int): Interval -> iset<int>
    requires w > 0
  {
    (i: Interval) => iset b | IsSplit(b, i, scan, w, horizon)
  }

  /** A table that got all its rows from before the horizon answers as RunBuilderQuery asks of its database. So over
      any run of queries answers and cache are right at every bucket but those that some range asked for split, or that
      were missing and past the horizon. */
  lemma RowsAreFinalBefore(db: Database, asked: seq<Interval>, seen: seq<Row>, rows: seq<Row>,
                           points: map<Labels, seq<Point>>, scan: Scan, w: int, agg: Aggregate, horizon: int)
    requires w > 0 && SameBefore(seen, rows, horizon * NanosPerMilli) && AreBucketsOf(points, rows, w, agg)
    requires forall k :: 0 <= k < |asked| && Answers(db, asked[k]) ==>
      IsDirect(FetchedChunk(db, asked[k]).data, seen, scan(asked[k]), w, agg)
    ensures FinalBefore(db, asked, points, horizon, SplitBuckets(scan, w, horizon))
  {
    var cut := SplitBuckets(scan, w, horizon);
    forall k | 0 <= k < |asked| && Answers(db, asked[k])
      ensures Faithful(FetchedChunk(db, asked[k]), FinalBut(points, iset t | IsOpenIn(t, asked[k], horizon, cut)))
    {
      DirectIsFaithful(FetchedChunk(db, asked[k]), seen, rows, points, scan, w, agg, horizon);
    }
  }

  lemma DirectIsFaithful(c: Chunk, seen: seq<Row>, rows: seq<Row>, points: map<Labels, seq<Point>>, scan: Scan, w: int,
                         agg: Aggregate, horizon: int)
    requires w > 0 && SameBefore(seen, rows, horizon * NanosPerMilli) && AreBucketsOf(points, rows, w, agg)
    requires IsDirect(c.data, seen, scan(IntervalOf(c)), w, agg)
    ensures Faithful(c, FinalBut(points, iset t | IsOpenIn(t, IntervalOf(c), horizon, SplitBuckets(scan, w, horizon))))
  {
    hide IsPoint, HasPoint, OnePerLabels, InBucket, Meets, IsBucket;
    var i, read := IntervalOf(c), scan(IntervalOf(c));
    var open := iset t | IsOpenIn(t, i, horizon, SplitBuckets(scan, w, horizon));
    var truth := FinalBut(points, open);
    forall l, p: Point | p.timestamp in truth.settled
      ensures HasPoint(c.data, l, p) ==> p in PointsOf(truth, l)
      ensures p in PointsOf(truth, l) && In(i, p.timestamp) ==> HasPoint(c.data, l, p)
    {
      assert IsOutside(p.timestamp, open) && !IsOpenIn(p.timestamp, i, horizon, SplitBuckets(scan, w, horizon));
      assert PointsOf(truth, l) == PointsOf(FinalBut(points, iset{}), l);
      SamePoints(p, l, i, seen, rows, scan, w, agg, horizon);
    }
  }

  /** At a bucket that is not split the range answers what the whole bucket does in the end. */
  lemma SamePoints(p: Point, l: Labels, i: Interval, seen: seq<Row>, rows: seq<Row>, scan: Scan, w: int, agg: Aggregate,
                   horizon: int)
    requires w > 0 && SameBefore(seen, rows, horizon * NanosPerMilli) && !IsSplit(p.timestamp, i, scan, w, horizon)
    ensures var bucket := HalfOpen(Interval(p.timestamp, p.timestamp + w));
      && (IsPoint(p, l, seen, scan(i), w, agg) ==> IsPoint(p, l, rows, bucket, w, agg))
      && (IsPoint(p, l, rows, bucket, w, agg) && In(i, p.timestamp) ==> IsPoint(p, l, seen, scan(i), w, agg))
  {
    hide RowsIn;
    var bucket := HalfOpen(Interval(p.timestamp, p.timestamp + w));
    assert InBucket(bucket, p.timestamp, w) == bucket;
    if IsPoint(p, l, seen, scan(i), w, agg) {
      SomeRowMeets(seen, l, scan(i), p.timestamp, w);
    }
  }
}
