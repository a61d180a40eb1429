/** When a cached chunk cuts a bucket of a metrics query, which moves its bounds before it reads
    (app/metrics/v3/query_builder.go). */
module MetricBuckets {
  import opened Wrappers
  import opened MissingRanges
  import opened TimeRange
  import opened Buckets
  import opened BucketedQuery
  import opened BucketBounds

  /** Metrics queries move the bounds to steps, or to minutes, before they read. */
  function Adjusted(step: int, mq: MetricQuery): Scan
    requires step != 0
  {
    (i: Interval) => HalfOpen(Interval(AdjustedStart(i.start, step, mq), AdjustedEnd(i.end, step)))
  }

  /** What a metrics query without extra steps reads is whole buckets, for steps up to a minute. */
  lemma AdjustedReads(i: Interval, step: int, mq: MetricQuery, b: int)
    requires 0 < step <= 60 && ExtraSteps(mq) == 0 && IsBucket(b, step * 1000) && b >= 0
    ensures var w, read := step * 1000, Adjusted(step, mq)(i);
      && (Meets(read, b, w) <==> i.start < b + w <= i.end)
      && (Meets(read, b, w) ==> InBucket(read, b, w) == HalfOpen(Interval(b, b + w)))
  {
    var w := step * 1000;
    var s, e := RoundTo(i.start, w), RoundTo(i.end, w);
    RoundIsFloor(i.start, w);
    RoundIsFloor(i.end, w);
    FloorIsBucket(i.start, w);
    FloorIsBucket(i.end, w);
    BucketsInSteps(s, b, w);
    BucketsInSteps(e, b, w);
    hide RoundTo, IsBucket, Floor;
    assert Adjusted(step, mq)(i) == HalfOpen(Interval(s, e));
    assert s <= b <==> i.start < b + w;
    assert b + w <= e <==> b + w <= i.end;
  }

  // ---- any step ----

  /** The unit that ends are moved to. */
  function Grain(step: int): int {
    (if step < 60 then step else 60) * 1000
  }

  /** What is read for a range lies partly between the start of the query and its end. */
  predicate ReadsInside(r: Interval, query: Interval, step: int, mq: MetricQuery)
    requires step > 0
  {
    && AdjustedStart(r.start, step, mq) < AdjustedEnd(r.end, step)
    && query.start < AdjustedEnd(r.end, step) && AdjustedStart(r.start, step, mq) <= query.end
  }

  /** It ends where reading for the query does, or before that on a step. */
  predicate ReadEndFits(r: Interval, query: Interval, step: int)
    requires step > 0
  {
    var e, last := AdjustedEnd(r.end, step), AdjustedEnd(query.end, step);
    e == last || (e < last && IsBucket(e, step * 1000))
  }

  /** The query takes no extra step; and it starts on a step and every read inside it ends with its own or on a step, or
      it reads nothing at all. */
  predicate MetricsFit(ranges: seq<Interval>, query: Interval, step: int, mq: MetricQuery)
    requires step > 0
  {
    && ExtraSteps(mq) == 0
    && if IsBucket(query.start, step * 1000) then
         forall i :: 0 <= i < |ranges| && ReadsInside(ranges[i], query, step, mq) ==>
           ReadEndFits(ranges[i], query, step)
       else AdjustedEnd(query.end, step) <= AdjustedStart(query.start, step, mq)
  }

  lemma AdjustedIff(ranges: seq<Interval>, query: Interval, step: int, mq: MetricQuery)
    requires step > 0 && 0 <= query.start < query.end && Covers(ranges, query)
    ensures NoBucketCut(ranges, query, Adjusted(step, mq), step * 1000) <==> MetricsFit(ranges, query, step, mq)
  {
    hide IsBucket, IsWhole, NoBucketCut, Adjusted, ReadsInside, ReadEndFits, ExtraSteps;
    var w, scan := step * 1000, Adjusted(step, mq);
    if MetricsFit(ranges, query, step, mq) {
      forall b | IsBucket(b, w) ensures IsWhole(b, ranges, query, scan, w) {
        AdjustedWhole(b, ranges, query, step, mq);
      }
      EachWhole(ranges, query, scan, w);
    }
    if NoBucketCut(ranges, query, scan, w) {
      AdjustedStartFits(ranges, query, step, mq);
      if IsBucket(query.start, w) {
        forall i | 0 <= i < |ranges| && ReadsInside(ranges[i], query, step, mq)
          ensures ReadEndFits(ranges[i], query, step)
        {
          AdjustedEndFits(i, ranges, query, step, mq);
        }
      }
    }
  }

  lemma AdjustedBounds(i: Interval, step: int, mq: MetricQuery)
    requires step > 0 && ExtraSteps(mq) == 0
    ensures var w, m := step * 1000, Grain(step);
      var a, e := AdjustedStart(i.start, step, mq), AdjustedEnd(i.end, step);
      && 0 < m <= w && IsBucket(a, w) && Adjusted(step, mq)(i) == HalfOpen(Interval(a, e))
      && (if i.start >= 0 then a <= i.start < a + w else a <= 0)
      && (if i.end >= 0 then e <= i.end < e + m else e <= 0)
  {
    RoundIsFloor(i.start, step * 1000);
    FloorIsBucket(i.start, step * 1000);
    RoundIsFloor(i.end, Grain(step));
    FloorIsBucket(i.end, Grain(step));
    hide RoundTo, IsBucket, Floor;
    assert AdjustedStart(i.start, step, mq) == RoundTo(i.start, step * 1000);
    assert AdjustedEnd(i.end, step) == RoundTo(i.end, Grain(step));
  }

  lemma AdjustedWhole(b: int, ranges: seq<Interval>, query: Interval, step: int, mq: MetricQuery)
    requires step > 0 && 0 <= query.start < query.end && Covers(ranges, query)
    requires MetricsFit(ranges, query, step, mq) && IsBucket(b, step * 1000)
    ensures IsWhole(b, ranges, query, Adjusted(step, mq), step * 1000)
  {
    hide IsBucket, Adjusted, AdjustedStart, AdjustedEnd, Grain, ExtraSteps, MetBySome;
    var w, scan := step * 1000, Adjusted(step, mq);
    var a, e := AdjustedStart(query.start, step, mq), AdjustedEnd(query.end, step);
    AdjustedBounds(query, step, mq);
    BucketsInSteps(a, b, w);
    BucketsInSteps(b, a, w);
    if IsBucket(query.start, w) {
      BucketsApart(a, query.start, w);
      if Meets(scan(query), b, w) {
        BucketIsMet(b, ranges, query, step, mq);
      }
    }
    forall i | query.start <= b <= query.end && 0 <= i < |ranges| && Meets(scan(ranges[i]), b, w)
      ensures InBucket(scan(ranges[i]), b, w) == InBucket(scan(query), b, w)
    {
      AdjustedBounds(ranges[i], step, mq);
      BucketsInSteps(AdjustedStart(ranges[i].start, step, mq), b, w);
      assert ReadsInside(ranges[i], query, step, mq) && ReadEndFits(ranges[i], query, step);
      if IsBucket(AdjustedEnd(ranges[i].end, step), w) {
        BucketsInSteps(AdjustedEnd(ranges[i].end, step), b, w);
      }
    }
  }

  /** Some range that covers the last time of a bucket inside the query reads of that bucket. */
  lemma BucketIsMet(b: int, ranges: seq<Interval>, query: Interval, step: int, mq: MetricQuery)
    requires step > 0 && ExtraSteps(mq) == 0 && IsBucket(b, step * 1000)
    requires 0 <= query.start <= b < AdjustedEnd(query.end, step) && query.start < query.end && Covers(ranges, query)
    ensures MetBySome(ranges, Adjusted(step, mq), b, step * 1000)
  {
    hide IsBucket, Adjusted, AdjustedStart, AdjustedEnd, Grain, ExtraSteps;
    var w := step * 1000;
    AdjustedBounds(query, step, mq);
    var t := Min(b + w, query.end) - 1;
    assert In(query, t) && InSome(ranges, t);
    var i :| 0 <= i < |ranges| && In(ranges[i], t);
    var r := ranges[i];
    AdjustedBounds(r, step, mq);
    BucketsInSteps(AdjustedStart(r.start, step, mq), b, w);
    if t == query.end - 1 {
      EndIsMonotone(query.end, r.end, step);
    }
    assert Meets(Adjusted(step, mq)(r), b, w);
  }

  lemma EndIsMonotone(a: int, b: int, step: int)
    requires step > 0 && a <= b
    ensures AdjustedEnd(a, step) <= AdjustedEnd(b, step)
  {
    hide RoundTo;
    RoundIsMonotone(a, b, (if step < 60 then step else 60) * 1000);
  }

  lemma AdjustedStartFits(ranges: seq<Interval>, query: Interval, step: int, mq: MetricQuery)
    requires step > 0 && 0 <= query.start < query.end
    requires NoBucketCut(ranges, query, Adjusted(step, mq), step * 1000)
    ensures ExtraSteps(mq) == 0
    ensures !IsBucket(query.start, step * 1000) ==>
      AdjustedEnd(query.end, step) <= AdjustedStart(query.start, step, mq)
  {
    hide NoBucketCut, ExtraSteps, MetBySome, AdjustedStart, AdjustedEnd, IsBucket;
    var w, scan := step * 1000, Adjusted(step, mq);
    var a, e := AdjustedStart(query.start, step, mq), AdjustedEnd(query.end, step);
    FirstBucket(query, step, mq);
    if a < e && a < query.start {
      assert scan(query) == HalfOpen(Interval(a, e));
      assert Meets(scan(query), a, w);
      WholeAt(a, ranges, query, scan, w);
    }
  }

  lemma FirstBucket(query: Interval, step: int, mq: MetricQuery)
    requires step > 0 && 0 <= query.start < query.end
    ensures var w, a, e := step * 1000, AdjustedStart(query.start, step, mq), AdjustedEnd(query.end, step);
      && IsBucket(a, w) && a <= query.start && (a == query.start ==> IsBucket(query.start, w) && ExtraSteps(mq) == 0)
      && (ExtraSteps(mq) > 0 ==> a < e)
  {
    AdjustedStartIsAligned(query.start, step, mq);
    AdjustedEndIsAligned(query.end, step);
  }

  lemma AdjustedEndFits(i: nat, ranges: seq<Interval>, query: Interval, step: int, mq: MetricQuery)
    requires step > 0 && ExtraSteps(mq) == 0 && 0 <= query.start < query.end && IsBucket(query.start, step * 1000)
    requires NoBucketCut(ranges, query, Adjusted(step, mq), step * 1000)
    requires i < |ranges| && ReadsInside(ranges[i], query, step, mq)
    ensures ReadEndFits(ranges[i], query, step)
  {
    hide IsBucket, Floor, Adjusted, AdjustedStart, AdjustedEnd, Grain, ExtraSteps, MetBySome, NoBucketCut;
    var r, w, scan := ranges[i], step * 1000, Adjusted(step, mq);
    var a, e, last := AdjustedStart(r.start, step, mq), AdjustedEnd(r.end, step), AdjustedEnd(query.end, step);
    AdjustedBounds(r, step, mq);
    AdjustedBounds(query, step, mq);
    if !ReadEndFits(r, query, step) {
      var b := OddBucket(a, e, last, query, w);
      assert Meets(scan(r), b, w);
      WholeAt(b, ranges, query, scan, w);
    }
  }

  /** Unless both ends are one, or the first is the earlier and on a step, reading up to them gives different parts of
      some bucket. */
  lemma OddBucket(a: int, e: int, last: int, query: Interval, w: int) returns (b: int)
    requires w > 0 && IsBucket(a, w) && IsBucket(query.start, w)
    requires a < e && query.start < e && a <= query.end && query.start < query.end && last <= query.end
    requires e != last && !(e < last && IsBucket(e, w))
    ensures IsBucket(b, w) && query.start <= b <= query.end && a <= b < e && Min(e, b + w) != Min(last, b + w)
  {
    hide IsBucket, Floor;
    if e < last {
      b := Floor(e, w);
    } else {
      b := Floor(last, w);
    }
    FloorIsBucket(e, w);
    FloorIsBucket(last, w);
    BucketsInSteps(a, b, w);
    BucketsInSteps(query.start, b, w);
    if e > last && (b < a || b < query.start) {
      b := Max(a, query.start);
    }
  }

  // ---- steps up to a minute ----

  /** In terms of the bucket that the end of the query lies in, of which the query itself reads nothing. */
  ghost predicate MinuteMetricsFit(ranges: seq<Interval>, query: Interval, step: int, mq: MetricQuery)
    requires step > 0
  {
    var w := step * 1000;
    && ExtraSteps(mq) == 0
    && if IsBucket(query.start, w) then !InSome(ranges, Floor(query.end, w) + w - 1)
       else Floor(query.start, w) == Floor(query.end, w)
  }

  lemma MinuteFitsIff(ranges: seq<Interval>, query: Interval, step: int, mq: MetricQuery)
    requires 0 < step <= 60 && 0 <= query.start < query.end
    ensures MetricsFit(ranges, query, step, mq) <==> MinuteMetricsFit(ranges, query, step, mq)
  {
    hide IsBucket, Floor, AdjustedStart, AdjustedEnd, ExtraSteps, ReadsInside, ReadEndFits, In;
    var w := step * 1000;
    if ExtraSteps(mq) == 0 && IsBucket(query.start, w) {
      forall i | 0 <= i < |ranges|
        ensures ReadsInside(ranges[i], query, step, mq) && !ReadEndFits(ranges[i], query, step)
                <==> In(ranges[i], Floor(query.end, w) + w - 1)
      {
        MinuteReads(ranges[i], query, step, mq);
      }
    } else if ExtraSteps(mq) == 0 {
      MinuteBounds(query, step, mq);
      FloorIsBucket(query.start, w);
      FloorIsBucket(query.end, w);
      BucketsInSteps(Floor(query.start, w), Floor(query.end, w), w);
    }
  }

  /** Up to a minute, starts and ends are moved to the same steps. */
  lemma MinuteBounds(i: Interval, step: int, mq: MetricQuery)
    requires 0 < step <= 60 && ExtraSteps(mq) == 0
    ensures var w, a, e := step * 1000, AdjustedStart(i.start, step, mq), AdjustedEnd(i.end, step);
      && IsBucket(a, w) && IsBucket(e, w)
      && (if i.start >= 0 then a == Floor(i.start, w) else a <= 0)
      && (if i.end >= 0 then e == Floor(i.end, w) else e <= 0)
  {
    RoundIsFloor(i.start, step * 1000);
    RoundIsFloor(i.end, step * 1000);
  }

  lemma MinuteReads(r: Interval, query: Interval, step: int, mq: MetricQuery)
    requires 0 < step <= 60 && ExtraSteps(mq) == 0 && 0 <= query.start < query.end && IsBucket(query.start, step * 1000)
    ensures ReadsInside(r, query, step, mq) && !ReadEndFits(r, query, step)
            <==> In(r, Floor(query.end, step * 1000) + step * 1000 - 1)
  {
    hide IsBucket, Floor, AdjustedStart, AdjustedEnd, ExtraSteps;
    var w := step * 1000;
    var a, e, last := AdjustedStart(r.start, step, mq), AdjustedEnd(r.end, step), Floor(query.end, w);
    MinuteBounds(r, step, mq);
    MinuteBounds(query, step, mq);
    FloorIsBucket(r.start, w);
    FloorIsBucket(r.end, w);
    FloorIsBucket(query.end, w);
    BucketsInSteps(a, last, w);
    BucketsInSteps(last, a, w);
    BucketsInSteps(e, last, w);
    BucketsInSteps(query.start, last, w);
    BucketsInSteps(last, e, w);
  }
}
