/** The bounds of what a query asks for, in terms of what is cached and of the flux horizon, and the bounds of what is
    cached in terms of what was fetched. */
module CutRanges {
  import opened Wrappers
  import opened SeriesCache
  import opened MissingRanges
  import opened QueryCache
  import opened CachedQuery
  import opened Buckets
  import opened BucketedQuery
  import opened BucketBounds

  // ---- the bounds of the ranges asked for ----

  predicate StartFits(c: Interval, query: Interval, w: int)
    requires w > 0
  {
    c.start < query.end && c.end > query.start ==> c.start <= query.start || IsBucket(c.start, w)
  }

  predicate EndFits(c: Interval, query: Interval, w: int)
    requires w > 0
  {
    c.start < query.end && c.end > query.start ==> c.end >= query.end || IsBucket(c.end, w)
  }

  /** The same for the last interval, unless the one before it or the current time reaches as far. */
  predicate LastFits(cut: seq<Interval>, cur: int, query: Interval, w: int)
    requires w > 0
  {
    cut != [] ==>
      var last := cut[|cut| - 1];
      EndFits(last, query, w) || last.end <= if |cut| > 1 then cut[|cut| - 2].end else cur
  }

  predicate AllFit(cut: seq<Interval>, cur: int, query: Interval, w: int)
    requires w > 0
  {
    && (forall i :: 0 <= i < |cut| ==> StartFits(cut[i], query, w))
    && (forall i :: 0 <= i < |cut| - 1 ==> EndFits(cut[i], query, w))
    && LastFits(cut, cur, query, w)
  }

  predicate AllOnBuckets(gaps: seq<Interval>, query: Interval, w: int)
    requires w > 0
  {
    forall i :: 0 <= i < |gaps| ==> OnBuckets(gaps[i], query, w)
  }

  lemma GapOnBuckets(cur: int, to: int, rest: seq<Interval>, query: Interval, w: int)
    requires w > 0 && AllOnBuckets(rest, query, w)
    requires cur <= query.start || IsBucket(cur, w) || cur >= to
    requires to == query.end || (to < query.end && (IsBucket(to, w) || cur >= to))
    ensures AllOnBuckets(GapBefore(cur, to) + rest, query, w)
  {
    hide IsBucket;
    var gaps := GapBefore(cur, to) + rest;
    assert forall i :: 0 <= i < |rest| ==> gaps[|gaps| - |rest| + i] == rest[i];
    forall i | 0 <= i < |gaps| ensures OnBuckets(gaps[i], query, w) {
      if i >= |gaps| - |rest| {
        assert gaps[i] == rest[i - (|gaps| - |rest|)];
      }
    }
  }

  lemma AllFitTail(cut: seq<Interval>, cur: int, next: int, query: Interval, w: int)
    requires w > 0 && AllFit(cut, cur, query, w) && cut != []
    requires cut[0].end <= query.start || next >= Min(cut[0].end, query.end)
    ensures AllFit(cut[1..], next, query, w)
  {
    hide IsBucket;
    var tail := cut[1..];
    assert forall i :: 0 <= i < |tail| ==> tail[i] == cut[i + 1];
  }

  lemma {:induction false} GapsOnBuckets(cut: seq<Interval>, cur: int, query: Interval, w: int)
    requires w > 0 && AllFit(cut, cur, query, w)
    requires query.start <= cur && (cur == query.start || cur >= query.end || IsBucket(cur, w))
    ensures AllOnBuckets(MissingFrom(cut, cur, query.start, query.end), query, w)
  {
    hide IsBucket, AllFit, OnBuckets;
    if cut != [] && cut[0].end <= query.start {
      AllFitTail(cut, cur, cur, query, w);
      GapsOnBuckets(cut[1..], cur, query, w);
    } else if cut == [] || cut[0].start >= query.end {
      GapOnBuckets(cur, query.end, [], query, w);
      assert GapBefore(cur, query.end) + [] == GapBefore(cur, query.end);
    } else {
      var next := Max(cur, Min(cut[0].end, query.end));
      AllFitTail(cut, cur, next, query, w);
      FirstFits(cut, cur, query, w);
      GapsOnBuckets(cut[1..], next, query, w);
      GapOnBuckets(cur, cut[0].start, MissingFrom(cut[1..], next, query.start, query.end), query, w);
    }
  }

  lemma FirstFits(cut: seq<Interval>, cur: int, query: Interval, w: int)
    requires w > 0 && AllFit(cut, cur, query, w) && cut != [] && query.start <= cur
    requires cut[0].end > query.start && cut[0].start < query.end
    ensures cut[0].start <= query.start || IsBucket(cut[0].start, w)
    ensures cut[0].end >= query.end || IsBucket(cut[0].end, w) || cut[0].end <= cur
  {
    assert StartFits(cut[0], query, w);
  }

  // ---- in terms of what is cached ----

  /** The horizon is where asking starts again, because it cuts the last interval inside the query. */
  predicate HorizonInside(cached: seq<Interval>, horizon: int, query: Interval) {
    && cached != [] && cached[|cached| - 1].start < query.end
    && query.start < horizon < Min(cached[|cached| - 1].end, query.end)
    && (|cached| > 1 ==> cached[|cached| - 2].end < horizon)
  }

  /** No cached interval and no horizon inside the query cuts a bucket. */
  predicate CacheOnBuckets(cached: seq<Interval>, horizon: int, query: Interval, w: int)
    requires w > 0
  {
    BoundsOnBuckets(cached, query, w) && (HorizonInside(cached, horizon, query) ==> IsBucket(horizon, w))
  }

  function AskedOf(cached: seq<Interval>, horizon: int, query: Interval): seq<Interval> {
    MissingFrom(CutLast(cached, horizon), query.start, query.start, query.end)
  }

  function RangesOf(cached: seq<Interval>, horizon: int, query: Interval): seq<Interval> {
    cached + AskedOf(cached, horizon, query)
  }

  lemma RangesOnBucketsIff(cached: seq<Interval>, horizon: int, query: Interval, w: int)
    requires w > 0 && IsCached(cached) && query.start < query.end
    ensures BoundsOnBuckets(RangesOf(cached, horizon, query), query, w)
            <==> CacheOnBuckets(cached, horizon, query, w)
  {
    hide IsBucket, Floor, OnBuckets, Overlaps, IsCached, CutLast, MissingFrom, HorizonInside;
    var asked := MissingFrom(CutLast(cached, horizon), query.start, query.start, query.end);
    var ranges := RangesOf(cached, horizon, query);
    assert forall i :: 0 <= i < |cached| ==> ranges[i] == cached[i];
    assert forall i :: 0 <= i < |asked| ==> ranges[|cached| + i] == asked[i];
    if CacheOnBuckets(cached, horizon, query, w) {
      CutFits(cached, horizon, query, w);
      GapsOnBuckets(CutLast(cached, horizon), query.start, query, w);
      forall i | 0 <= i < |ranges| && Overlaps(ranges[i], query, w) ensures OnBuckets(ranges[i], query, w) {
        assert i >= |cached| ==> ranges[i] == asked[i - |cached|];
      }
    }
    if BoundsOnBuckets(ranges, query, w) && HorizonInside(cached, horizon, query) {
      var i := HorizonIsAsked(cached, horizon, query, w);
      assert ranges[|cached| + i] == asked[i];
      StartsOnBucket(asked[i], query, w);
    }
  }

  lemma StartsOnBucket(r: Interval, query: Interval, w: int)
    requires w > 0 && OnBuckets(r, query, w) && r.start > query.start
    ensures IsBucket(r.start, w)
  {
  }

  lemma CutFits(cached: seq<Interval>, horizon: int, query: Interval, w: int)
    requires w > 0 && IsCached(cached) && query.start < query.end && CacheOnBuckets(cached, horizon, query, w)
    ensures AllFit(CutLast(cached, horizon), query.start, query, w)
  {
    hide IsBucket, Floor;
    var cut := CutLast(cached, horizon);
    FloorIsBucket(query.end, w);
    forall i | 0 <= i < |cut| ensures StartFits(cut[i], query, w) {
      assert cached[i].start < query.end && cached[i].end > query.start ==> Overlaps(cached[i], query, w);
    }
    forall i | 0 <= i < |cut| - 1 ensures EndFits(cut[i], query, w) {
      assert cached[i].start < query.end && cached[i].end > query.start ==> Overlaps(cached[i], query, w);
    }
    if cached != [] {
      var last := cached[|cached| - 1];
      assert last.start < query.end && last.end > query.start ==> Overlaps(last, query, w);
    }
  }

  /** One step of the gap search: what it adds before an interval that starts in time, and where it goes on. */
  lemma GapStep(cut: seq<Interval>, cur: int, start: int, end: int) returns (before: seq<Interval>, next: int)
    requires cut != [] && cut[0].start < end
    ensures MissingFrom(cut, cur, start, end) == before + MissingFrom(cut[1..], next, start, end)
    ensures if cut[0].end <= start then before == [] && next == cur
            else before == GapBefore(cur, cut[0].start) && next == Max(cur, Min(cut[0].end, end))
  {
    if cut[0].end <= start {
      before, next := [], cur;
    } else {
      before, next := GapBefore(cur, cut[0].start), Max(cur, Min(cut[0].end, end));
    }
  }

  /** The last range asked for then starts at the horizon. */
  lemma {:induction false} GapAtCut(cut: seq<Interval>, cur: int, start: int, end: int) returns (i: nat)
    requires cut != [] && Separated(cut) && cur < cut[|cut| - 1].end < end && start < cut[|cut| - 1].end
    requires cut[|cut| - 1].start < end && (|cut| > 1 ==> cut[|cut| - 2].end < cut[|cut| - 1].end)
    ensures i < |MissingFrom(cut, cur, start, end)|
    ensures MissingFrom(cut, cur, start, end)[i] == Interval(cut[|cut| - 1].end, end)
  {
    FirstOfSeparated(cut);
    if |cut| == 1 {
      var before := GapBefore(cur, cut[0].start);
      assert MissingFrom(cut, cur, start, end) == before + [Interval(cut[0].end, end)];
      i := |before|;
    } else {
      hide MissingFrom;
      EndsBefore(cut);
      var before, next := GapStep(cut, cur, start, end);
      i := GapAtCut(cut[1..], next, start, end);
      i := |before| + i;
    }
  }

  lemma EndsBefore(cut: seq<Interval>)
    requires Separated(cut) && |cut| > 1 && cut[|cut| - 2].end < cut[|cut| - 1].end
    ensures cut[0].end < cut[|cut| - 1].end
  {
    if |cut| > 2 {
      SeparatedStarts(cut, 0, |cut| - 2);
      assert cut[0].end < cut[1].start;
      if |cut| > 3 {
        SeparatedStarts(cut, 1, |cut| - 2);
      }
      assert cut[|cut| - 2].start <= cut[|cut| - 2].end;
    }
  }

  lemma HorizonIsAsked(cached: seq<Interval>, horizon: int, query: Interval, w: int) returns (i: nat)
    requires w > 0 && IsCached(cached) && HorizonInside(cached, horizon, query)
    ensures var asked := MissingFrom(CutLast(cached, horizon), query.start, query.start, query.end);
      && i < |asked| && asked[i] == Interval(horizon, query.end) && Overlaps(asked[i], query, w)
    ensures query.start < horizon < query.end
  {
    CutLastCovers(cached, horizon, horizon);
    i := GapAtCut(CutLast(cached, horizon), query.start, query.start, query.end);
    FloorIsBucket(query.end, w);
  }

  // ---- logs ----

  /** A cached interval that shares a bucket with the query ends with it and contains it, unless it is the last one and
      all of the query is asked for again; and the horizon cuts no bucket. */
  predicate FitsLogs(cached: seq<Interval>, i: nat, horizon: int, query: Interval, w: int)
    requires w > 0 && i < |cached|
  {
    var c, isLast := cached[i], i == |cached| - 1;
    && c.end == query.end
    && (c.start <= query.start || (isLast && horizon <= query.start && IsBucket(c.start, w)))
    && (isLast && query.start < horizon < query.end ==> IsBucket(horizon, w))
  }

  predicate CacheFitsLogs(cached: seq<Interval>, horizon: int, query: Interval, w: int)
    requires w > 0
  {
    IsBucket(query.start, w) && forall i :: 0 <= i < |cached| && Touches(cached[i], query, w) ==>
      FitsLogs(cached, i, horizon, query, w)
  }

  predicate ReachesBack(c: Interval, query: Interval, w: int)
    requires w > 0
  {
    c.start < query.end && c.end > query.start ==> c.start <= query.start && EndFits(c, query, w)
  }

  lemma {:induction false} GapsEndWithQuery(cut: seq<Interval>, cur: int, query: Interval, w: int)
    requires w > 0 && forall i :: 0 <= i < |cut| ==> ReachesBack(cut[i], query, w)
    requires query.start <= cur && (cur == query.start || cur >= query.end || IsBucket(cur, w))
    ensures forall i :: 0 <= i < |MissingFrom(cut, cur, query.start, query.end)| ==>
      EndsWith(MissingFrom(cut, cur, query.start, query.end)[i], query, w)
  {
    hide IsBucket;
    if cut != [] {
      assert ReachesBack(cut[0], query, w);
      assert forall i :: 0 <= i < |cut[1..]| ==> cut[1..][i] == cut[i + 1];
      if cut[0].end <= query.start {
        GapsEndWithQuery(cut[1..], cur, query, w);
      } else if cut[0].start < query.end {
        GapsEndWithQuery(cut[1..], Max(cur, Min(cut[0].end, query.end)), query, w);
      }
    }
  }

  lemma RangesFitLogsIff(cached: seq<Interval>, horizon: int, query: Interval, w: int)
    requires w > 0 && IsCached(cached) && query.start < query.end
    ensures EndsWithQuery(RangesOf(cached, horizon, query), query, w) <==> CacheFitsLogs(cached, horizon, query, w)
  {
    hide IsBucket, Floor, FitsLogs, Touches, IsCached, CutLast, MissingFrom;
    var asked := MissingFrom(CutLast(cached, horizon), query.start, query.start, query.end);
    var ranges := RangesOf(cached, horizon, query);
    assert forall i :: 0 <= i < |cached| ==> ranges[i] == cached[i];
    assert forall i :: 0 <= i < |asked| ==> ranges[|cached| + i] == asked[i];
    if CacheFitsLogs(cached, horizon, query, w) {
      CutReachesBack(cached, horizon, query, w);
      GapsEndWithQuery(CutLast(cached, horizon), query.start, query, w);
      forall i | 0 <= i < |ranges| && Touches(ranges[i], query, w) ensures EndsWith(ranges[i], query, w) {
        if i >= |cached| {
          assert ranges[i] == asked[i - |cached|];
        } else {
          FitEndsWith(cached, i, horizon, query, w);
        }
      }
    }
    if EndsWithQuery(ranges, query, w) {
      forall i | 0 <= i < |cached| && Touches(cached[i], query, w) ensures FitsLogs(cached, i, horizon, query, w) {
        assert forall k :: 0 <= k < |cached| && Touches(cached[k], query, w) ==> EndsWith(cached[k], query, w);
        TouchingFits(cached, i, horizon, query, w);
      }
    }
  }

  lemma FitEndsWith(cached: seq<Interval>, i: nat, horizon: int, query: Interval, w: int)
    requires w > 0 && i < |cached| && FitsLogs(cached, i, horizon, query, w)
    ensures EndsWith(cached[i], query, w)
  {
  }

  lemma CutReachesBack(cached: seq<Interval>, horizon: int, query: Interval, w: int)
    requires w > 0 && IsCached(cached) && query.start < query.end && CacheFitsLogs(cached, horizon, query, w)
    ensures forall i :: 0 <= i < |CutLast(cached, horizon)| ==> ReachesBack(CutLast(cached, horizon)[i], query, w)
  {
    hide IsBucket, Floor;
    var cut := CutLast(cached, horizon);
    FloorIsBucket(query.end, w);
    forall i | 0 <= i < |cut| ensures ReachesBack(cut[i], query, w) {
      if cut[i].start < query.end && cut[i].end > query.start {
        assert Touches(cached[i], query, w) && FitsLogs(cached, i, horizon, query, w);
      }
    }
  }

  lemma CutAt(cached: seq<Interval>, horizon: int, i: nat)
    requires i < |cached|
    ensures var cut := CutLast(cached, horizon);
      && |cut| == |cached| && cut[i].start == cached[i].start
      && cut[i].end == if i == |cached| - 1 then Min(cached[i].end, horizon) else cached[i].end
  {
  }

  /** Before an interval that starts inside the query there is a gap, unless all of the interval is before the query. */
  lemma {:induction false} GapBeforeStart(cut: seq<Interval>, i: nat, cur: int, start: int, end: int) returns (k: nat)
    requires Separated(cut) && i < |cut| && start < cut[i].end && start <= cur < cut[i].start < end
    ensures k < |MissingFrom(cut, cur, start, end)| && MissingFrom(cut, cur, start, end)[k].end == cut[i].start
    ensures MissingFrom(cut, cur, start, end)[k].start < cut[i].start
  {
    hide Separated, MissingFrom;
    FirstOfSeparated(cut);
    if i > 0 {
      SeparatedStarts(cut, 0, i);
    }
    var before, next := GapStep(cut, cur, start, end);
    if i == 0 {
      assert before == [Interval(cur, cut[0].start)];
      k := 0;
    } else {
      if i > 1 {
        SeparatedStarts(cut, 1, i);
      }
      k := GapBeforeStart(cut[1..], i - 1, next, start, end);
      k := |before| + k;
    }
  }

  lemma TouchingFits(cached: seq<Interval>, i: nat, horizon: int, query: Interval, w: int)
    requires w > 0 && IsCached(cached) && query.start < query.end && i < |cached| && Touches(cached[i], query, w)
    requires EndsWithQuery(RangesOf(cached, horizon, query), query, w)
    requires forall k :: 0 <= k < |cached| && Touches(cached[k], query, w) ==> EndsWith(cached[k], query, w)
    ensures FitsLogs(cached, i, horizon, query, w)
  {
    hide IsBucket, Floor, MissingFrom, CutLast;
    var c, ranges := cached[i], RangesOf(cached, horizon, query);
    assert EndsWith(c, query, w) && c.start < c.end;
    FloorIsBucket(query.end, w);
    CutLastCovers(cached, horizon, horizon);
    var cut := CutLast(cached, horizon);
    CutAt(cached, horizon, i);
    if c.start > query.start && cut[i].end > query.start {
      var k := GapBeforeStart(cut, i, query.start, query.start, query.end);
      InsideEndsWith(ranges, |cached| + k, query, w);
    }
    if i == |cached| - 1 && query.start < horizon < query.end {
      if i > 0 {
        assert cached[i - 1].start < cached[i - 1].end < c.start;
        InsideEndsWith(ranges, i - 1, query, w);
      }
      var k := HorizonIsAsked(cached, horizon, query, w);
      InsideEndsWith(ranges, |cached| + k, query, w);
    }
  }

  lemma InsideEndsWith(ranges: seq<Interval>, j: nat, query: Interval, w: int)
    requires w > 0 && EndsWithQuery(ranges, query, w) && j < |ranges|
    ensures ranges[j].start <= ranges[j].end && query.start <= ranges[j].end && ranges[j].start < query.end ==>
      EndsWith(ranges[j], query, w)
  {
    hide IsBucket, Floor;
    FloorIsBucket(query.end, w);
    assert Touches(ranges[j], query, w) ==> EndsWith(ranges[j], query, w);
  }

  lemma RangesCover(cached: seq<Interval>, horizon: int, query: Interval)
    requires IsCached(cached)
    ensures Covers(RangesOf(cached, horizon, query), query)
  {
    hide MissingFrom, CutLast, IsCached;
    var cut := CutLast(cached, horizon);
    var asked := MissingFrom(cut, query.start, query.start, query.end);
    var ranges := RangesOf(cached, horizon, query);
    CachedIsSorted(cached);
    InSomeBoth(cached, asked);
    forall t | In(query, t) ensures InSome(ranges, t) {
      CutLastCovers(cached, horizon, t);
      MissingIsComplement(cut, query.start, query.start, query.end, t);
    }
  }

  lemma CachedIsSorted(cached: seq<Interval>)
    requires IsCached(cached)
    ensures SortedByStart(cached)
  {
    SeparatedIsSorted(cached);
  }

  // ---- in terms of what was fetched ----

  /** The cached intervals cover what was fetched. */
  ghost predicate CoverSame(got: seq<Interval>, cached: seq<Interval>) {
    NonEmpty(got) && forall t :: InSome(got, t) <==> InSome(cached, t)
  }

  lemma CachedApart(cached: seq<Interval>, i: nat, j: nat)
    requires IsCached(cached) && i < j < |cached|
    ensures cached[i].end < cached[j].start
  {
    assert cached[i].end < cached[i + 1].start;
    if i + 1 < j {
      SeparatedStarts(cached, i + 1, j);
    }
  }

  lemma OneHasTime(cached: seq<Interval>, i: nat, j: nat, t: int)
    requires IsCached(cached) && i < |cached| && j < |cached| && In(cached[j], t)
    requires cached[i].start - 1 <= t <= cached[i].end
    ensures i == j
  {
    if i < j {
      CachedApart(cached, i, j);
    } else if j < i {
      CachedApart(cached, j, i);
    }
  }

  /** A range that was fetched lies in one cached interval. */
  lemma GotWithin(got: seq<Interval>, cached: seq<Interval>, k: nat, i: nat, t: int)
    requires IsCached(cached) && CoverSame(got, cached) && k < |got| && i < |cached|
    requires In(got[k], t) && In(cached[i], t)
    ensures cached[i].start <= got[k].start && got[k].end <= cached[i].end
  {
    hide IsCached;
    var r, c := got[k], cached[i];
    if r.start < c.start {
      assert In(r, c.start - 1) && InSome(got, c.start - 1);
      var j :| 0 <= j < |cached| && In(cached[j], c.start - 1);
      OneHasTime(cached, i, j, c.start - 1);
    }
    if c.end < r.end {
      assert In(r, c.end) && InSome(got, c.end);
      var j :| 0 <= j < |cached| && In(cached[j], c.end);
      OneHasTime(cached, i, j, c.end);
    }
  }

  /** At every time of a cached interval something was fetched, inside that interval. */
  lemma GotAt(got: seq<Interval>, cached: seq<Interval>, i: nat, t: int) returns (k: nat)
    requires IsCached(cached) && CoverSame(got, cached) && i < |cached| && In(cached[i], t)
    ensures k < |got| && In(got[k], t) && cached[i].start <= got[k].start && got[k].end <= cached[i].end
  {
    assert InSome(cached, t) && InSome(got, t);
    k :| 0 <= k < |got| && In(got[k], t);
    GotWithin(got, cached, k, i, t);
  }

  lemma CachedEndsWith(got: seq<Interval>, cached: seq<Interval>, i: nat, query: Interval, w: int)
    requires w > 0 && IsCached(cached) && CoverSame(got, cached) && query.start < query.end
    requires EndsWithQuery(got, query, w) && i < |cached| && Touches(cached[i], query, w)
    ensures EndsWith(cached[i], query, w)
  {
    hide IsBucket, Floor, IsCached, CoverSame;
    var c := cached[i];
    assert c.start < c.end by {
      CachedNotEmpty(cached, i);
    }
    FloorIsBucket(query.end, w);
    var k := GotAt(got, cached, i, Max(c.start, query.start - 1));
    GotTouching(got, k, query, w);
    if query.end < c.end {
      k := GotAt(got, cached, i, query.end);
      GotTouching(got, k, query, w);
    }
    if c.start > query.start {
      k := GotAt(got, cached, i, c.start);
      GotTouching(got, k, query, w);
    }
  }

  lemma CachedNotEmpty(cached: seq<Interval>, i: nat)
    requires IsCached(cached) && i < |cached|
    ensures cached[i].start < cached[i].end
  {
  }

  lemma GotTouching(got: seq<Interval>, k: nat, query: Interval, w: int)
    requires w > 0 && EndsWithQuery(got, query, w) && k < |got|
    ensures Touches(got[k], query, w) ==> EndsWith(got[k], query, w)
  {
  }

  lemma CachedOnBuckets(got: seq<Interval>, cached: seq<Interval>, i: nat, query: Interval, w: int)
    requires w > 0 && IsCached(cached) && CoverSame(got, cached) && query.start < query.end
    requires BoundsOnBuckets(got, query, w) && i < |cached| && Overlaps(cached[i], query, w)
    ensures OnBuckets(cached[i], query, w)
  {
    hide IsBucket, Floor, IsCached, CoverSame;
    var c, last := cached[i], Floor(query.end, w) + w - 1;
    FloorIsBucket(query.end, w);
    var k := GotAt(got, cached, i, Min(c.end - 1, last));
    GotOverlapping(got, k, query, w);
    if c.start > query.start {
      k := GotAt(got, cached, i, c.start);
      GotOverlapping(got, k, query, w);
    }
  }

  lemma GotOverlapping(got: seq<Interval>, k: nat, query: Interval, w: int)
    requires w > 0 && BoundsOnBuckets(got, query, w) && k < |got|
    ensures Overlaps(got[k], query, w) ==> OnBuckets(got[k], query, w)
  {
  }

  lemma EndsWithBoth(a: seq<Interval>, b: seq<Interval>, query: Interval, w: int)
    requires w > 0
    ensures EndsWithQuery(a + b, query, w) <==> EndsWithQuery(a, query, w) && EndsWithQuery(b, query, w)
  {
    hide IsBucket, Floor, Touches, EndsWith;
    assert forall i :: 0 <= i < |a| ==> (a + b)[i] == a[i];
    assert forall i :: 0 <= i < |b| ==> (a + b)[|a| + i] == b[i];
  }

  lemma OnBucketsBoth(a: seq<Interval>, b: seq<Interval>, query: Interval, w: int)
    requires w > 0
    ensures BoundsOnBuckets(a + b, query, w) <==> BoundsOnBuckets(a, query, w) && BoundsOnBuckets(b, query, w)
  {
    hide IsBucket, Floor, Overlaps, OnBuckets;
    assert forall i :: 0 <= i < |a| ==> (a + b)[i] == a[i];
    assert forall i :: 0 <= i < |b| ==> (a + b)[|a| + i] == b[i];
  }

  lemma GotFitsLogsIff(got: seq<Interval>, cached: seq<Interval>, horizon: int, query: Interval, w: int)
    requires w > 0 && IsCached(cached) && CoverSame(got, cached) && query.start < query.end
    ensures EndsWithQuery(got + AskedOf(cached, horizon, query), query, w)
            <==> EndsWithQuery(got, query, w) && CacheFitsLogs(cached, horizon, query, w)
  {
    hide IsBucket, Floor, Touches, EndsWith, IsCached, CoverSame, CacheFitsLogs, MissingFrom, CutLast;
    EndsWithBoth(got, AskedOf(cached, horizon, query), query, w);
    EndsWithBoth(cached, AskedOf(cached, horizon, query), query, w);
    RangesFitLogsIff(cached, horizon, query, w);
    if EndsWithQuery(got, query, w) {
      forall i | 0 <= i < |cached| && Touches(cached[i], query, w) ensures EndsWith(cached[i], query, w) {
        CachedEndsWith(got, cached, i, query, w);
      }
    }
  }

  lemma GotOnBucketsIff(got: seq<Interval>, cached: seq<Interval>, horizon: int, query: Interval, w: int)
    requires w > 0 && IsCached(cached) && CoverSame(got, cached) && query.start < query.end
    ensures BoundsOnBuckets(got + AskedOf(cached, horizon, query), query, w)
            <==> BoundsOnBuckets(got, query, w) && (HorizonInside(cached, horizon, query) ==> IsBucket(horizon, w))
  {
    hide IsBucket, Floor, Overlaps, OnBuckets, IsCached, CoverSame, HorizonInside, MissingFrom, CutLast;
    OnBucketsBoth(got, AskedOf(cached, horizon, query), query, w);
    OnBucketsBoth(cached, AskedOf(cached, horizon, query), query, w);
    RangesOnBucketsIff(cached, horizon, query, w);
    if BoundsOnBuckets(got, query, w) {
      forall i | 0 <= i < |cached| && Overlaps(cached[i], query, w) ensures OnBuckets(cached[i], query, w) {
        CachedOnBuckets(got, cached, i, query, w);
      }
    }
  }

  lemma CoverBothWays(got: seq<Interval>, cached: seq<Interval>, asked: seq<Interval>, query: Interval)
    requires CoverSame(got, cached) && Covers(cached + asked, query)
    ensures Covers(got + asked, query)
  {
    InSomeBoth(got, asked);
    InSomeBoth(cached, asked);
  }
}
