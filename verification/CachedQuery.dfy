/** The query cache object (querycache/query_range_cache.go) and the querier's use of it for one builder query
    (app/querier/helper.go). */
module CachedQuery {
  import opened Wrappers
  import opened SortSlice
  import opened SeriesCache
  import opened MissingRanges
  import opened QueryCache
  import opened TimeRange

  class Cache {
    const enabled: bool
    const fluxInterval: int
    var stored: map<string, seq<Chunk>>

    /** Under every key, the chunks as they were fetched, before they were merged. */
    ghost var parts: map<string, seq<Chunk>>

    /** Under every key the chunks are non-empty and in order, with gaps between them, and are what was fetched. */
    ghost predicate Valid()
      reads this
    {
      forall k :: k in stored && k != "" ==>
        && IsCached(Intervals(stored[k]))
        && k in parts && NonEmpty(Intervals(parts[k])) && IsKept(stored, k, parts[k])
    }

    constructor (enabled: bool, fluxInterval: int)
      ensures Valid() && this.enabled == enabled && this.fluxInterval == fluxInterval
      ensures stored == map[] && parts == map[]
    {
      this.enabled, this.fluxInterval, stored, parts := enabled, fluxInterval, map[], map[];
    }

    /** The time from which cached data is not trusted yet. */
    function Horizon(step: int, now: nat): (h: int)
      requires step != 0
      ensures step > 0 ==> now - fluxInterval - 60_000 < h <= now - fluxInterval
      ensures step >= 60 ==> (h + fluxInterval) % 60_000 == 0
    {
      now - now % (Min(step, 60) * 1000) - fluxInterval
    }

    /** The chunks cached under a key, as far as the cache is used. */
    function Cached(cacheKey: string): seq<Chunk>
      reads this
    {
      if enabled && cacheKey in stored then stored[cacheKey] else []
    }

    /** The chunks fetched under a key so far, as far as the cache is used. */
    ghost function Parts(cacheKey: string): seq<Chunk>
      reads this
    {
      if enabled && cacheKey in stored && cacheKey in parts then parts[cacheKey] else []
    }

    /** The ranges the database is asked for: the gaps between the cached chunks, the last one cut at the horizon. */
    ghost function Asked(start: int, end: int, step: int, cacheKey: string, now: nat): seq<Interval>
      requires step != 0
      reads this
    {
      if !enabled || cacheKey == "" then [Interval(start, end)]
      else MissingFrom(CutLast(Intervals(Cached(cacheKey)), Horizon(step, now)), start, start, end)
    }

    /** FindMissingTimeRanges: the gaps between the cached chunks in order of their starts, the last one cut at the
        horizon. Chunks of equal starts may come in any order, so the order is an output. */
    method FindMissingTimeRanges(start: int, end: int, step: int, cacheKey: string, now: nat)
      returns (missing: seq<Interval>, ghost order: seq<Chunk>)
      requires step != 0
      ensures !enabled || cacheKey == "" ==> missing == [Interval(start, end)]
      ensures enabled && cacheKey != "" ==>
        && SortedBy(order, StartOf) && multiset(order) == multiset(Cached(cacheKey))
        && missing == MissingFrom(CutLast(Intervals(order), Horizon(step, now)), start, start, end)
      ensures FillsTheGaps(missing, Cached(cacheKey), start, end)
      ensures enabled && cacheKey != "" ==> NonEmpty(missing) && (cacheKey !in stored ==> IsCached(missing))
      // of a cache as the querier leaves it: which ranges, when they overlap, and when all that is past the horizon
      // is missing
      ensures Valid() ==> missing == Asked(start, end, step, cacheKey, now)
      ensures Valid() && enabled && cacheKey != "" ==>
        var cached, horizon := Intervals(Cached(cacheKey)), Horizon(step, now);
        && (InOrder(missing) <==> cached == [] || !(start < horizon < cached[|cached| - 1].start < end))
        && (start < end ==>
              (AllMissingFrom(missing, Max(start, horizon), end)
               <==> Max(start, horizon) >= end || OnlyLastPastHorizon(cached, start, end, horizon)))
    {
      hide Separated, InOrder, NonEmpty, MissingFrom, AllMissingFrom, OnlyLastPastHorizon, SortedBy, InSome;
      order := [];
      if !enabled || cacheKey == "" {
        missing := [Interval(start, end)];
        WholeFillsTheGaps(Cached(cacheKey), start, end);
        return;
      }
      var cached := Slice(Cached(cacheKey), StartOf);
      order := cached;
      var intervals := Intervals(cached);
      if |intervals| > 0 {
        var last := intervals[|intervals| - 1];
        intervals := intervals[|intervals| - 1 := Interval(last.start, Min(last.end, Horizon(step, now)))];
      }
      missing := MissingBetween(intervals, start, end);
      GapsAreFilled(order, Cached(cacheKey), Horizon(step, now), start, end);
      MissingNonEmpty(intervals, start, start, end);
      NothingCached(start, end);
      CachedIsOrdered(order, Cached(cacheKey));
      if Valid() {
        GapsOverlapIff(Intervals(order), Horizon(step, now), start, end);
        if start < end {
          PastHorizonIsFetchedIff(Intervals(order), start, end, Horizon(step, now));
        }
      }
    }

    /** MergeWithCachedSeriesData: what was cached and what was fetched, overlapping chunks merged, is stored. What was
        fetched before is remembered beside it. */
    method MergeWithCachedSeriesData(cacheKey: string, newData: seq<Chunk>, ghost truth: Truth)
      returns (merged: seq<Chunk>)
      requires IsTruth(truth)
      modifies this
      ensures !enabled ==> merged == newData && stored == old(stored) && parts == old(parts)
      ensures enabled ==> stored == old(stored)[cacheKey := merged]
      ensures enabled ==> parts == old(parts)[cacheKey := old(Parts(cacheKey)) + newData]
      ensures IsMergeOf(merged, old(Cached(cacheKey)) + newData, truth)
      ensures enabled && cacheKey !in old(stored) ==> merged == newData
      ensures old(Valid()) && (cacheKey == "" || CanBeCached(newData, cacheKey !in old(stored))) ==> Valid()
    {
      if !enabled {
        assert [] + newData == newData;
        SamePointsKept(newData);
        return newData;
      }
      if cacheKey !in stored {
        assert [] + newData == newData;
        SamePointsKept(newData);
        stored, parts := stored[cacheKey := newData], parts[cacheKey := newData];
        return newData;
      }
      var allData := Slice(stored[cacheKey] + newData, StartOf);
      merged := MergeOverlapping(allData, truth);
      MergeInAnyOrder(merged, allData, stored[cacheKey] + newData, truth);
      NonEmptyBoth(stored[cacheKey], newData);
      if Valid() && cacheKey != "" {
        KeptWithMore(stored, cacheKey, parts[cacheKey], merged, newData, truth);
      }
      parts := parts[cacheKey := Parts(cacheKey) + newData];
      stored := stored[cacheKey := merged];
    }
  }

  /** For steps below a minute the horizon is the last step of now, minus the flux interval. */
  lemma HorizonOnStep(cache: Cache, step: int, now: nat)
    requires 0 < step < 60
    ensures var h, unit := cache.Horizon(step, now) + cache.fluxInterval, step * 1000;
      h % unit == 0 && now - unit < h <= now
  {
    var unit := step * 1000;
    assert cache.Horizon(step, now) == now - now % unit - cache.fluxInterval;
    MultipleOf(now, unit);
  }

  lemma MultipleOf(now: nat, unit: int)
    requires unit > 0
    ensures (now - now % unit) % unit == 0
  {
    assert now - now % unit == unit * (now / unit);
    MultipleMod(now / unit, unit);
  }

  /** The chunks under a key cover what given chunks cover, and lose no time of a point. */
  ghost predicate IsKept(stored: map<string, seq<Chunk>>, key: string, all: seq<Chunk>) {
    key in stored && SameCover(stored[key], all) && KeepsPoints(stored[key], all)
  }

  lemma KeptWithMore(stored: map<string, seq<Chunk>>, key: string, parts: seq<Chunk>, merged: seq<Chunk>,
                     newData: seq<Chunk>, truth: Truth)
    requires IsKept(stored, key, parts) && IsMergeOf(merged, stored[key] + newData, truth)
    requires NonEmpty(Intervals(parts))
    ensures IsKept(stored[key := merged], key, parts + newData)
    ensures NonEmpty(Intervals(newData)) ==> NonEmpty(Intervals(parts + newData))
  {
    hide KeepsPoints, InSome, NonEmpty, Intervals, AllFaithful;
    CoverBoth(stored[key], newData);
    CoverBoth(parts, newData);
    NonEmptyBoth(parts, newData);
    PartsOfMerged(stored[key], parts, merged, newData);
  }

  lemma CoverBoth(a: seq<Chunk>, b: seq<Chunk>)
    ensures forall t :: InSome(Intervals(a + b), t) <==> InSome(Intervals(a), t) || InSome(Intervals(b), t)
  {
    assert Intervals(a + b) == Intervals(a) + Intervals(b);
    InSomeBoth(Intervals(a), Intervals(b));
  }

  lemma PartsOfMerged(stored: seq<Chunk>, parts: seq<Chunk>, merged: seq<Chunk>, newData: seq<Chunk>)
    requires KeepsPoints(stored, parts) && KeepsPoints(merged, stored + newData)
    ensures KeepsPoints(merged, parts + newData)
  {
    hide OnePerLabels, KeepsTimes, Flatten;
    KeptAppended(stored, parts, newData);
    if AllOnePerLabels(parts + newData) {
      KeepsTransitively(Flatten(merged), Flatten(stored + newData), Flatten(parts + newData));
    }
  }

  /** More chunks on both sides. */
  lemma {:induction false} KeptAppended(a: seq<Chunk>, b: seq<Chunk>, more: seq<Chunk>)
    requires KeepsPoints(a, b)
    ensures KeepsPoints(a + more, b + more)
  {
    hide KeepsPoints;
    if more == [] {
      assert a + more == a && b + more == b;
    } else {
      var init, last := more[..|more| - 1], more[|more| - 1];
      KeptAppended(a, b, init);
      AddsPoints(a + init, last, b + init);
      assert a + more == a + init + [last] && b + more == b + init + [last];
    }
  }

  /** Chunks that leave the cache in order: none empty, and the first ones under a key with gaps between them. */
  ghost predicate CanBeCached(newData: seq<Chunk>, first: bool) {
    NonEmpty(Intervals(newData)) && (first ==> Separated(Intervals(newData)))
  }

  /** Every time asked for is in a missing range or in a cached chunk. */
  ghost predicate FillsTheGaps(missing: seq<Interval>, cached: seq<Chunk>, start: int, end: int) {
    forall t :: start <= t < end ==> InSome(missing, t) || InSome(Intervals(cached), t)
  }

  lemma WholeFillsTheGaps(cached: seq<Chunk>, start: int, end: int)
    ensures FillsTheGaps([Interval(start, end)], cached, start, end)
  {
    forall t | start <= t < end ensures InSome([Interval(start, end)], t) {
      assert In([Interval(start, end)][0], t);
    }
  }

  lemma NothingCached(start: int, end: int)
    ensures IsCached(MissingFrom([], start, start, end)) && IsCached([])
  {
  }

  lemma GapsAreFilled(order: seq<Chunk>, cached: seq<Chunk>, horizon: int, start: int, end: int)
    requires SortedBy(order, StartOf) && multiset(order) == multiset(cached)
    ensures FillsTheGaps(MissingFrom(CutLast(Intervals(order), horizon), start, start, end), cached, start, end)
  {
    var cut := CutLast(Intervals(order), horizon);
    assert SortedByStart(Intervals(order)) by {
      assert forall i :: 0 <= i < |order| ==> Intervals(order)[i].start == StartOf(order[i]);
    }
    SameMembersSameCover(order, cached);
    forall t | start <= t < end
      ensures InSome(MissingFrom(cut, start, start, end), t) || InSome(Intervals(cached), t)
    {
      CutLastCovers(Intervals(order), horizon, t);
      MissingIsComplement(cut, start, start, end, t);
    }
  }

  /** The merged chunks cover what all the chunks cover, hold the truth if those did, and lose no time of a point. */
  ghost predicate IsMergeOf(merged: seq<Chunk>, all: seq<Chunk>, truth: Truth) {
    && SameCover(merged, all)
    && (AllFaithful(all, truth) ==> AllFaithful(merged, truth))
    && KeepsPoints(merged, all)
  }

  /** Chunks with gaps between them are in the one order of their starts. */
  lemma CachedIsOrdered(order: seq<Chunk>, cached: seq<Chunk>)
    requires SortedBy(order, StartOf) && multiset(order) == multiset(cached)
    ensures IsCached(Intervals(cached)) ==> order == cached
    ensures cached == [] ==> order == []
  {
    if cached == [] {
      assert |multiset(order)| == 0;
    }
    if IsCached(Intervals(cached)) {
      forall i, j | 0 <= i < j < |cached| ensures StartOf(cached[i]) < StartOf(cached[j]) {
        SeparatedStarts(Intervals(cached), i, j);
      }
      SortedOrderIsUnique(order, cached, StartOf);
    }
  }

  lemma NonEmptyBoth(a: seq<Chunk>, b: seq<Chunk>)
    ensures NonEmpty(Intervals(a + b)) <==> NonEmpty(Intervals(a)) && NonEmpty(Intervals(b))
    ensures NonEmpty(Intervals(a + b)) ==> Upright(Intervals(a + b))
  {
    assert Intervals(a + b) == Intervals(a) + Intervals(b);
    assert forall i :: 0 <= i < |b| ==> Intervals(a + b)[|a| + i] == Intervals(b)[i];
    assert forall i :: 0 <= i < |a| ==> Intervals(a + b)[i] == Intervals(a)[i];
  }

  lemma MergeInAnyOrder(merged: seq<Chunk>, sorted: seq<Chunk>, all: seq<Chunk>, truth: Truth)
    requires IsMergeOf(merged, sorted, truth) && multiset(sorted) == multiset(all)
    ensures IsMergeOf(merged, all, truth)
    ensures Upright(Intervals(all)) ==> Upright(Intervals(sorted))
    ensures NonEmpty(Intervals(all)) ==> NonEmpty(Intervals(sorted))
  {
    hide KeepsPoints, Faithful;
    SameMembersSameCover(sorted, all);
    SameMembersSameCover(all, sorted);
    KeptInAnyOrder(merged, sorted, all);
    assert forall i :: 0 <= i < |sorted| ==> sorted[i] in multiset(all);
    assert forall i :: 0 <= i < |all| ==> Intervals(all)[i] == IntervalOf(all[i]);
  }

  lemma KeptInAnyOrder(merged: seq<Chunk>, sorted: seq<Chunk>, all: seq<Chunk>)
    requires KeepsPoints(merged, sorted) && multiset(sorted) == multiset(all)
    ensures KeepsPoints(merged, all)
  {
    hide HasPoint, OnePerLabels, Flatten;
    assert forall i :: 0 <= i < |sorted| ==> sorted[i] in multiset(all);
    SameMembersSamePoints(sorted, all);
    SameMembersSamePoints(all, sorted);
    if AllOnePerLabels(all) {
      assert forall c :: c in all ==> OnePerLabels(c.data);
      assert AllOnePerLabels(sorted);
    }
  }

  lemma SameMembersSamePoints(a: seq<Chunk>, b: seq<Chunk>)
    requires multiset(a) == multiset(b)
    ensures forall l, p :: HasPoint(Flatten(a), l, p) ==> HasPoint(Flatten(b), l, p)
  {
    forall l, p | HasPoint(Flatten(a), l, p) ensures HasPoint(Flatten(b), l, p) {
      var i := FoundIn(a, l, p);
      assert a[i] in multiset(b);
      var j :| 0 <= j < |b| && b[j] == a[i];
      FlattenHas(b, j, l, p);
    }
  }

  lemma SameMembersSameCover(a: seq<Chunk>, b: seq<Chunk>)
    requires multiset(a) == multiset(b)
    ensures forall t :: InSome(Intervals(a), t) ==> InSome(Intervals(b), t)
  {
    forall t | InSome(Intervals(a), t) ensures InSome(Intervals(b), t) {
      var i :| 0 <= i < |Intervals(a)| && In(Intervals(a)[i], t);
      assert a[i] in multiset(b);
      var j :| 0 <= j < |b| && b[j] == a[i];
      assert In(Intervals(b)[j], t);
    }
  }

  // ---- the querier ----

  type Database = (int, int) -> Option<seq<SeriesData>>

  predicate Answers(db: Database, i: Interval) {
    db(i.start, i.end).Some?
  }

  predicate AnswersAll(db: Database, asked: seq<Interval>) {
    forall i :: 0 <= i < |asked| ==> Answers(db, asked[i])
  }

  function FetchedChunk(db: Database, i: Interval): Chunk
    requires Answers(db, i)
  {
    Chunk(i.start, i.end, db(i.start, i.end).value)
  }

  function Fetched(db: Database, asked: seq<Interval>): seq<Chunk>
    requires AnswersAll(db, asked)
  {
    seq(|asked|, k requires 0 <= k < |asked| => assert Answers(db, asked[k]); FetchedChunk(db, asked[k]))
  }

  /** One chunk per missing range; the first failure ends it. */
  method FetchMisses(db: Database, misses: seq<Interval>) returns (r: Option<seq<Chunk>>)
    ensures r.Some? <==> AnswersAll(db, misses)
    ensures r.Some? ==> r.value == Fetched(db, misses) && Intervals(r.value) == misses
    ensures r.Some? ==> forall i :: 0 <= i < |misses| ==>
      var miss := misses[i];
      r.value[i].start == miss.start && r.value[i].end == miss.end && db(miss.start, miss.end) == Some(r.value[i].data)
  {
    var missedSeries := [];
    for i := 0 to |misses|
      invariant |missedSeries| == i
      invariant forall k :: 0 <= k < i ==> Answers(db, misses[k]) && missedSeries[k] == FetchedChunk(db, misses[k])
    {
      var miss := misses[i];
      var series := db(miss.start, miss.end);
      if series.None? {
        assert !Answers(db, misses[i]);
        return None;
      }
      missedSeries := missedSeries + [Chunk(miss.start, miss.end, series.value)];
    }
    return Some(missedSeries);
  }

  // ---- what is final ----

  ghost predicate IsOutside(t: int, s: iset<int>) {
    t !in s
  }

  /** Points that are final at all times but some. */
  ghost function FinalBut(points: map<Labels, seq<Point>>, open: iset<int>): Truth {
    Truth(points, iset t | IsOutside(t, open))
  }

  /** A time at which the answer for a range need not be final: it lies in the range and past the horizon, or is one
      that a query for just this range cannot answer. */
  ghost predicate IsOpenIn(t: int, i: Interval, horizon: int, cut: Interval -> iset<int>) {
    (In(i, t) && t >= horizon) || t in cut(i)
  }

  ghost predicate IsOpenInSome(t: int, asked: seq<Interval>, horizon: int, cut: Interval -> iset<int>) {
    exists i :: 0 <= i < |asked| && IsOpenIn(t, asked[i], horizon, cut)
  }

  ghost function OpenTimes(asked: seq<Interval>, horizon: int, cut: Interval -> iset<int>): iset<int> {
    iset t | IsOpenInSome(t, asked, horizon, cut)
  }

  /** A database whose answer for each of some ranges is final before the horizon, except at the times cut there. */
  ghost predicate FinalBefore(db: Database, asked: seq<Interval>, points: map<Labels, seq<Point>>, horizon: int,
                              cut: Interval -> iset<int>)
  {
    forall k :: 0 <= k < |asked| && Answers(db, asked[k]) ==>
      Faithful(FetchedChunk(db, asked[k]), FinalBut(points, iset t | IsOpenIn(t, asked[k], horizon, cut)))
  }

  ghost predicate CacheIsFaithful(stored: map<string, seq<Chunk>>, key: string, truth: Truth) {
    key in stored ==> AllFaithful(stored[key], truth)
  }

  lemma FaithfulAtFewerTimes(c: Chunk, points: map<Labels, seq<Point>>, more: iset<int>, less: iset<int>)
    requires Faithful(c, Truth(points, more)) && forall t :: t in less ==> t in more
    ensures Faithful(c, Truth(points, less))
  {
    assert forall l :: PointsOf(Truth(points, more), l) == PointsOf(Truth(points, less), l);
  }

  lemma AllFaithfulButMore(cs: seq<Chunk>, points: map<Labels, seq<Point>>, open: iset<int>, more: iset<int>)
    requires AllFaithful(cs, FinalBut(points, open))
    ensures AllFaithful(cs, FinalBut(points, open + more))
  {
    forall i | 0 <= i < |cs| ensures Faithful(cs[i], FinalBut(points, open + more)) {
      FaithfulAtFewerTimes(cs[i], points, FinalBut(points, open).settled, FinalBut(points, open + more).settled);
    }
  }

  lemma FetchedIsFaithful(db: Database, asked: seq<Interval>, points: map<Labels, seq<Point>>, horizon: int,
                          cut: Interval -> iset<int>, early: iset<int>)
    requires FinalBefore(db, asked, points, horizon, cut) && AnswersAll(db, asked)
    ensures AllFaithful(Fetched(db, asked), FinalBut(points, early + OpenTimes(asked, horizon, cut)))
  {
    var open := early + OpenTimes(asked, horizon, cut);
    forall k | 0 <= k < |asked| ensures Faithful(Fetched(db, asked)[k], FinalBut(points, open)) {
      var here := iset t | IsOpenIn(t, asked[k], horizon, cut);
      assert forall t :: t in here ==> IsOpenInSome(t, asked, horizon, cut);
      FaithfulAtFewerTimes(FetchedChunk(db, asked[k]), points, FinalBut(points, here).settled,
                           FinalBut(points, open).settled);
    }
  }

  // ---- the answer ----

  /** What an answer to a query must be: one strictly increasing series per label set, with points in the range only;
      at settled times exactly the points of the truth before end, and at end none but those. */
  ghost predicate IsTrueAnswer(series: seq<Series>, truth: Truth, start: int, end: int)
    reads series
  {
    && DistinctLabels(series)
    && (forall i :: 0 <= i < |series| ==> AnswersFor(series[i].points, series[i].labels, truth, start, end))
    && (forall l, p :: p in PointsOf(truth, l) && p.timestamp in truth.settled && start <= p.timestamp < end ==>
          IsOneOf(l, series))
  }

  ghost predicate AnswersFor(ps: seq<Point>, l: Labels, truth: Truth, start: int, end: int) {
    && StrictlySorted(ps)
    && (forall p :: p in ps ==> start <= p.timestamp <= end)
    && (forall p :: p in ps && p.timestamp in truth.settled ==> p in PointsOf(truth, l))
    && (forall p :: p in PointsOf(truth, l) && p.timestamp in truth.settled && start <= p.timestamp < end ==> p in ps)
  }

  /** Once the whole range is settled that leaves two possibilities: the truth up to end, with or without a point
      at end. */
  lemma SettledAnswer(ps: seq<Point>, l: Labels, truth: Truth, start: int, end: int)
    requires IsTruth(truth) && AnswersFor(ps, l, truth, start, end)
    requires forall t :: start <= t <= end ==> t in truth.settled
    ensures ps == InRange(PointsOf(truth, l), start, end - 1) || ps == InRange(PointsOf(truth, l), start, end)
  {
    var all := PointsOf(truth, l);
    InRangeMembers(all, start, end - 1);
    InRangeMembers(all, start, end);
    InRangeSorted(all, start, end - 1);
    InRangeSorted(all, start, end);
    if q :| q in ps && q.timestamp == end {
      forall p | p in all && p.timestamp == end ensures p in ps {
        SameTimeSamePoint(all, p, q);
      }
      SortedIsUnique(ps, InRange(all, start, end));
    } else {
      SortedIsUnique(ps, InRange(all, start, end - 1));
    }
  }

  /** The series that chunks give for a range: one per label set, with one point for every time in range at which
      some chunk has a point of those labels. */
  ghost predicate AnswersFrom(series: seq<Series>, chunks: seq<Chunk>, start: int, end: int)
    reads series
  {
    && DistinctLabels(series)
    && (forall i :: 0 <= i < |series| ==> IsMergedSeries(series[i], chunks, start, end))
    && (forall l, p :: HasPoint(Flatten(chunks), l, p) && start <= p.timestamp <= end ==> IsOneOf(l, series))
  }

  /** One builder query through the cache: find the misses, fetch them, merge, cut the series out. The answer is put
      together from what was cached and what was asked for. Before the horizon the database has to be final, except at
      times that a range cuts. `open` holds the times that were cached although they were not final; it grows by the
      missing times past the horizon and by those cut. At all others the answer is the final one and so is the cache. */
  method RunBuilderQuery(cache: Cache, db: Database, start: int, end: int, step: int, cacheKey: string, now: nat,
                         ghost points: map<Labels, seq<Point>>, ghost open: iset<int>,
                         ghost cut: Interval -> iset<int>)
    returns (r: Result<seq<Series>, string>)
    requires step != 0 && cache.Valid()
    requires IsTruth(FinalBut(points, open)) && CacheIsFaithful(cache.stored, cacheKey, FinalBut(points, open))
    requires FinalBefore(db, cache.Asked(start, end, step, cacheKey, now), points, cache.Horizon(step, now), cut)
    modifies cache
    ensures cache.Valid()
    ensures SameUnderOtherKeys(cache.stored, old(cache.stored), cacheKey)
    ensures var asked := old(cache.Asked(start, end, step, cacheKey, now));
      && (r.Ok? <==> AnswersAll(db, asked))
      && (r.Ok? ==> AnswersFrom(r.value, old(cache.Cached(cacheKey)) + Fetched(db, asked), start, end))
      && (r.Ok? && cache.enabled ==>
            && IsKept(cache.stored, cacheKey, old(cache.Cached(cacheKey)) + Fetched(db, asked))
            && cache.Parts(cacheKey) == old(cache.Parts(cacheKey)) + Fetched(db, asked))
      && (r.Ok? && cache.enabled && cacheKey !in old(cache.stored) ==> cache.Cached(cacheKey) == Fetched(db, asked))
    ensures
      var asked := old(cache.Asked(start, end, step, cacheKey, now));
      var open' := open + OpenTimes(asked, cache.Horizon(step, now), cut);
      && CacheIsFaithful(cache.stored, cacheKey, FinalBut(points, open'))
      && (r.Ok? ==> IsTrueAnswer(r.value, FinalBut(points, open'), start, end))
    ensures r.Err? ==> cache.stored == old(cache.stored) && cache.parts == old(cache.parts)
  {
    hide AllFaithful, FillsTheGaps, IsMergeOf, CoversRange, IsTruth, FinalBefore, IsTrueAnswer, IsMergedSeries,
         DistinctLabels, IsOneOf, HasLabels, HasPoint, Flatten, Intervals, Separated, NonEmpty, InOrder,
         AllMissingFrom, MissingFrom, AnswersFrom, AnswersAll, Fetched, FinalBut, OpenTimes, IsKept;
    ghost var cached := cache.Cached(cacheKey);
    ghost var asked := cache.Asked(start, end, step, cacheKey, now);
    ghost var more := OpenTimes(asked, cache.Horizon(step, now), cut);
    ghost var truth := FinalBut(points, open + more);
    StillTruth(points, open, more);
    MergedNothing(truth);
    if cacheKey in cache.stored {
      AllFaithfulButMore(cache.stored[cacheKey], points, open, more);
    }
    var misses, _ := cache.FindMissingTimeRanges(start, end, step, cacheKey, now);
    var missed := FetchMisses(db, misses);
    if missed.None? {
      return Err("query failed");
    }
    FetchedIsFaithful(db, asked, points, cache.Horizon(step, now), cut, open);
    var merged := cache.MergeWithCachedSeriesData(cacheKey, missed.value, truth);
    var series := GetSeriesFromCachedData(merged, start, end);
    AnswerIsRight(series, cached, misses, missed.value, merged, truth, start, end);
    if cache.enabled {
      MergeIsKept(cache.stored, cacheKey, merged, cached + missed.value, truth);
    }
    r := Ok(series);
  }

  lemma MergeIsKept(stored: map<string, seq<Chunk>>, key: string, merged: seq<Chunk>, all: seq<Chunk>, truth: Truth)
    requires key in stored && stored[key] == merged && IsMergeOf(merged, all, truth)
    ensures IsKept(stored, key, all)
  {
  }

  lemma AnswerIsRight(series: seq<Series>, cached: seq<Chunk>, misses: seq<Interval>, missed: seq<Chunk>,
                      merged: seq<Chunk>, truth: Truth, start: int, end: int)
    requires FillsTheGaps(misses, cached, start, end) && Intervals(missed) == misses && IsTruth(truth)
    requires AllFaithful(cached, truth) && AllFaithful(missed, truth) && IsMergeOf(merged, cached + missed, truth)
    requires DistinctLabels(series)
    requires forall l :: HasLabels(Flatten(merged), l) <==> IsOneOf(l, series)
    requires forall i :: 0 <= i < |series| ==> IsMergedSeries(series[i], merged, start, end)
    ensures AllFaithful(merged, truth)
    ensures AnswersFrom(series, cached + missed, start, end) && IsTrueAnswer(series, truth, start, end)
  {
    hide *;
    BothFaithful(cached, missed, truth);
    MergedIsFaithful(merged, cached + missed, truth);
    MergedCovers(cached, misses, missed, merged, truth, start, end);
    AnswerIsTrue(series, merged, truth, start, end);
    AnswerIsOfAll(series, merged, cached + missed, truth, start, end);
  }

  lemma BothFaithful(a: seq<Chunk>, b: seq<Chunk>, truth: Truth)
    requires AllFaithful(a, truth) && AllFaithful(b, truth)
    ensures AllFaithful(a + b, truth)
  {
  }

  lemma MergedIsFaithful(merged: seq<Chunk>, all: seq<Chunk>, truth: Truth)
    requires AllFaithful(all, truth) && IsMergeOf(merged, all, truth)
    ensures AllFaithful(merged, truth)
  {
  }

  lemma StillTruth(points: map<Labels, seq<Point>>, open: iset<int>, more: iset<int>)
    ensures IsTruth(FinalBut(points, open)) ==> IsTruth(FinalBut(points, open + more))
  {
  }

  /** What was merged gives the same answers as what it was merged from. */
  lemma AnswerIsOfAll(series: seq<Series>, merged: seq<Chunk>, all: seq<Chunk>, truth: Truth, start: int, end: int)
    requires AllFaithful(all, truth) && IsMergeOf(merged, all, truth)
    requires DistinctLabels(series)
    requires forall l :: HasLabels(Flatten(merged), l) <==> IsOneOf(l, series)
    requires forall i :: 0 <= i < |series| ==> IsMergedSeries(series[i], merged, start, end)
    ensures AnswersFrom(series, all, start, end)
  {
    hide IsMerged, KeepsTimes, HasPoint, HasLabels, Flatten, IsOneOf, DistinctLabels, SameCover, Sound, Complete;
    var a, b := Flatten(merged), Flatten(all);
    assert AllOnePerLabels(all) by {
      assert forall i :: 0 <= i < |all| ==> Faithful(all[i], truth);
    }
    forall i | 0 <= i < |series| ensures IsMergedSeries(series[i], all, start, end) {
      assert IsMergedSeries(series[i], merged, start, end);
      MergedOfKept(series[i].points, series[i].labels, merged, all, start, end);
    }
    forall l, p | HasPoint(b, l, p) ensures IsOneOf(l, series) {
      KeptLabels(a, b, l, p);
    }
  }

  lemma KeptLabels(a: seq<SeriesData>, b: seq<SeriesData>, l: Labels, p: Point)
    requires KeepsTimes(a, b) && HasPoint(b, l, p)
    ensures HasLabels(a, l)
  {
    assert HasPointAt(a, l, p.timestamp);
    var q :| HasPoint(a, l, q) && q.timestamp == p.timestamp;
    FoundLabels(a, l, q);
  }

  lemma MergedOfKept(ps: seq<Point>, l: Labels, merged: seq<Chunk>, all: seq<Chunk>, start: int, end: int)
    requires IsMerged(ps, l, merged, start, end) && KeepsTimes(Flatten(merged), Flatten(all))
    ensures IsMerged(ps, l, all, start, end)
  {
    hide HasPoint, Flatten;
    forall p | HasPoint(Flatten(all), l, p) && start <= p.timestamp <= end ensures HasTime(ps, p.timestamp) {
      assert HasPointAt(Flatten(merged), l, p.timestamp);
      var q :| HasPoint(Flatten(merged), l, q) && q.timestamp == p.timestamp;
    }
  }

  /** An answer from merged chunks is one from the chunks they were merged from. */
  lemma AnswersOfKept(series: seq<Series>, merged: seq<Chunk>, all: seq<Chunk>, start: int, end: int)
    requires AnswersFrom(series, merged, start, end) && KeepsTimes(Flatten(merged), Flatten(all))
    ensures AnswersFrom(series, all, start, end)
  {
    hide IsMerged, KeepsTimes, HasPoint, Flatten, IsOneOf, DistinctLabels;
    forall i | 0 <= i < |series| ensures IsMergedSeries(series[i], all, start, end) {
      assert IsMergedSeries(series[i], merged, start, end);
      MergedOfKept(series[i].points, series[i].labels, merged, all, start, end);
    }
    forall l, p | HasPoint(Flatten(all), l, p) && start <= p.timestamp <= end ensures IsOneOf(l, series) {
      var q := KeptPoint(Flatten(merged), Flatten(all), l, p);
    }
  }

  lemma KeptPoint(merged: seq<SeriesData>, seen: seq<SeriesData>, l: Labels, p: Point) returns (q: Point)
    requires KeepsTimes(merged, seen) && HasPoint(seen, l, p)
    ensures HasPoint(merged, l, q) && q.timestamp == p.timestamp
  {
    assert HasPointAt(merged, l, p.timestamp);
    q :| HasPoint(merged, l, q) && q.timestamp == p.timestamp;
  }

  lemma FetchesOne(db: Database, i: Interval, d: seq<SeriesData>)
    requires db(i.start, i.end) == Some(d)
    ensures AnswersAll(db, [i]) && Fetched(db, [i]) == [Chunk(i.start, i.end, d)]
  {
  }

  /** If the chunks hold one point only, and that is in range, it is the answer. */
  lemma OnePointAnswered(series: seq<Series>, chunks: seq<Chunk>, one: Point, start: int, end: int)
    requires AnswersFrom(series, chunks, start, end) && start <= one.timestamp <= end
    requires forall l, p :: HasPoint(Flatten(chunks), l, p) <==> l == map[] && p == one
    ensures IsOneOf(map[], series)
    ensures forall i :: 0 <= i < |series| && series[i].labels == map[] ==> series[i].points == [one]
  {
    hide Flatten, HasPoint;
    assert HasPoint(Flatten(chunks), map[], one);
    forall i | 0 <= i < |series| && series[i].labels == map[] ensures series[i].points == [one] {
      assert IsMergedSeries(series[i], chunks, start, end);
      var ps := series[i].points;
      assert HasTime(ps, one.timestamp);
      var k :| 0 <= k < |ps| && ps[k].timestamp == one.timestamp;
      assert ps[k] in ps;
      SortedIsUnique(ps, [one]);
    }
  }

  ghost predicate SameUnderOtherKeys(a: map<string, seq<Chunk>>, b: map<string, seq<Chunk>>, key: string) {
    forall k :: k != key ==> (k in a <==> k in b) && (k in a && k in b ==> a[k] == b[k])
  }

  ghost predicate CoversRange(cs: seq<Chunk>, start: int, end: int) {
    forall t :: start <= t < end ==> InSome(Intervals(cs), t)
  }

  lemma MergedCovers(cached: seq<Chunk>, misses: seq<Interval>, missed: seq<Chunk>, merged: seq<Chunk>, truth: Truth,
                     start: int, end: int)
    requires FillsTheGaps(misses, cached, start, end) && Intervals(missed) == misses
    requires IsMergeOf(merged, cached + missed, truth)
    ensures CoversRange(merged, start, end)
  {
    hide AllFaithful, KeepsPoints;
    var all := cached + missed;
    CoverBoth(cached, missed);
    assert forall t :: start <= t < end ==> InSome(Intervals(all), t);
  }

  lemma AnswerIsTrue(series: seq<Series>, merged: seq<Chunk>, truth: Truth, start: int, end: int)
    requires IsTruth(truth) && AllFaithful(merged, truth) && CoversRange(merged, start, end)
    requires DistinctLabels(series)
    requires forall l :: HasLabels(Flatten(merged), l) <==> IsOneOf(l, series)
    requires forall i :: 0 <= i < |series| ==> IsMergedSeries(series[i], merged, start, end)
    ensures IsTrueAnswer(series, truth, start, end)
  {
    hide AllFaithful, CoversRange, IsMerged, AnswersFor, IsTruth, DistinctLabels, IsOneOf, PointsOf, Flatten, HasLabels;
    forall i | 0 <= i < |series| ensures AnswersFor(series[i].points, series[i].labels, truth, start, end) {
      AnswersOne(series[i].points, series[i].labels, merged, truth, start, end);
    }
    forall l, p | p in PointsOf(truth, l) && p.timestamp in truth.settled && start <= p.timestamp < end
      ensures IsOneOf(l, series)
    {
      CoveredPoint(merged, truth, l, p, start, end);
      FoundLabels(Flatten(merged), l, p);
    }
  }

  lemma FoundLabels(seen: seq<SeriesData>, l: Labels, p: Point)
    requires HasPoint(seen, l, p)
    ensures HasLabels(seen, l)
  {
  }

  /** Every settled point of the truth in a covered range is in the chunks. */
  lemma CoveredPoint(merged: seq<Chunk>, truth: Truth, l: Labels, p: Point, start: int, end: int)
    requires AllFaithful(merged, truth) && CoversRange(merged, start, end)
    requires p in PointsOf(truth, l) && p.timestamp in truth.settled && start <= p.timestamp < end
    ensures HasPoint(Flatten(merged), l, p)
  {
    assert InSome(Intervals(merged), p.timestamp);
    var i :| 0 <= i < |Intervals(merged)| && In(Intervals(merged)[i], p.timestamp);
    assert Faithful(merged[i], truth);
    FlattenHas(merged, i, l, p);
  }

  lemma {:induction false} FoundIn(cs: seq<Chunk>, l: Labels, p: Point) returns (i: nat)
    requires HasPoint(Flatten(cs), l, p)
    ensures i < |cs| && HasPoint(cs[i].data, l, p)
  {
    assert cs != [];
    var init, last := cs[..|cs| - 1], cs[|cs| - 1];
    SeenAppended(Flatten(init), last.data);
    if HasPoint(last.data, l, p) {
      i := |cs| - 1;
    } else {
      i := FoundIn(init, l, p);
    }
  }

  lemma {:induction false} FlattenHas(cs: seq<Chunk>, i: nat, l: Labels, p: Point)
    requires i < |cs| && HasPoint(cs[i].data, l, p)
    ensures HasPoint(Flatten(cs), l, p)
  {
    var init, last := cs[..|cs| - 1], cs[|cs| - 1];
    SeenAppended(Flatten(init), last.data);
    if i < |cs| - 1 {
      FlattenHas(init, i, l, p);
    }
  }

  lemma AnswersOne(ps: seq<Point>, l: Labels, merged: seq<Chunk>, truth: Truth, start: int, end: int)
    requires IsTruth(truth) && AllFaithful(merged, truth) && CoversRange(merged, start, end)
    requires IsMerged(ps, l, merged, start, end)
    ensures AnswersFor(ps, l, truth, start, end)
  {
    hide AllFaithful, CoversRange, Flatten;
    forall p | p in ps && p.timestamp in truth.settled ensures p in PointsOf(truth, l) {
      FoundIsTrue(merged, truth, l, p);
    }
    forall p | p in PointsOf(truth, l) && p.timestamp in truth.settled && start <= p.timestamp < end ensures p in ps {
      CoveredPoint(merged, truth, l, p, start, end);
      assert HasTime(ps, p.timestamp);
      var i :| 0 <= i < |ps| && ps[i].timestamp == p.timestamp;
      assert ps[i] in ps;
      SameTimeSamePoint(PointsOf(truth, l), p, ps[i]);
    }
  }

  /** At settled times nothing but the truth is in the chunks. */
  lemma FoundIsTrue(merged: seq<Chunk>, truth: Truth, l: Labels, p: Point)
    requires AllFaithful(merged, truth) && HasPoint(Flatten(merged), l, p) && p.timestamp in truth.settled
    ensures p in PointsOf(truth, l)
  {
    var i := FoundIn(merged, l, p);
    assert Faithful(merged[i], truth);
  }
}
