/** The query range cache (querycache/query_range_cache.go) and the way the querier answers a range from it
    (app/querier/helper.go). Cached chunks are values here: the source keeps them serialized. */
module QueryCache {
  import opened Wrappers
  import opened SortSlice
  import opened SeriesCache
  import opened MissingRanges

  // ---- what the database would answer ----

  /** The points the database has in the end, and the times at which what it answers is already final. */
  datatype Truth = Truth(points: map<Labels, seq<Point>>, settled: iset<int>)

  ghost predicate IsTruth(truth: Truth) {
    forall l :: l in truth.points ==> StrictlySorted(truth.points[l])
  }

  function PointsOf(truth: Truth, l: Labels): seq<Point> {
    if l in truth.points then truth.points[l] else []
  }

  ghost predicate Sound(d: seq<SeriesData>, truth: Truth) {
    forall l, p :: HasPoint(d, l, p) && p.timestamp in truth.settled ==> p in PointsOf(truth, l)
  }

  ghost predicate Complete(d: seq<SeriesData>, truth: Truth, start: int, end: int) {
    forall l, p :: p in PointsOf(truth, l) && p.timestamp in truth.settled && start <= p.timestamp < end ==>
      HasPoint(d, l, p)
  }

  ghost predicate OnePerLabels(d: seq<SeriesData>) {
    forall i, j :: 0 <= i < j < |d| ==> d[i].labels != d[j].labels
  }

  /** A chunk that at settled times holds the truth, and all of it between its start and its end. */
  ghost predicate Faithful(c: Chunk, truth: Truth) {
    Sound(c.data, truth) && Complete(c.data, truth, c.start, c.end) && OnePerLabels(c.data)
  }

  ghost predicate AllFaithful(cs: seq<Chunk>, truth: Truth) {
    forall i :: 0 <= i < |cs| ==> Faithful(cs[i], truth)
  }

  function IntervalOf(c: Chunk): Interval {
    Interval(c.start, c.end)
  }

  function Intervals(cs: seq<Chunk>): seq<Interval> {
    seq(|cs|, i requires 0 <= i < |cs| => IntervalOf(cs[i]))
  }

  // ---- mergeSeries ----

  /** A map from label sets to points that holds the points of some series. */
  ghost predicate Holds(m: map<Labels, seq<Point>>, seen: seq<SeriesData>) {
    && (forall l :: l in m <==> HasLabels(seen, l))
    && (forall l, p :: l in m ==> (p in m[l] <==> HasPoint(seen, l, p)))
  }

  ghost predicate HasPointAt(seen: seq<SeriesData>, l: Labels, t: int) {
    exists p :: HasPoint(seen, l, p) && p.timestamp == t
  }

  /** Nothing invented and no time lost. */
  ghost predicate KeepsTimes(merged: seq<SeriesData>, seen: seq<SeriesData>) {
    && (forall l, p :: HasPoint(merged, l, p) ==> HasPoint(seen, l, p))
    && (forall l, p :: HasPoint(seen, l, p) ==> HasPointAt(merged, l, p.timestamp))
  }

  /** One strictly sorted series per label set, nothing invented and no time lost. */
  ghost predicate Joined(merged: seq<SeriesData>, seen: seq<SeriesData>) {
    && OnePerLabels(merged)
    && (forall i :: 0 <= i < |merged| ==> StrictlySorted(merged[i].points))
    && (forall l :: HasLabels(merged, l) <==> HasLabels(seen, l))
    && KeepsTimes(merged, seen)
  }

  function Without(d: seq<SeriesData>, l: Labels): seq<SeriesData> {
    if d == [] then []
    else
      var init, last := Without(d[..|d| - 1], l), d[|d| - 1];
      if last.labels == l then init else init + [last]
  }

  /** On the cached side a later series replaces an earlier one of the same labels. */
  function Latest(d: seq<SeriesData>): seq<SeriesData> {
    if d == [] then []
    else Without(Latest(d[..|d| - 1]), d[|d| - 1].labels) + [d[|d| - 1]]
  }

  lemma {:induction false} WithoutMembers(d: seq<SeriesData>, l: Labels)
    ensures forall k :: HasLabels(Without(d, l), k) <==> HasLabels(d, k) && k != l
    ensures forall k, p :: HasPoint(Without(d, l), k, p) <==> HasPoint(d, k, p) && k != l
    ensures !HasLabels(d, l) ==> Without(d, l) == d
  {
    if d != [] {
      var init := d[..|d| - 1];
      assert d == init + [d[|d| - 1]];
      WithoutMembers(init, l);
      SeenOneMore(init, d[|d| - 1]);
      SeenOneMore(Without(init, l), d[|d| - 1]);
    }
  }

  lemma {:induction false} LatestOfDistinct(d: seq<SeriesData>)
    requires OnePerLabels(d)
    ensures Latest(d) == d
  {
    if d != [] {
      LatestOfDistinct(d[..|d| - 1]);
      WithoutMembers(d[..|d| - 1], d[|d| - 1].labels);
      assert d == d[..|d| - 1] + [d[|d| - 1]];
    }
  }

  ghost predicate IsLastOf(d: seq<SeriesData>, i: int, l: Labels) {
    0 <= i < |d| && d[i].labels == l && forall j :: i < j < |d| ==> d[j].labels != l
  }

  lemma LastOneMore(init: seq<SeriesData>, last: SeriesData, l: Labels)
    ensures forall i :: IsLastOf(init + [last], i, l) <==>
      (i == |init| && last.labels == l) || (last.labels != l && IsLastOf(init, i, l))
    ensures forall i :: IsLastOf(init, i, l) ==> (init + [last])[i] == init[i]
  {
    var d := init + [last];
    assert d[|init|] == last && forall i :: 0 <= i < |init| ==> d[i] == init[i];
  }

  /** Of several series with one label set it is the last that stays. */
  lemma {:induction false} LatestIsLast(d: seq<SeriesData>, l: Labels, p: Point)
    ensures HasPoint(Latest(d), l, p) <==> exists i :: IsLastOf(d, i, l) && p in d[i].points
  {
    if d != [] {
      hide HasPoint, Without, IsLastOf;
      var init, last := d[..|d| - 1], d[|d| - 1];
      assert d == init + [last];
      LatestIsLast(init, l, p);
      WithoutMembers(Latest(init), last.labels);
      SeenOneMore(Without(Latest(init), last.labels), last);
      LastOneMore(init, last, l);
      InsideOf(init, l);
    } else {
      assert !HasPoint([], l, p);
    }
  }

  lemma InsideOf(d: seq<SeriesData>, l: Labels)
    ensures forall i :: IsLastOf(d, i, l) ==> 0 <= i < |d|
  {
  }

  /** mergeSeries. */
  method MergeSeries(cachedSeries: seq<SeriesData>, missedSeries: seq<SeriesData>) returns (merged: seq<SeriesData>)
    ensures Joined(merged, Latest(cachedSeries) + missedSeries)
  {
    var byLabels := ByLabels(cachedSeries);
    byLabels := AddMissed(byLabels, Latest(cachedSeries), missedSeries);
    merged := SortEach(byLabels, Latest(cachedSeries) + missedSeries);
  }

  method ByLabels(cachedSeries: seq<SeriesData>) returns (m: map<Labels, seq<Point>>)
    ensures Holds(m, Latest(cachedSeries))
  {
    hide Without, HasPoint, HasLabels;
    m := map[];
    assert Holds(m, []) by {
      HoldsNothing();
    }
    for i := 0 to |cachedSeries|
      invariant Holds(m, Latest(cachedSeries[..i]))
    {
      var s := cachedSeries[i];
      assert cachedSeries[..i + 1][..i] == cachedSeries[..i];
      WithoutMembers(Latest(cachedSeries[..i]), s.labels);
      SeenOneMore(Without(Latest(cachedSeries[..i]), s.labels), s);
      m := m[s.labels := s.points];
    }
    assert cachedSeries[..|cachedSeries|] == cachedSeries;
  }

  lemma HoldsNothing()
    ensures Holds(map[], [])
  {
  }

  method AddMissed(m0: map<Labels, seq<Point>>, ghost seen: seq<SeriesData>, missedSeries: seq<SeriesData>)
    returns (m: map<Labels, seq<Point>>)
    requires Holds(m0, seen)
    ensures Holds(m, seen + missedSeries)
  {
    m := m0;
    assert seen + missedSeries[..0] == seen;
    for i := 0 to |missedSeries|
      invariant Holds(m, seen + missedSeries[..i])
    {
      var s := missedSeries[i];
      SeenOneMore(seen + missedSeries[..i], s);
      assert seen + missedSeries[..i + 1] == seen + missedSeries[..i] + [s];
      if s.labels !in m {
        m := m[s.labels := s.points];
        continue;
      }
      m := m[s.labels := m[s.labels] + s.points];
    }
    assert seen + missedSeries[..|missedSeries|] == seen + missedSeries;
  }

  /** The last loop, over the map in any order: every series is sorted and deduplicated. */
  method SortEach(m: map<Labels, seq<Point>>, ghost seen: seq<SeriesData>) returns (merged: seq<SeriesData>)
    requires Holds(m, seen)
    ensures Joined(merged, seen)
  {
    merged := [];
    var todo := m.Keys;
    while todo != {}
      invariant todo <= m.Keys
      invariant Partly(merged, m, todo)
      decreases todo
    {
      var l :| l in todo;
      var points := Deduplicated(m[l]);
      PartlyOneMore(merged, m, todo, SeriesData(l, points));
      merged := merged + [SeriesData(l, points)];
      todo := todo - {l};
    }
    PartlyIsJoined(merged, m, seen);
  }

  /** Strictly increasing, nothing invented and no time lost. */
  ghost predicate IsDeduplicated(ps: seq<Point>, before: seq<Point>) {
    StrictlySorted(ps) && SameTimes(before, ps) && forall p :: p in ps ==> p in before
  }

  method Deduplicated(points: seq<Point>) returns (r: seq<Point>)
    ensures IsDeduplicated(r, points)
  {
    var s := new Series(map[]);
    s.points := points;
    s.SortPoints();
    ghost var sorted := s.points;
    assert forall p :: p in sorted <==> p in points by {
      assert forall p :: p in sorted <==> p in multiset(sorted);
    }
    SameMembersSameTimes(points, sorted);
    s.RemoveDuplicatePoints();
    KeepLastOfSorted(sorted);
    r := s.points;
  }

  lemma SameMembersSameTimes(a: seq<Point>, b: seq<Point>)
    requires forall p :: p in a <==> p in b
    ensures SameTimes(a, b)
  {
    forall t ensures HasTime(a, t) <==> HasTime(b, t) {
      if HasTime(a, t) {
        var i :| 0 <= i < |a| && a[i].timestamp == t;
        assert a[i] in b;
      }
      if HasTime(b, t) {
        var i :| 0 <= i < |b| && b[i].timestamp == t;
        assert b[i] in a;
      }
    }
  }

  /** All label sets but those still to do are in the merged series. */
  ghost predicate Partly(merged: seq<SeriesData>, m: map<Labels, seq<Point>>, todo: set<Labels>) {
    && OnePerLabels(merged)
    && (forall l :: l in m && l !in todo <==> HasLabels(merged, l))
    && (forall i :: 0 <= i < |merged| ==>
          merged[i].labels in m && IsDeduplicated(merged[i].points, m[merged[i].labels]))
  }

  lemma PartlyOneMore(merged: seq<SeriesData>, m: map<Labels, seq<Point>>, todo: set<Labels>, d: SeriesData)
    requires Partly(merged, m, todo) && d.labels in todo && d.labels in m && IsDeduplicated(d.points, m[d.labels])
    ensures Partly(merged + [d], m, todo - {d.labels})
  {
    hide IsDeduplicated;
    SeenOneMore(merged, d);
    assert forall i :: 0 <= i < |merged| ==> HasLabels(merged, merged[i].labels);
  }

  lemma PartlyIsJoined(merged: seq<SeriesData>, m: map<Labels, seq<Point>>, seen: seq<SeriesData>)
    requires Partly(merged, m, {}) && Holds(m, seen)
    ensures Joined(merged, seen)
  {
    forall l, p | HasPoint(seen, l, p) ensures HasPointAt(merged, l, p.timestamp) {
      assert HasLabels(seen, l);
      assert HasLabels(merged, l);
      var i :| 0 <= i < |merged| && merged[i].labels == l;
      assert HasTime(m[l], p.timestamp);
      var k :| 0 <= k < |merged[i].points| && merged[i].points[k].timestamp == p.timestamp;
      assert HasPoint(merged, l, merged[i].points[k]);
    }
  }

  /** Where both sides hold the truth, merging loses no point of a settled time. */
  lemma JoinedKeepsTruth(merged: seq<SeriesData>, seen: seq<SeriesData>, truth: Truth)
    requires Joined(merged, seen) && Sound(seen, truth) && IsTruth(truth)
    ensures forall l, p: Point :: p.timestamp in truth.settled ==> (HasPoint(merged, l, p) <==> HasPoint(seen, l, p))
  {
    forall l, p | HasPoint(seen, l, p) && p.timestamp in truth.settled ensures HasPoint(merged, l, p) {
      assert HasPointAt(merged, l, p.timestamp);
      var q :| HasPoint(merged, l, q) && q.timestamp == p.timestamp;
      SameTimeSamePoint(truth.points[l], p, q);
    }
  }

  // ---- merging chunks ----

  ghost predicate SameCover(a: seq<Chunk>, b: seq<Chunk>) {
    forall t :: InSome(Intervals(a), t) <==> InSome(Intervals(b), t)
  }

  ghost predicate AllOnePerLabels(cs: seq<Chunk>) {
    forall i :: 0 <= i < |cs| ==> OnePerLabels(cs[i].data)
  }

  /** If every chunk had one series per label set, the merged ones do, and hold a point of some chunk at every time at
      which one had a point. */
  ghost predicate KeepsPoints(merged: seq<Chunk>, seen: seq<Chunk>) {
    AllOnePerLabels(seen) ==> AllOnePerLabels(merged) && KeepsTimes(Flatten(merged), Flatten(seen))
  }

  function StartOf(c: Chunk): int { c.start }

  /** The loop of MergeWithCachedSeriesData over the chunks in order of their starts. */
  method MergeOverlapping(allData: seq<Chunk>, ghost truth: Truth) returns (mergedData: seq<Chunk>)
    requires SortedBy(allData, StartOf) && IsTruth(truth)
    ensures SameCover(mergedData, allData)
    ensures Upright(Intervals(allData)) ==> Separated(Intervals(mergedData))
    ensures NonEmpty(Intervals(allData)) ==> NonEmpty(Intervals(mergedData))
    ensures AllFaithful(allData, truth) ==> AllFaithful(mergedData, truth)
    ensures KeepsPoints(mergedData, allData)
  {
    hide MergedSoFar, SameCover, AllFaithful, KeepsPoints, Joined, Latest, IsTruth, Upright, NonEmpty, Separated,
         Intervals;
    mergedData := [];
    var current: Option<Chunk> := None;
    MergedNothing(truth);
    for i := 0 to |allData|
      invariant current.None? ==> i == 0 && mergedData == []
      invariant current.Some? ==> MergedSoFar(mergedData + [current.value], allData[..i], truth)
      invariant current.Some? ==> i > 0 && current.value.start <= allData[i - 1].start
    {
      var data := allData[i];
      assert allData[..i + 1] == allData[..i] + [data];
      if current.None? {
        current := Some(data);
        StartsMerging(data, truth);
        assert mergedData + [data] == [data] == allData[..i] + [data];
        continue;
      }
      var c := current.value;
      if data.start <= c.end {
        var merged := MergeSeries(c.data, data.data);
        current := Some(Chunk(Min(c.start, data.start), Max(c.end, data.end), merged));
        MergesInto(mergedData, c, data, current.value, allData[..i], truth);
      } else {
        AddsAfter(mergedData + [c], data, allData[..i], truth);
        mergedData := mergedData + [c];
        current := Some(data);
      }
    }
    assert allData[..|allData|] == allData;
    if current.Some? {
      mergedData := mergedData + [current.value];
      MergedAll(mergedData, allData, truth);
    }
  }

  predicate LastUpright(cs: seq<Chunk>) {
    cs != [] && cs[|cs| - 1].start <= cs[|cs| - 1].end
  }

  ghost predicate MergedSoFar(merged: seq<Chunk>, seen: seq<Chunk>, truth: Truth) {
    && SameCover(merged, seen)
    && (Upright(Intervals(seen)) ==> Separated(Intervals(merged)) && LastUpright(merged))
    && (NonEmpty(Intervals(seen)) ==> NonEmpty(Intervals(merged)))
    && (AllFaithful(seen, truth) ==> AllFaithful(merged, truth))
    && KeepsPoints(merged, seen)
  }

  lemma MergedNothing(truth: Truth)
    ensures SameCover([], []) && Separated(Intervals([])) && NonEmpty(Intervals([])) && AllFaithful([], truth)
    ensures KeepsPoints([], [])
  {
  }

  lemma MergedAll(merged: seq<Chunk>, seen: seq<Chunk>, truth: Truth)
    requires MergedSoFar(merged, seen, truth)
    ensures SameCover(merged, seen)
    ensures Upright(Intervals(seen)) ==> Separated(Intervals(merged))
    ensures NonEmpty(Intervals(seen)) ==> NonEmpty(Intervals(merged))
    ensures AllFaithful(seen, truth) ==> AllFaithful(merged, truth)
    ensures KeepsPoints(merged, seen)
  {
  }

  lemma StartsMerging(data: Chunk, truth: Truth)
    ensures MergedSoFar([data], [data], truth)
  {
    assert Intervals([data])[0] == IntervalOf(data);
    SamePointsKept([data]);
  }

  lemma SamePointsKept(cs: seq<Chunk>)
    ensures KeepsPoints(cs, cs)
  {
  }

  lemma SnocPoints(cs: seq<Chunk>, c: Chunk)
    ensures Flatten(cs + [c]) == Flatten(cs) + c.data
    ensures AllOnePerLabels(cs + [c]) <==> AllOnePerLabels(cs) && OnePerLabels(c.data)
  {
    assert (cs + [c])[..|cs|] == cs && (cs + [c])[|cs|] == c;
    assert forall i :: 0 <= i < |cs| ==> (cs + [c])[i] == cs[i];
  }

  lemma AddsPoints(merged: seq<Chunk>, data: Chunk, seen: seq<Chunk>)
    requires KeepsPoints(merged, seen)
    ensures KeepsPoints(merged + [data], seen + [data])
  {
    hide AllOnePerLabels, OnePerLabels, HasPoint, Flatten;
    SnocPoints(merged, data);
    SnocPoints(seen, data);
    if AllOnePerLabels(seen + [data]) {
      KeepsMore(Flatten(merged), data.data, Flatten(seen), data.data);
    }
  }

  lemma MergesPoints(merged: seq<Chunk>, c: Chunk, data: Chunk, c': Chunk, seen: seq<Chunk>)
    requires KeepsPoints(merged + [c], seen) && Joined(c'.data, Latest(c.data) + data.data)
    ensures KeepsPoints(merged + [c'], seen + [data])
  {
    hide AllOnePerLabels, OnePerLabels, KeepsTimes, Flatten, Latest;
    SnocPoints(merged, c);
    SnocPoints(merged, c');
    SnocPoints(seen, data);
    if AllOnePerLabels(seen + [data]) {
      LatestOfDistinct(c.data);
      KeepsMore(Flatten(merged) + c.data, data.data, Flatten(seen), data.data);
      SeriesAssociate(Flatten(merged), c.data, data.data);
      KeepsMore(Flatten(merged), c'.data, Flatten(merged), c.data + data.data);
      KeepsTransitively(Flatten(merged) + c'.data, Flatten(merged) + (c.data + data.data), Flatten(seen) + data.data);
    }
  }

  lemma SeriesAssociate(a: seq<SeriesData>, b: seq<SeriesData>, c: seq<SeriesData>)
    ensures a + (b + c) == a + b + c
  {
  }

  lemma KeepsMore(a: seq<SeriesData>, b: seq<SeriesData>, a0: seq<SeriesData>, b0: seq<SeriesData>)
    requires KeepsTimes(a, a0) || a == a0
    requires KeepsTimes(b, b0) || b == b0
    ensures KeepsTimes(a + b, a0 + b0)
  {
    hide HasPoint;
    SeenAppended(a, b);
    SeenAppended(a0, b0);
    forall l, p | HasPoint(a0 + b0, l, p) ensures HasPointAt(a + b, l, p.timestamp) {
      assert HasPointAt(a, l, p.timestamp) || HasPointAt(b, l, p.timestamp);
    }
  }

  lemma KeepsTransitively(a: seq<SeriesData>, b: seq<SeriesData>, c: seq<SeriesData>)
    requires KeepsTimes(a, b) && KeepsTimes(b, c)
    ensures KeepsTimes(a, c)
  {
    hide HasPoint;
    forall l, p | HasPoint(c, l, p) ensures HasPointAt(a, l, p.timestamp) {
      assert HasPointAt(b, l, p.timestamp);
      var q :| HasPoint(b, l, q) && q.timestamp == p.timestamp;
      assert HasPointAt(a, l, q.timestamp);
    }
  }

  lemma SnocInterval(cs: seq<Chunk>, c: Chunk)
    ensures Intervals(cs + [c]) == Intervals(cs) + [IntervalOf(c)]
    ensures forall t :: InSome(Intervals(cs + [c]), t) <==> InSome(Intervals(cs), t) || In(IntervalOf(c), t)
    ensures Upright(Intervals(cs + [c])) <==> Upright(Intervals(cs)) && c.start <= c.end
    ensures NonEmpty(Intervals(cs + [c])) <==> NonEmpty(Intervals(cs)) && c.start < c.end
  {
    var all := Intervals(cs + [c]);
    assert all == Intervals(cs) + [IntervalOf(c)];
    InSomeOneMore(Intervals(cs), IntervalOf(c));
    assert all[|cs|] == IntervalOf(c) && forall i :: 0 <= i < |cs| ==> all[i] == Intervals(cs)[i];
  }

  lemma SnocFaithful(cs: seq<Chunk>, c: Chunk, truth: Truth)
    ensures AllFaithful(cs + [c], truth) <==> AllFaithful(cs, truth) && Faithful(c, truth)
  {
    assert (cs + [c])[|cs|] == c && forall i :: 0 <= i < |cs| ==> (cs + [c])[i] == cs[i];
  }

  lemma SnocSeparated(cs: seq<Chunk>, c: Chunk)
    ensures Separated(Intervals(cs + [c])) <==>
      Separated(Intervals(cs)) && (cs != [] ==> var b := cs[|cs| - 1]; b.start <= b.end < c.start)
  {
    SnocInterval(cs, c);
    var a, all := Intervals(cs), Intervals(cs + [c]);
    assert forall i :: 0 <= i < |cs| ==> all[i] == a[i];
    if cs != [] {
      assert Separated(all) ==> all[|cs| - 1].end < all[|cs| - 1 + 1].start;
      assert Separated(all) ==> forall i :: 0 <= i < |a| - 1 ==> all[i].end < all[i + 1].start;
    }
  }

  /** The chunk after a gap. */
  lemma AddsAfter(merged: seq<Chunk>, data: Chunk, seen: seq<Chunk>, truth: Truth)
    requires MergedSoFar(merged, seen, truth) && merged != [] && merged[|merged| - 1].end < data.start
    ensures MergedSoFar(merged + [data], seen + [data], truth)
  {
    hide Upright, NonEmpty, Separated, AllFaithful, Faithful, Intervals, KeepsPoints;
    SnocInterval(merged, data);
    SnocInterval(seen, data);
    SnocFaithful(merged, data, truth);
    SnocFaithful(seen, data, truth);
    SnocSeparated(merged, data);
    AddsPoints(merged, data, seen);
  }

  /** The chunk that overlaps the current one. */
  lemma MergesInto(merged: seq<Chunk>, c: Chunk, data: Chunk, c': Chunk, seen: seq<Chunk>, truth: Truth)
    requires MergedSoFar(merged + [c], seen, truth) && c.start <= data.start <= c.end && IsTruth(truth)
    requires c'.start == c.start && c'.end == Max(c.end, data.end)
    requires Joined(c'.data, Latest(c.data) + data.data)
    ensures MergedSoFar(merged + [c'], seen + [data], truth)
  {
    hide Upright, NonEmpty, Separated, AllFaithful, Faithful, Intervals, KeepsPoints, Joined, Latest, IsTruth;
    SnocInterval(merged, c);
    SnocInterval(merged, c');
    SnocInterval(seen, data);
    SnocFaithful(merged, c, truth);
    SnocFaithful(merged, c', truth);
    SnocFaithful(seen, data, truth);
    SnocSeparated(merged, c);
    SnocSeparated(merged, c');
    MergesPoints(merged, c, data, c', seen);
    if Faithful(c, truth) && Faithful(data, truth) {
      JoinIsFaithful(c, data, c', truth);
    }
  }

  lemma JoinIsFaithful(c: Chunk, data: Chunk, c': Chunk, truth: Truth)
    requires Faithful(c, truth) && Faithful(data, truth) && c.start <= data.start <= c.end && IsTruth(truth)
    requires c'.start == c.start && c'.end == Max(c.end, data.end)
    requires Joined(c'.data, Latest(c.data) + data.data)
    ensures Faithful(c', truth)
  {
    LatestOfDistinct(c.data);
    var seen := c.data + data.data;
    SeenAppended(c.data, data.data);
    JoinedKeepsTruth(c'.data, seen, truth);
  }

  lemma SeenAppended(a: seq<SeriesData>, b: seq<SeriesData>)
    ensures forall l, p :: HasPoint(a + b, l, p) <==> HasPoint(a, l, p) || HasPoint(b, l, p)
  {
    assert forall i :: 0 <= i < |a| ==> (a + b)[i] == a[i];
    assert forall i :: 0 <= i < |b| ==> (a + b)[|a| + i] == b[i];
    forall l, p | HasPoint(a + b, l, p) ensures HasPoint(a, l, p) || HasPoint(b, l, p) {
      var i :| 0 <= i < |a + b| && (a + b)[i].labels == l && p in (a + b)[i].points;
      assert i >= |a| ==> b[i - |a|] == (a + b)[i];
    }
  }
}
