/** Which cached data is final: what the flux interval of querycache/query_range_cache.go does and does not promise. */
module EarlyCaching {
  import opened Wrappers
  import opened SeriesCache
  import opened MissingRanges
  import opened QueryCache
  import opened CachedQuery

  predicate IsBefore(t: int, horizon: int) {
    t < horizon
  }

  ghost function TimesBefore(horizon: int): iset<int> {
    iset t | IsBefore(t, horizon)
  }

  /** The chunk was fetched when the database was final before a horizon, and holds points of its own interval only. */
  ghost predicate FetchedWhenFinal(c: Chunk, points: map<Labels, seq<Point>>, horizon: int) {
    && Faithful(c, Truth(points, TimesBefore(horizon)))
    && forall l, p :: HasPoint(c.data, l, p) ==> In(IntervalOf(c), p.timestamp)
  }

  // ---- the database of a query ----

  ghost predicate AnswersWhenFinal(db: Database, asked: seq<Interval>, points: map<Labels, seq<Point>>, horizon: int) {
    forall k :: 0 <= k < |asked| && Answers(db, asked[k]) ==>
      FetchedWhenFinal(FetchedChunk(db, asked[k]), points, horizon)
  }

  ghost function NothingCut(): Interval -> iset<int> {
    (i: Interval) => iset{}
  }

  /** A database that is final before the horizon, and answers with points of the range only, is all that a query
      needs; what the query leaves open is then missing and past the horizon. */
  lemma FinalBeforeHorizon(db: Database, asked: seq<Interval>, points: map<Labels, seq<Point>>, horizon: int)
    requires AnswersWhenFinal(db, asked, points, horizon)
    ensures FinalBefore(db, asked, points, horizon, NothingCut())
    ensures forall t :: t in OpenTimes(asked, horizon, NothingCut()) <==> InSome(asked, t) && t >= horizon
  {
    forall k | 0 <= k < |asked| && Answers(db, asked[k])
      ensures Faithful(FetchedChunk(db, asked[k]),
                       FinalBut(points, iset t | IsOpenIn(t, asked[k], horizon, NothingCut())))
    {
      var open := iset t | IsOpenIn(t, asked[k], horizon, NothingCut());
      FaithfulInItsInterval(FetchedChunk(db, asked[k]), points, horizon, FinalBut(points, open).settled);
    }
  }

  lemma FaithfulInItsInterval(c: Chunk, points: map<Labels, seq<Point>>, horizon: int, final: iset<int>)
    requires FetchedWhenFinal(c, points, horizon)
    requires forall t :: t in final && In(IntervalOf(c), t) ==> t < horizon
    ensures Faithful(c, Truth(points, final))
  {
    var before, truth := Truth(points, TimesBefore(horizon)), Truth(points, final);
    assert forall l :: PointsOf(before, l) == PointsOf(truth, l);
    assert forall t :: IsBefore(t, horizon) <==> t in before.settled;
  }

  // ---- chunks fetched at different times ----

  ghost predicate AllFetchedWhenFinal(cs: seq<Chunk>, points: map<Labels, seq<Point>>, horizons: seq<int>)
    requires |cs| == |horizons|
  {
    forall i :: 0 <= i < |cs| ==> FetchedWhenFinal(cs[i], points, horizons[i])
  }

  /** Whatever the database answered, as long as that was final before the horizon of each fetch, the chunks hold its
      final points at some times. */
  ghost predicate AlwaysFaithful(intervals: seq<Interval>, horizons: seq<int>, points: map<Labels, seq<Point>>,
                                 s: iset<int>)
    requires |intervals| == |horizons|
  {
    forall cs: seq<Chunk> :: Intervals(cs) == intervals && AllFetchedWhenFinal(cs, points, horizons) ==>
      AllFaithful(cs, Truth(points, s))
  }

  ghost predicate NoneEarly(intervals: seq<Interval>, horizons: seq<int>, s: iset<int>)
    requires |intervals| == |horizons|
  {
    forall i, t :: 0 <= i < |intervals| && t in s && In(intervals[i], t) ==> t < horizons[i]
  }

  /** What is cached is final at some times exactly if none of them was in an interval past the horizon of its fetch. */
  lemma FinalIffNotEarly(intervals: seq<Interval>, horizons: seq<int>, points: map<Labels, seq<Point>>, s: iset<int>)
    requires |intervals| == |horizons|
    ensures AlwaysFaithful(intervals, horizons, points, s) <==> NoneEarly(intervals, horizons, s)
  {
    hide Faithful, FetchedWhenFinal;
    if NoneEarly(intervals, horizons, s) {
      forall cs: seq<Chunk> | Intervals(cs) == intervals && AllFetchedWhenFinal(cs, points, horizons)
        ensures AllFaithful(cs, Truth(points, s))
      {
        forall i | 0 <= i < |cs| ensures Faithful(cs[i], Truth(points, s)) {
          assert Intervals(cs)[i] == IntervalOf(cs[i]);
          FaithfulInItsInterval(cs[i], points, horizons[i], s);
        }
      }
    } else {
      var i, t :| 0 <= i < |intervals| && t in s && In(intervals[i], t) && t >= horizons[i];
      var cs := seq(|intervals|, k requires 0 <= k < |intervals| =>
        ChunkOf(if k == i then WrongPoints(points, t) else points, intervals[k]));
      forall k | 0 <= k < |intervals| ensures FetchedWhenFinal(cs[k], points, horizons[k]) {
        if k == i {
          WrongIsFetchedButNotFaithful(points, intervals[i], t, horizons[i], s);
        } else {
          ChunkIsFetched(points, points, intervals[k], t, horizons[k]);
        }
      }
      WrongIsFetchedButNotFaithful(points, intervals[i], t, horizons[i], s);
      assert Intervals(cs) == intervals && !Faithful(cs[i], Truth(points, s));
    }
  }

  /** So of what one query fetches and caches, the times that stay open are exactly those missing and past the horizon:
      no fewer will do, whatever the final points are. */
  lemma QueryLeavesOpenIff(cache: Cache, start: int, end: int, step: int, cacheKey: string, now: nat,
                           points: map<Labels, seq<Point>>, s: iset<int>)
    requires step != 0
    ensures var asked, horizon := cache.Asked(start, end, step, cacheKey, now), cache.Horizon(step, now);
      AlwaysFaithful(asked, seq(|asked|, _ => horizon), points, s) <==> s !! OpenTimes(asked, horizon, NothingCut())
  {
    var asked, horizon := cache.Asked(start, end, step, cacheKey, now), cache.Horizon(step, now);
    FinalIffNotEarly(asked, seq(|asked|, _ => horizon), points, s);
    assert forall t :: t in OpenTimes(asked, horizon, NothingCut()) <==> IsOpenInSome(t, asked, horizon, NothingCut());
    assert forall t, i: Interval :: IsOpenIn(t, i, horizon, NothingCut()) <==> In(i, t) && t >= horizon;
  }

  // ---- a stale answer ----

  function OnePoint(value: real): seq<SeriesData> {
    [SeriesData(map[], [Point(540_000, value)])]
  }

  function AlwaysAnswers(value: real): Database {
    (s, e) => Some(OnePoint(value))
  }

  function FinalPoints(): map<Labels, seq<Point>> {
    map[map[] := [Point(540_000, 2.0)]]
  }

  /** Two queries for the first ten minutes, with a flux interval of five: one as they end, one ten minutes later. In
      between the point of the last minute, which the first horizon lets change, goes from 1 to 2. All of the range is
      before the second horizon, yet the second query asks for nothing and answers 1. */
  method StaleAnswer() returns (cache: Cache, second: Result<seq<Series>, string>)
    ensures cache.enabled && cache.fluxInterval == 300_000
    ensures cache.Horizon(60, 600_000) <= 540_000 && 600_000 <= cache.Horizon(60, 1_200_000)
    ensures FetchedWhenFinal(Chunk(0, 600_000, OnePoint(1.0)), FinalPoints(), cache.Horizon(60, 600_000))
    ensures FetchedWhenFinal(Chunk(0, 600_000, OnePoint(2.0)), FinalPoints(), cache.Horizon(60, 1_200_000))
    ensures cache.Parts("key") == [Chunk(0, 600_000, OnePoint(1.0))]
    ensures second.Ok? && AnswersFrom(second.value, cache.Parts("key"), 0, 600_000) && IsOneOf(map[], second.value)
    ensures forall i :: 0 <= i < |second.value| && second.value[i].labels == map[] ==>
      second.value[i].points == [Point(540_000, 1.0)]
  {
    hide FetchedWhenFinal, FinalBefore, Faithful, IsTruth, AnswersFrom, IsTrueAnswer, MissingFrom, CutLast, Fetched,
         FinalBut, OpenTimes, Flatten, FinalPoints, AnswersAll, AnswersWhenFinal, DistinctLabels, IsOneOf, OnePoint;
    var before, after := AlwaysAnswers(1.0), AlwaysAnswers(2.0);
    StaleFacts();
    cache := new Cache(true, 300_000);
    assert cache.Cached("key") == [] && Intervals([]) == [];
    ghost var asked := cache.Asked(0, 600_000, 60, "key", 600_000);
    FetchesAll(1.0);
    FetchesNone(after);
    FinalBeforeHorizon(before, asked, FinalPoints(), 300_000);
    var first := RunBuilderQuery(cache, before, 0, 600_000, 60, "key", 600_000, FinalPoints(), iset{}, NothingCut());
    ghost var open := iset{} + OpenTimes(asked, 300_000, NothingCut());
    StillTruth(FinalPoints(), iset{}, OpenTimes(asked, 300_000, NothingCut()));
    ghost var cached := cache.Cached("key");
    assert cached == [Chunk(0, 600_000, OnePoint(1.0))] && cached + [] == cached;
    assert Intervals(cached) == [Interval(0, 600_000)];
    second := RunBuilderQuery(cache, after, 0, 600_000, 60, "key", 1_200_000, FinalPoints(), open, NothingCut());
    StaleOnly(second.value);
  }

  /** What the two queries ask for, and what is final when they do. */
  lemma StaleFacts()
    ensures MissingFrom(CutLast([], 300_000), 0, 0, 600_000) == [Interval(0, 600_000)]
    ensures MissingFrom(CutLast([Interval(0, 600_000)], 900_000), 0, 0, 600_000) == []
    ensures FetchedWhenFinal(Chunk(0, 600_000, OnePoint(1.0)), FinalPoints(), 300_000)
    ensures FetchedWhenFinal(Chunk(0, 600_000, OnePoint(2.0)), FinalPoints(), 900_000)
    ensures IsTruth(FinalBut(FinalPoints(), iset{}))
  {
    HasOnePoint(1.0);
    HasOnePoint(2.0);
    assert CutLast([Interval(0, 600_000)], 900_000) == [Interval(0, 600_000)];
  }

  lemma HasOnePoint(value: real)
    ensures forall l, p :: HasPoint(OnePoint(value), l, p) <==> l == map[] && p == Point(540_000, value)
  {
    assert OnePoint(value)[0].points[0] == Point(540_000, value);
  }

  lemma FetchesAll(value: real)
    ensures var db, asked := AlwaysAnswers(value), [Interval(0, 600_000)];
      && AnswersAll(db, asked) && Fetched(db, asked) == [Chunk(0, 600_000, OnePoint(value))]
      && (forall points, horizon :: FetchedWhenFinal(Chunk(0, 600_000, OnePoint(value)), points, horizon) ==>
            AnswersWhenFinal(db, asked, points, horizon))
  {
    hide FetchedWhenFinal;
    FetchesOne(AlwaysAnswers(value), Interval(0, 600_000), OnePoint(value));
  }

  lemma FetchesNone(db: Database)
    ensures AnswersAll(db, []) && Fetched(db, []) == []
    ensures forall points, horizon, cut :: FinalBefore(db, [], points, horizon, cut)
  {
  }

  lemma StaleOnly(series: seq<Series>)
    requires AnswersFrom(series, [Chunk(0, 600_000, OnePoint(1.0))], 0, 600_000)
    ensures IsOneOf(map[], series)
    ensures forall i :: 0 <= i < |series| && series[i].labels == map[] ==> series[i].points == [Point(540_000, 1.0)]
  {
    var chunks := [Chunk(0, 600_000, OnePoint(1.0))];
    HasOnePoint(1.0);
    assert Flatten(chunks) == OnePoint(1.0) by {
      assert Flatten(chunks) == Flatten([]) + OnePoint(1.0);
    }
    OnePointAnswered(series, chunks, Point(540_000, 1.0), 0, 600_000);
  }

  // ---- contents that are wrong at one time past the horizon ----

  function DropTime(ps: seq<Point>, t: int): seq<Point> {
    if ps == [] then []
    else if ps[0].timestamp == t then DropTime(ps[1..], t)
    else [ps[0]] + DropTime(ps[1..], t)
  }

  lemma {:induction false} DropTimeMembers(ps: seq<Point>, t: int)
    ensures forall p :: p in DropTime(ps, t) <==> p in ps && p.timestamp != t
  {
    if ps != [] {
      DropTimeMembers(ps[1..], t);
      assert forall p :: p in ps <==> p == ps[0] || p in ps[1..];
    }
  }

  /** The points without the one at a time, or with one more if there was none. */
  ghost function WrongAt(ps: seq<Point>, t: int): seq<Point> {
    if HasTime(ps, t) then DropTime(ps, t) else ps + [Point(t, 0.0)]
  }

  ghost function Pick(keys: set<Labels>): (l: Labels)
    requires keys != {}
    ensures l in keys
  {
    var l :| l in keys;
    l
  }

  ghost function SeriesOf(points: map<Labels, seq<Point>>, keys: set<Labels>, i: Interval): seq<SeriesData>
    requires keys <= points.Keys
  {
    if keys == {} then []
    else
      var l := Pick(keys);
      SeriesOf(points, keys - {l}, i) + [SeriesData(l, InRange(points[l], i.start, i.end - 1))]
  }

  lemma {:induction false} SeriesOfIsCut(points: map<Labels, seq<Point>>, keys: set<Labels>, i: Interval)
    requires keys <= points.Keys
    ensures forall l :: HasLabels(SeriesOf(points, keys, i), l) ==> l in keys
    ensures OnePerLabels(SeriesOf(points, keys, i))
    ensures forall l, p :: HasPoint(SeriesOf(points, keys, i), l, p) <==>
      l in keys && p in points[l] && In(i, p.timestamp)
  {
    if keys != {} {
      var l := Pick(keys);
      var rest := SeriesOf(points, keys - {l}, i);
      SeriesOfIsCut(points, keys - {l}, i);
      SeenOneMore(rest, SeriesData(l, InRange(points[l], i.start, i.end - 1)));
      InRangeMembers(points[l], i.start, i.end - 1);
      assert forall k :: 0 <= k < |rest| ==> HasLabels(rest, rest[k].labels);
    }
  }

  /** The chunk that holds what given points have in an interval. */
  ghost function ChunkOf(points: map<Labels, seq<Point>>, i: Interval): Chunk {
    Chunk(i.start, i.end, SeriesOf(points, points.Keys, i))
  }

  ghost predicate SameButAt(points: map<Labels, seq<Point>>, wrong: map<Labels, seq<Point>>, t: int) {
    forall l, p: Point :: p.timestamp != t ==>
      (p in PointsOf(Truth(points, iset{}), l) <==> p in PointsOf(Truth(wrong, iset{}), l))
  }

  lemma ChunkIsFetched(points: map<Labels, seq<Point>>, wrong: map<Labels, seq<Point>>, i: Interval, t: int,
                       horizon: int)
    requires points == wrong || (SameButAt(points, wrong, t) && t >= horizon)
    ensures FetchedWhenFinal(ChunkOf(wrong, i), points, horizon)
  {
    SeriesOfIsCut(wrong, wrong.Keys, i);
    var truth := Truth(points, TimesBefore(horizon));
    assert forall s :: s in truth.settled <==> IsBefore(s, horizon);
    assert forall l :: PointsOf(truth, l) == PointsOf(Truth(points, iset{}), l);
    forall l, p | HasPoint(ChunkOf(wrong, i).data, l, p) && p.timestamp in truth.settled
      ensures p in PointsOf(truth, l)
    {
      assert p in PointsOf(Truth(wrong, iset{}), l);
    }
    forall l, p | p in PointsOf(truth, l) && p.timestamp in truth.settled && i.start <= p.timestamp < i.end
      ensures HasPoint(ChunkOf(wrong, i).data, l, p)
    {
      assert p in PointsOf(Truth(wrong, iset{}), l);
    }
  }

  ghost function WrongPoints(points: map<Labels, seq<Point>>, t: int): map<Labels, seq<Point>> {
    points[map[] := WrongAt(PointsOf(Truth(points, iset{}), map[]), t)]
  }

  lemma WrongIsFetchedButNotFaithful(points: map<Labels, seq<Point>>, i: Interval, t: int, horizon: int, s: iset<int>)
    requires In(i, t) && t >= horizon && t in s
    ensures FetchedWhenFinal(ChunkOf(WrongPoints(points, t), i), points, horizon)
    ensures !Faithful(ChunkOf(WrongPoints(points, t), i), Truth(points, s))
  {
    hide HasPoint;
    var wrong, ps := WrongPoints(points, t), PointsOf(Truth(points, iset{}), map[]);
    var c, truth := ChunkOf(wrong, i), Truth(points, s);
    DropTimeMembers(ps, t);
    ChunkIsFetched(points, wrong, i, t, horizon);
    SeriesOfIsCut(wrong, wrong.Keys, i);
    assert PointsOf(truth, map[]) == ps;
    if HasTime(ps, t) {
      var k :| 0 <= k < |ps| && ps[k].timestamp == t;
      assert ps[k] in ps && !HasPoint(c.data, map[], ps[k]);
    } else {
      assert HasPoint(c.data, map[], Point(t, 0.0)) && Point(t, 0.0) !in ps;
    }
  }
}
