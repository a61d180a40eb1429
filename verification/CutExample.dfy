/** A count that comes out wrong, and stays so after the chunks were merged. */
module CutExample {
  import opened Wrappers
  import opened SeriesCache
  import opened MissingRanges
  import opened QueryCache
  import opened CachedQuery
  import opened Buckets
  import opened BucketedQuery
  import opened CutCounts
  import opened BucketBounds
  import opened CutRanges

  /** One row ten seconds and one forty seconds after the start. */
  function TwoRows(): seq<Row> {
    RowsAt([10_000 * NanosPerMilli, 40_000 * NanosPerMilli])
  }

  /** What the logs table counts per minute, in the first minute. */
  function LogsTable(): Database {
    (s, e) => Some(DataOf(TwoRows(), Inclusive(Interval(s, e)), 0, 60_000))
  }

  ghost function AlwaysCut(): Interval -> iset<int> {
    (i: Interval) => iset t | IsOutside(t, iset{})
  }

  /** The two half minutes, as the table answers them. */
  function Halves(): seq<Chunk> {
    [FetchedChunk(LogsTable(), Interval(0, 30_000)), FetchedChunk(LogsTable(), Interval(30_000, 60_000))]
  }

  /** Three logs queries over rows that do not change, with a step of a minute: one for the first half minute, two for
      the whole. Directly these count two rows; through the cache they answer one, twice fetched. The last one asks for
      nothing, and of the cached interval alone one could not tell: it is the query's, on a step. */
  method CutBucket() returns (cache: Cache, second: Result<seq<Series>, string>, third: Result<seq<Series>, string>)
    ensures forall i :: IsDirect(FetchedChunk(LogsTable(), i).data, TwoRows(), Inclusive(i), 60_000, Count)
    ensures IsPoint(Point(0, 2.0), map[], TwoRows(), Inclusive(Interval(0, 60_000)), 60_000, Count)
    ensures cache.Valid() && cache.Parts("logs") == Halves()
    ensures Intervals(cache.Cached("logs")) == [Interval(0, 60_000)]
    ensures CacheFitsLogs(Intervals(cache.Cached("logs")), cache.Horizon(60, 600_000), Interval(0, 60_000), 60_000)
    ensures !EndsWithQuery(Intervals(cache.Parts("logs")), Interval(0, 60_000), 60_000)
    ensures second.Ok? && AnswersFrom(second.value, Halves(), 0, 60_000) && IsCountedOnce(second.value)
    ensures third.Ok? && AnswersFrom(third.value, Halves(), 0, 60_000) && IsCountedOnce(third.value)
  {
    hide *;
    var db := LogsTable();
    ghost var half, rest := Interval(0, 30_000), Interval(30_000, 60_000);
    TableIsDirect();
    TableCounts();
    TableFetches(half);
    TableFetches(rest);
    AskedInThree();
    FetchesNothing(db);
    HalvesAre();
    StillTruth(map[], iset{}, OpenTimes([half], 300_000, AlwaysCut()));
    NothingIsTruth();
    cache := new Cache(true, 300_000);
    EmptyCache(cache, 0, 30_000);
    var first := RunBuilderQuery(cache, db, 0, 30_000, 60, "logs", 600_000, map[], iset{}, AlwaysCut());
    ghost var open := iset{} + OpenTimes([half], 300_000, AlwaysCut());
    assert [] + Fetched(db, [half]) == Fetched(db, [half]);
    IntervalsOfHalf(half);
    CachedAsks(cache, half);
    second := RunBuilderQuery(cache, db, 0, 60_000, 60, "logs", 600_000, map[], open, AlwaysCut());
    assert AnswersFrom(second.value, Halves(), 0, 60_000);
    CountedOnce(second.value);
    WholeCached(cache);
    CachedAsks(cache, Interval(0, 60_000));
    StillTruth(map[], open, OpenTimes([rest], 300_000, AlwaysCut()));
    ghost var cached := cache.Cached("logs");
    third := RunBuilderQuery(cache, db, 0, 60_000, 60, "logs", 600_000, map[],
                             open + OpenTimes([rest], 300_000, AlwaysCut()), AlwaysCut());
    assert cached + [] == cached && Halves() + [] == Halves();
    AnswersOfKept(third.value, cached, Halves(), 0, 60_000);
    CountedOnce(third.value);
    WholeCached(cache);
    WholeFits();
  }

  /** For the labels of the rows the answer is a count of one. */
  ghost predicate IsCountedOnce(series: seq<Series>)
    reads series
  {
    && IsOneOf(map[], series)
    && forall i :: 0 <= i < |series| && series[i].labels == map[] ==> series[i].points == [Point(0, 1.0)]
  }

  function OneCount(count: real): seq<SeriesData> {
    [SeriesData(map[], [Point(0, count)])]
  }

  lemma TableIsDirect()
    ensures forall i :: IsDirect(FetchedChunk(LogsTable(), i).data, TwoRows(), Inclusive(i), 60_000, Count)
  {
    hide RowsIn, IsDirect, DataOf;
    forall i: Interval ensures IsDirect(FetchedChunk(LogsTable(), i).data, TwoRows(), Inclusive(i), 60_000, Count) {
      DataOfIsDirect(TwoRows(), Inclusive(Interval(i.start, i.end)), 0, 60_000);
    }
  }

  /** The rows of the first and of the second half minute are one each. */
  lemma TableCounts()
    ensures LogsTable()(0, 30_000) == Some(OneCount(1.0)) && LogsTable()(30_000, 60_000) == Some(OneCount(1.0))
    ensures IsPoint(Point(0, 2.0), map[], TwoRows(), Inclusive(Interval(0, 60_000)), 60_000, Count)
  {
    hide RowsIn;
    var x, y := 10_000 * NanosPerMilli, 40_000 * NanosPerMilli;
    RowsOfTwo(x, y, InBucket(Inclusive(Interval(0, 30_000)), 0, 60_000));
    RowsOfTwo(x, y, InBucket(Inclusive(Interval(30_000, 60_000)), 0, 60_000));
    RowsOfTwo(x, y, InBucket(Inclusive(Interval(0, 60_000)), 0, 60_000));
  }

  lemma TableFetches(i: Interval)
    requires LogsTable()(i.start, i.end) == Some(OneCount(1.0))
    ensures AnswersAll(LogsTable(), [i]) && Fetched(LogsTable(), [i]) == [Chunk(i.start, i.end, OneCount(1.0))]
    ensures FinalBefore(LogsTable(), [i], map[], 300_000, AlwaysCut())
  {
    hide LogsTable, OneCount;
    FetchesOne(LogsTable(), i, OneCount(1.0));
    OneIsOne();
    NoneFinal(LogsTable(), [i], 300_000, AlwaysCut());
  }

  lemma OneIsOne()
    ensures OnePerLabels(OneCount(1.0))
  {
  }

  lemma EmptyCache(cache: Cache, start: int, end: int)
    requires cache.enabled && cache.fluxInterval == 300_000 && cache.stored == map[]
    ensures cache.Cached("logs") == [] && cache.Parts("logs") == [] && cache.Horizon(60, 600_000) == 300_000
    ensures cache.Asked(start, end, 60, "logs", 600_000) == MissingFrom(CutLast([], 300_000), start, start, end)
    ensures CacheIsFaithful(cache.stored, "logs", FinalBut(map[], iset{})) && "logs" !in cache.stored
  {
    assert Intervals([]) == [];
  }

  lemma CachedAsks(cache: Cache, i: Interval)
    requires cache.enabled && cache.fluxInterval == 300_000 && Intervals(cache.Cached("logs")) == [i]
    ensures cache.Horizon(60, 600_000) == 300_000
    ensures cache.Asked(0, 60_000, 60, "logs", 600_000) == MissingFrom(CutLast([i], 300_000), 0, 0, 60_000)
  {
  }

  lemma AskedInThree()
    ensures MissingFrom(CutLast([], 300_000), 0, 0, 30_000) == [Interval(0, 30_000)]
    ensures MissingFrom(CutLast([Interval(0, 30_000)], 300_000), 0, 0, 60_000) == [Interval(30_000, 60_000)]
    ensures MissingFrom(CutLast([Interval(0, 60_000)], 300_000), 0, 0, 60_000) == []
  {
    assert CutLast([Interval(0, 30_000)], 300_000) == [Interval(0, 30_000)];
    assert CutLast([Interval(0, 60_000)], 300_000) == [Interval(0, 60_000)];
    assert MissingFrom([Interval(0, 30_000)][1..], 30_000, 0, 60_000) == [Interval(30_000, 60_000)];
  }

  lemma FetchesNothing(db: Database)
    ensures AnswersAll(db, []) && Fetched(db, []) == [] && FinalBefore(db, [], map[], 300_000, AlwaysCut())
  {
  }

  lemma IntervalsOfHalf(i: Interval)
    ensures Intervals([Chunk(i.start, i.end, OneCount(1.0))]) == [i]
  {
  }

  lemma HalvesAre()
    ensures Halves() == [Chunk(0, 30_000, OneCount(1.0))] + [Chunk(30_000, 60_000, OneCount(1.0))]
  {
    hide OneCount, LogsTable;
    TableCounts();
  }

  /** After the second query one interval is left. */
  lemma WholeCached(cache: Cache)
    requires cache.Valid() && cache.enabled && cache.Parts("logs") == Halves()
    ensures Intervals(cache.Cached("logs")) == [Interval(0, 60_000)]
    ensures KeepsTimes(Flatten(cache.Cached("logs")), Flatten(Halves()))
  {
    hide KeepsTimes, Flatten, OneCount, IsCached;
    HalvesAre();
    OneIsOne();
    assert AllOnePerLabels(Halves());
    assert IsKept(cache.stored, "logs", Halves());
    var cached := Intervals(cache.Cached("logs"));
    forall t ensures InSome(Intervals(Halves()), t) <==> In(Interval(0, 60_000), t) {
      HalvesCover(t);
    }
    OneInterval(cached);
  }

  lemma HalvesCover(t: int)
    ensures InSome(Intervals(Halves()), t) <==> In(Interval(0, 60_000), t)
  {
    hide OneCount;
    HalvesAre();
    var both := Intervals(Halves());
    assert both[0] == Interval(0, 30_000) && both[1] == Interval(30_000, 60_000);
  }

  lemma OneInterval(cached: seq<Interval>)
    requires IsCached(cached) && forall t :: InSome(cached, t) <==> In(Interval(0, 60_000), t)
    ensures cached == [Interval(0, 60_000)]
  {
    assert InSome(cached, 0);
    var i :| 0 <= i < |cached| && In(cached[i], 0);
    var got := [Interval(0, 60_000)];
    InSomeOneMore([], got[0]);
    assert [] + [got[0]] == got;
    assert CoverSame(got, cached);
    GotWithin(got, cached, 0, i, 0);
    forall j | 0 <= j < |cached| ensures i == j && cached[j] == Interval(0, 60_000) {
      var c := cached[j];
      assert In(c, c.start) && In(c, c.end - 1) && InSome(cached, c.start) && InSome(cached, c.end - 1);
      OneHasTime(cached, i, j, c.start);
    }
    assert cached[0] == cached[|cached| - 1] == Interval(0, 60_000);
  }

  lemma WholeFits()
    ensures CacheFitsLogs([Interval(0, 60_000)], 300_000, Interval(0, 60_000), 60_000)
    ensures !EndsWithQuery(Intervals(Halves()), Interval(0, 60_000), 60_000)
  {
    hide OneCount;
    HalvesAre();
    assert Intervals(Halves())[0] == Interval(0, 30_000);
    assert Touches(Interval(0, 30_000), Interval(0, 60_000), 60_000);
  }

  lemma NothingIsTruth()
    ensures IsTruth(FinalBut(map[], iset{}))
  {
  }

  lemma NoneFinal(db: Database, asked: seq<Interval>, horizon: int, cut: Interval -> iset<int>)
    requires AnswersAll(db, asked) && AllOnePerLabels(Fetched(db, asked)) && forall t, i :: t in cut(i)
    ensures FinalBefore(db, asked, map[], horizon, cut)
  {
    forall k | 0 <= k < |asked|
      ensures Faithful(FetchedChunk(db, asked[k]), FinalBut(map[], iset t | IsOpenIn(t, asked[k], horizon, cut)))
    {
      assert OnePerLabels(Fetched(db, asked)[k].data);
    }
  }

  lemma CountedOnce(series: seq<Series>)
    requires AnswersFrom(series, Halves(), 0, 60_000)
    ensures IsCountedOnce(series)
  {
    hide LogsTable;
    var cs, one := Halves(), Point(0, 1.0);
    HalvesAre();
    forall l, p ensures HasPoint(Flatten(cs), l, p) <==> l == map[] && p == one {
      if HasPoint(Flatten(cs), l, p) {
        var i := FoundIn(cs, l, p);
      }
      assert cs[0].data[0].points[0] == one && HasPoint(cs[0].data, map[], one);
      FlattenHas(cs, 0, map[], one);
    }
    OnePointAnswered(series, cs, one, 0, 60_000);
  }
}
