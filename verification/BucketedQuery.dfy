/** Queries that aggregate rows per step: the database groups the rows of a range into buckets of one step
    (app/logs/v4/query_builder.go, app/metrics/v3), while the cache cuts a query at any millisecond. */
module BucketedQuery {
  import opened Wrappers
  import opened SeriesCache
  import opened MissingRanges
  import opened QueryCache
  import opened CachedQuery
  import opened Buckets

  /** Rows carry nanoseconds, ranges and points milliseconds. */
  const NanosPerMilli := 1_000_000

  datatype Row = Row(time: int, labels: Labels, value: real)

  type Aggregate = seq<Row> -> real

  /** The nanoseconds of which a query for a range reads the rows. */
  type Scan = Interval -> Interval

  function HalfOpen(i: Interval): Interval {
    Interval(i.start * NanosPerMilli, i.end * NanosPerMilli)
  }

  /** The filter of a logs query is `timestamp >= start AND timestamp <= end`. */
  function Inclusive(i: Interval): Interval {
    Interval(i.start * NanosPerMilli, i.end * NanosPerMilli + 1)
  }

  function Clip(i: Interval, j: Interval): Interval {
    Interval(Max(i.start, j.start), Min(i.end, j.end))
  }

  /** The part of the rows read for a range that falls into a bucket. */
  function InBucket(read: Interval, b: int, w: int): Interval {
    Clip(read, HalfOpen(Interval(b, b + w)))
  }

  predicate Meets(read: Interval, b: int, w: int) {
    InBucket(read, b, w).start < InBucket(read, b, w).end
  }

  function RowsIn(rows: seq<Row>, l: Labels, i: Interval): seq<Row> {
    if rows == [] then []
    else
      var init, row := RowsIn(rows[..|rows| - 1], l, i), rows[|rows| - 1];
      if row.labels == l && In(i, row.time) then init + [row] else init
  }

  function Count(rows: seq<Row>): real {
    |rows| as real
  }

  /** A point of the answer: the aggregate of the rows read in its bucket, if there are any. */
  predicate IsPoint(p: Point, l: Labels, rows: seq<Row>, read: Interval, w: int, agg: Aggregate)
    requires w > 0
  {
    var rs := RowsIn(rows, l, InBucket(read, p.timestamp, w));
    IsBucket(p.timestamp, w) && rs != [] && p.value == agg(rs)
  }

  /** What the database answers for a range, whatever the order of series and points. */
  ghost predicate IsDirect(d: seq<SeriesData>, rows: seq<Row>, read: Interval, w: int, agg: Aggregate)
    requires w > 0
  {
    OnePerLabels(d) && forall l, p :: HasPoint(d, l, p) <==> IsPoint(p, l, rows, read, w, agg)
  }

  /** Chunks that hold what the database answers for their ranges. */
  ghost predicate AllDirect(cs: seq<Chunk>, rows: seq<Row>, scan: Scan, w: int, agg: Aggregate)
    requires w > 0
  {
    forall i :: 0 <= i < |cs| ==> IsDirect(cs[i].data, rows, scan(IntervalOf(cs[i])), w, agg)
  }

  ghost predicate SameAsDirect(ps: seq<Point>, l: Labels, rows: seq<Row>, read: Interval, w: int, agg: Aggregate)
    requires w > 0
  {
    forall p :: p in ps <==> IsPoint(p, l, rows, read, w, agg)
  }

  // ---- when the cache does not show ----

  predicate MetBySome(ranges: seq<Interval>, scan: Scan, b: int, w: int) {
    exists i :: 0 <= i < |ranges| && Meets(scan(ranges[i]), b, w)
  }

  predicate NoneCuts(ranges: seq<Interval>, query: Interval, scan: Scan, b: int, w: int) {
    forall i :: 0 <= i < |ranges| && Meets(scan(ranges[i]), b, w) ==>
      InBucket(scan(ranges[i]), b, w) == InBucket(scan(query), b, w)
  }

  /** A bucket that the query reads starts inside it and is read for some range; and every range that reads any of a
      bucket inside the query reads as much of it as the query. */
  predicate IsWhole(b: int, ranges: seq<Interval>, query: Interval, scan: Scan, w: int) {
    && (Meets(scan(query), b, w) ==> query.start <= b <= query.end && MetBySome(ranges, scan, b, w))
    && (query.start <= b <= query.end ==> NoneCuts(ranges, query, scan, b, w))
  }

  ghost predicate NoBucketCut(ranges: seq<Interval>, query: Interval, scan: Scan, w: int)
    requires w > 0
  {
    forall b :: IsBucket(b, w) ==> IsWhole(b, ranges, query, scan, w)
  }

  /** An answer for one label set: the stored chunks were merged from parts, and parts and fetched chunks are what the
      database answered for their ranges. Merging may have hidden where the parts met. */
  ghost predicate IsAnswer(ps: seq<Point>, l: Labels, rows: seq<Row>, stored: seq<Chunk>, parts: seq<Chunk>,
                           fetched: seq<Chunk>, query: Interval, scan: Scan, w: int, agg: Aggregate)
    requires w > 0
  {
    && KeepsPoints(stored, parts) && AllDirect(parts + fetched, rows, scan, w, agg)
    && IsMerged(ps, l, stored + fetched, query.start, query.end)
  }

  /** Of the chunks in the cache, of the ranges fetched so far that were merged to them, and of the ranges asked for. */
  datatype Ranges = Ranges(cached: seq<Interval>, got: seq<Interval>, asked: seq<Interval>)

  predicate CanBeMerged(r: Ranges) {
    r.got != [] ==> r.cached != []
  }

  /** Whatever the rows are, and however what was fetched was merged: any answer from the cached chunks and those asked
      for is the answer to the query. */
  ghost predicate AlwaysDirect(r: Ranges, query: Interval, scan: Scan, w: int, agg: Aggregate)
    requires w > 0
  {
    forall rows, stored, parts, fetched, l, ps ::
      && Intervals(stored) == r.cached && Intervals(parts) == r.got && Intervals(fetched) == r.asked
      && IsAnswer(ps, l, rows, stored, parts, fetched, query, scan, w, agg) ==>
        SameAsDirect(ps, l, rows, scan(query), w, agg)
  }

  /** However rows are aggregated and whatever range of them is read: without a cut bucket the answer put together from
      chunks is the direct one. */
  lemma UncutIsDirect(ps: seq<Point>, l: Labels, cs: seq<Chunk>, rows: seq<Row>, query: Interval, scan: Scan, w: int,
                      agg: Aggregate)
    requires w > 0 && NoBucketCut(Intervals(cs), query, scan, w) && AllDirect(cs, rows, scan, w, agg)
    requires IsMerged(ps, l, cs, query.start, query.end)
    ensures SameAsDirect(ps, l, rows, scan(query), w, agg)
  {
    hide NoBucketCut, AllDirect, InBucket, Meets, RowsIn, IsMerged, Flatten, HasPoint;
    var read := scan(query);
    forall p | p in ps ensures IsPoint(p, l, rows, read, w, agg) {
      MergedPointIsDirect(ps, p, l, cs, rows, query, scan, w, agg);
    }
    forall p | IsPoint(p, l, rows, read, w, agg) ensures p in ps {
      DirectPointIsFound(p, l, cs, rows, query, scan, w, agg);
      var q := PointOfTime(ps, l, cs, query.start, query.end, p);
      MergedPointIsDirect(ps, q, l, cs, rows, query, scan, w, agg);
    }
  }

  /** The same for chunks that were merged. */
  lemma MergedUncutIsDirect(ps: seq<Point>, l: Labels, rows: seq<Row>, stored: seq<Chunk>, parts: seq<Chunk>,
                            fetched: seq<Chunk>, query: Interval, scan: Scan, w: int, agg: Aggregate)
    requires w > 0 && NoBucketCut(Intervals(parts + fetched), query, scan, w)
    requires IsAnswer(ps, l, rows, stored, parts, fetched, query, scan, w, agg)
    ensures SameAsDirect(ps, l, rows, scan(query), w, agg)
  {
    hide NoBucketCut, SameAsDirect, IsMerged, Flatten, KeepsTimes;
    MergedTimesKept(stored, parts, fetched, rows, scan, w, agg);
    MergedOfKept(ps, l, stored + fetched, parts + fetched, query.start, query.end);
    UncutIsDirect(ps, l, parts + fetched, rows, query, scan, w, agg);
  }

  lemma MergedTimesKept(stored: seq<Chunk>, parts: seq<Chunk>, fetched: seq<Chunk>, rows: seq<Row>, scan: Scan, w: int,
                        agg: Aggregate)
    requires w > 0 && KeepsPoints(stored, parts) && AllDirect(parts + fetched, rows, scan, w, agg)
    ensures KeepsTimes(Flatten(stored + fetched), Flatten(parts + fetched))
  {
    hide KeepsTimes, Flatten, HasPoint, IsPoint, OnePerLabels;
    KeptAppended(stored, parts, fetched);
    assert forall i :: 0 <= i < |parts + fetched| ==>
      IsDirect((parts + fetched)[i].data, rows, scan(IntervalOf((parts + fetched)[i])), w, agg);
    assert AllOnePerLabels(parts + fetched);
  }

  lemma PointOfTime(ps: seq<Point>, l: Labels, cs: seq<Chunk>, start: int, end: int, p: Point) returns (q: Point)
    requires IsMerged(ps, l, cs, start, end) && HasPoint(Flatten(cs), l, p) && start <= p.timestamp <= end
    ensures q in ps && q.timestamp == p.timestamp
  {
    var i :| 0 <= i < |ps| && ps[i].timestamp == p.timestamp;
    q := ps[i];
  }

  lemma MergedPointIsDirect(ps: seq<Point>, p: Point, l: Labels, cs: seq<Chunk>, rows: seq<Row>, query: Interval,
                            scan: Scan, w: int, agg: Aggregate)
    requires w > 0 && NoBucketCut(Intervals(cs), query, scan, w) && AllDirect(cs, rows, scan, w, agg)
    requires IsMerged(ps, l, cs, query.start, query.end) && p in ps
    ensures IsPoint(p, l, rows, scan(query), w, agg)
  {
    hide Flatten, HasPoint, RowsIn, InBucket, Meets;
    var i := FoundIn(cs, l, p);
    var read := scan(IntervalOf(cs[i]));
    assert IsDirect(cs[i].data, rows, read, w, agg) && IsPoint(p, l, rows, read, w, agg);
    SomeRowMeets(rows, l, read, p.timestamp, w);
    assert Intervals(cs)[i] == IntervalOf(cs[i]) && IsWhole(p.timestamp, Intervals(cs), query, scan, w);
  }

  lemma DirectPointIsFound(p: Point, l: Labels, cs: seq<Chunk>, rows: seq<Row>, query: Interval, scan: Scan, w: int,
                           agg: Aggregate)
    requires w > 0 && NoBucketCut(Intervals(cs), query, scan, w) && AllDirect(cs, rows, scan, w, agg)
    requires IsPoint(p, l, rows, scan(query), w, agg)
    ensures query.start <= p.timestamp <= query.end && HasPoint(Flatten(cs), l, p)
  {
    hide Flatten, HasPoint, RowsIn, InBucket, Meets;
    SomeRowMeets(rows, l, scan(query), p.timestamp, w);
    assert IsWhole(p.timestamp, Intervals(cs), query, scan, w);
    var i :| 0 <= i < |Intervals(cs)| && Meets(scan(Intervals(cs)[i]), p.timestamp, w);
    assert IsDirect(cs[i].data, rows, scan(IntervalOf(cs[i])), w, agg);
    assert IsPoint(p, l, rows, scan(IntervalOf(cs[i])), w, agg);
    FlattenHas(cs, i, l, p);
  }

  lemma {:induction false} RowsInMembers(rows: seq<Row>, l: Labels, i: Interval)
    ensures forall r :: r in RowsIn(rows, l, i) <==> r in rows && r.labels == l && In(i, r.time)
  {
    if rows != [] {
      RowsInMembers(rows[..|rows| - 1], l, i);
      assert forall r :: r in rows <==> r in rows[..|rows| - 1] || r == rows[|rows| - 1];
    }
  }

  lemma SomeRowMeets(rows: seq<Row>, l: Labels, read: Interval, b: int, w: int)
    requires RowsIn(rows, l, InBucket(read, b, w)) != []
    ensures Meets(read, b, w)
  {
    RowsInMembers(rows, l, InBucket(read, b, w));
    assert RowsIn(rows, l, InBucket(read, b, w))[0] in rows;
  }

  // ---- where a bucket is cut, counts go wrong ----

  /** One or two rows without labels. */
  function RowsAt(times: seq<int>): seq<Row> {
    seq(|times|, i requires 0 <= i < |times| => Row(times[i], map[], 0.0))
  }

  /** What the database answers when all rows lie in one bucket and have no labels. */
  function DataOf(rows: seq<Row>, read: Interval, b: int, w: int): seq<SeriesData> {
    var rs := RowsIn(rows, map[], InBucket(read, b, w));
    if rs == [] then [] else [SeriesData(map[], [Point(b, Count(rs))])]
  }

  function ChunksOf(rows: seq<Row>, ranges: seq<Interval>, scan: Scan, b: int, w: int): seq<Chunk> {
    seq(|ranges|, i requires 0 <= i < |ranges| =>
      Chunk(ranges[i].start, ranges[i].end, DataOf(rows, scan(ranges[i]), b, w)))
  }

  ghost predicate AllInBucket(rows: seq<Row>, b: int, w: int) {
    forall r :: r in rows ==> r.labels == map[] && In(HalfOpen(Interval(b, b + w)), r.time)
  }

  lemma DataOfIsDirect(rows: seq<Row>, read: Interval, b: int, w: int)
    requires w > 0 && IsBucket(b, w) && AllInBucket(rows, b, w)
    ensures IsDirect(DataOf(rows, read, b, w), rows, read, w, Count)
  {
    var d := DataOf(rows, read, b, w);
    forall l, p ensures HasPoint(d, l, p) <==> IsPoint(p, l, rows, read, w, Count) {
      RowsInMembers(rows, l, InBucket(read, p.timestamp, w));
      var rs := RowsIn(rows, l, InBucket(read, p.timestamp, w));
      if IsPoint(p, l, rows, read, w, Count) {
        assert rs[0] in rows;
        assert In(HalfOpen(Interval(b, b + w)), rs[0].time) && -w < b - p.timestamp < w;
        BucketsApart(b, p.timestamp, w);
        assert d[0].points[0] == p;
      }
      if HasPoint(d, l, p) {
        assert d == [SeriesData(map[], [Point(b, Count(RowsIn(rows, map[], InBucket(read, b, w))))])];
      }
    }
  }
}
