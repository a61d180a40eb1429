/** Where a range cuts a bucket some count comes out wrong, and nowhere else. */
module CutCounts {
  import opened Wrappers
  import opened SeriesCache
  import opened MissingRanges
  import opened QueryCache
  import opened CachedQuery
  import opened Buckets
  import opened BucketedQuery

  /** What the cache can hold, of given ranges, after chunks with no other points than these were merged. */
  function StoredOf(cached: seq<Interval>, d: seq<SeriesData>): seq<Chunk> {
    seq(|cached|, i requires 0 <= i < |cached| => Chunk(cached[i].start, cached[i].end, if i == 0 then d else []))
  }

  lemma {:induction false} FlattenStored(cached: seq<Interval>, d: seq<SeriesData>)
    ensures Flatten(StoredOf(cached, d)) == if cached == [] then [] else d
  {
    if cached != [] {
      var init := cached[..|cached| - 1];
      assert StoredOf(cached, d)[..|cached| - 1] == StoredOf(init, d);
      FlattenStored(init, d);
    }
  }

  lemma {:induction false} FlattenBoth(a: seq<Chunk>, b: seq<Chunk>)
    ensures Flatten(a + b) == Flatten(a) + Flatten(b)
  {
    hide Flatten;
    if b == [] {
      FlattenNothing();
      assert a + b == a;
    } else {
      var init, last := b[..|b| - 1], b[|b| - 1];
      FlattenBoth(a, init);
      SnocPoints(init, last);
      SnocPoints(a + init, last);
      assert b == init + [last] && a + b == a + init + [last];
    }
  }

  lemma FlattenNothing()
    ensures Flatten([]) == []
  {
  }

  /** One series of one point, or none. */
  ghost function Only(p: Option<Point>): seq<SeriesData> {
    if p.None? then [] else [SeriesData(map[], [p.value])]
  }

  /** Which point survives when chunks with points at one time were merged: one of the answer, if they have it. */
  ghost function Survivor(parts: seq<SeriesData>, ps: seq<Point>): Option<Point> {
    if exists p :: HasPoint(parts, map[], p) && p in ps then
      var p :| HasPoint(parts, map[], p) && p in ps;
      Some(p)
    else if exists p :: HasPoint(parts, map[], p) then
      var p :| HasPoint(parts, map[], p);
      Some(p)
    else None
  }

  ghost predicate OnlyAt(d: seq<SeriesData>, b: int) {
    forall l, p :: HasPoint(d, l, p) ==> l == map[] && p.timestamp == b
  }

  lemma SurvivorIsKept(parts: seq<SeriesData>, ps: seq<Point>, b: int)
    requires OnlyAt(parts, b)
    ensures KeepsTimes(Only(Survivor(parts, ps)), parts) && OnePerLabels(Only(Survivor(parts, ps)))
    ensures |ps| <= 1 ==>
      forall p :: p in ps && HasPoint(parts, map[], p) ==> HasPoint(Only(Survivor(parts, ps)), map[], p)
  {
    var p, d := Survivor(parts, ps), Only(Survivor(parts, ps));
    if p.Some? {
      assert d[0].points[0] == p.value && HasPoint(d, map[], p.value);
    }
  }

  /** An answer of at most one point to chunks is one that merging the first of them allows. */
  lemma MergedCanAnswer(ps: seq<Point>, stored: seq<Chunk>, parts: seq<Chunk>, fetched: seq<Chunk>, start: int,
                        end: int)
    requires IsMerged(ps, map[], parts + fetched, start, end) && |ps| <= 1
    requires KeepsTimes(Flatten(stored), Flatten(parts))
    requires forall p :: p in ps && HasPoint(Flatten(parts), map[], p) ==> HasPoint(Flatten(stored), map[], p)
    ensures IsMerged(ps, map[], stored + fetched, start, end)
  {
    hide Flatten, HasPoint;
    FlattenBoth(parts, fetched);
    FlattenBoth(stored, fetched);
    SeenAppended(Flatten(parts), Flatten(fetched));
    SeenAppended(Flatten(stored), Flatten(fetched));
  }

  /** If the chunks give an answer other than the direct one on some rows, the answer is not always direct. */
  lemma Refutes(rows: seq<Row>, ps: seq<Point>, b: int, r: Ranges, query: Interval, scan: Scan, w: int)
    requires w > 0 && IsBucket(b, w) && AllInBucket(rows, b, w) && |ps| <= 1 && CanBeMerged(r)
    requires IsMerged(ps, map[], ChunksOf(rows, r.got + r.asked, scan, b, w), query.start, query.end)
    requires !SameAsDirect(ps, map[], rows, scan(query), w, Count)
    ensures !AlwaysDirect(r, query, scan, w, Count)
  {
    hide *;
    var parts, fetched := ChunksOf(rows, r.got, scan, b, w), ChunksOf(rows, r.asked, scan, b, w);
    ChunksAre(rows, r, scan, b, w);
    PointsAtBucket(rows, r.got, scan, b, w);
    var d := Only(Survivor(Flatten(parts), ps));
    SurvivorIsKept(Flatten(parts), ps, b);
    var stored := StoredOf(r.cached, d);
    StoredIsKept(stored, parts, r, d, ps);
    MergedCanAnswer(ps, stored, parts, fetched, query.start, query.end);
    AnswerRefutes(ps, rows, stored, parts, fetched, r, query, scan, w);
  }

  lemma ChunksAre(rows: seq<Row>, r: Ranges, scan: Scan, b: int, w: int)
    requires w > 0 && IsBucket(b, w) && AllInBucket(rows, b, w)
    ensures var parts, fetched := ChunksOf(rows, r.got, scan, b, w), ChunksOf(rows, r.asked, scan, b, w);
      && ChunksOf(rows, r.got + r.asked, scan, b, w) == parts + fetched
      && Intervals(parts) == r.got && Intervals(fetched) == r.asked
      && AllDirect(parts + fetched, rows, scan, w, Count)
  {
    hide IsDirect, DataOf;
    var ranges, cs := r.got + r.asked, ChunksOf(rows, r.got + r.asked, scan, b, w);
    forall i | 0 <= i < |cs| ensures IsDirect(cs[i].data, rows, scan(IntervalOf(cs[i])), w, Count) {
      DataOfIsDirect(rows, scan(ranges[i]), b, w);
    }
  }

  lemma StoredIsKept(stored: seq<Chunk>, parts: seq<Chunk>, r: Ranges, d: seq<SeriesData>, ps: seq<Point>)
    requires stored == StoredOf(r.cached, d) && Intervals(parts) == r.got && CanBeMerged(r)
    requires KeepsTimes(d, Flatten(parts)) && OnePerLabels(d)
    requires forall p :: p in ps && HasPoint(Flatten(parts), map[], p) ==> HasPoint(d, map[], p)
    ensures Intervals(stored) == r.cached && KeepsPoints(stored, parts) && KeepsTimes(Flatten(stored), Flatten(parts))
    ensures forall p :: p in ps && HasPoint(Flatten(parts), map[], p) ==> HasPoint(Flatten(stored), map[], p)
  {
    FlattenStored(r.cached, d);
    if r.cached == [] {
      assert parts == [] && Flatten(parts) == [];
    }
  }

  lemma AnswerRefutes(ps: seq<Point>, rows: seq<Row>, stored: seq<Chunk>, parts: seq<Chunk>, fetched: seq<Chunk>,
                      r: Ranges, query: Interval, scan: Scan, w: int)
    requires w > 0 && Intervals(stored) == r.cached && Intervals(parts) == r.got && Intervals(fetched) == r.asked
    requires KeepsPoints(stored, parts) && AllDirect(parts + fetched, rows, scan, w, Count)
    requires IsMerged(ps, map[], stored + fetched, query.start, query.end)
    requires !SameAsDirect(ps, map[], rows, scan(query), w, Count)
    ensures !AlwaysDirect(r, query, scan, w, Count)
  {
    hide KeepsPoints, AllDirect, IsMerged, SameAsDirect;
    assert IsAnswer(ps, map[], rows, stored, parts, fetched, query, scan, w, Count);
  }

  /** The points of such chunks lie at the start of the bucket. */
  lemma PointsAtBucket(rows: seq<Row>, ranges: seq<Interval>, scan: Scan, b: int, w: int)
    ensures OnlyAt(Flatten(ChunksOf(rows, ranges, scan, b, w)), b)
  {
    hide Flatten;
    var cs := ChunksOf(rows, ranges, scan, b, w);
    forall l, p | HasPoint(Flatten(cs), l, p) ensures l == map[] && p.timestamp == b {
      var i := FoundIn(cs, l, p);
    }
  }

  lemma NothingMerged(rows: seq<Row>, ranges: seq<Interval>, scan: Scan, b: int, w: int, start: int, end: int)
    requires !(start <= b <= end) || !MetBySome(ranges, scan, b, w)
    ensures IsMerged([], map[], ChunksOf(rows, ranges, scan, b, w), start, end)
  {
    hide Flatten, HasPoint, Meets, InBucket, RowsIn;
    var cs := ChunksOf(rows, ranges, scan, b, w);
    PointsAtBucket(rows, ranges, scan, b, w);
    forall p | HasPoint(Flatten(cs), map[], p) ensures !(start <= p.timestamp <= end) {
      var i := FoundIn(cs, map[], p);
      NotEmpty(cs[i].data, map[], p);
      SomeRowMeets(rows, map[], scan(ranges[i]), b, w);
    }
  }

  lemma NotEmpty(d: seq<SeriesData>, l: Labels, p: Point)
    requires HasPoint(d, l, p)
    ensures d != []
  {
  }

  lemma OneMerged(rows: seq<Row>, ranges: seq<Interval>, scan: Scan, b: int, w: int, start: int, end: int, i: nat)
    requires start <= b <= end && i < |ranges| && RowsIn(rows, map[], InBucket(scan(ranges[i]), b, w)) != []
    ensures var count := Count(RowsIn(rows, map[], InBucket(scan(ranges[i]), b, w)));
      IsMerged([Point(b, count)], map[], ChunksOf(rows, ranges, scan, b, w), start, end)
  {
    hide Flatten, Meets, InBucket, RowsIn;
    var cs := ChunksOf(rows, ranges, scan, b, w);
    var one := Point(b, Count(RowsIn(rows, map[], InBucket(scan(ranges[i]), b, w))));
    assert cs[i].data[0].points[0] == one && HasPoint(cs[i].data, map[], one);
    FlattenHas(cs, i, map[], one);
    PointsAtBucket(rows, ranges, scan, b, w);
    forall p | HasPoint(Flatten(cs), map[], p) ensures HasTime([one], p.timestamp) {
      assert [one][0].timestamp == p.timestamp;
    }
  }

  /** How many rows of one or two are in an interval. */
  lemma RowsOfTwo(x: int, y: int, i: Interval)
    ensures |RowsIn(RowsAt([x]), map[], i)| == if In(i, x) then 1 else 0
    ensures |RowsIn(RowsAt([x, y]), map[], i)| == (if In(i, x) then 1 else 0) + (if In(i, y) then 1 else 0)
  {
    var one, two := RowsAt([x]), RowsAt([x, y]);
    assert one[..0] == [] && two[..1] == one;
  }

  /** The query reads some of a bucket that the answer leaves out. */
  lemma BucketLost(b: int, r: Ranges, query: Interval, scan: Scan, w: int)
    requires CanBeMerged(r) && w > 0 && IsBucket(b, w) && Meets(scan(query), b, w)
    requires !(query.start <= b <= query.end) || !MetBySome(r.got + r.asked, scan, b, w)
    ensures !AlwaysDirect(r, query, scan, w, Count)
  {
    hide MetBySome, IsMerged, AlwaysDirect, RowsIn;
    var x := InBucket(scan(query), b, w).start;
    var rows := RowsAt([x]);
    NothingMerged(rows, r.got + r.asked, scan, b, w, query.start, query.end);
    RowsOfTwo(x, x, InBucket(scan(query), b, w));
    assert IsPoint(Point(b, 1.0), map[], rows, scan(query), w, Count);
    Refutes(rows, [], b, r, query, scan, w);
  }

  /** A range reads a row of a bucket that the query does not. */
  lemma RowGained(x: int, i: nat, b: int, r: Ranges, query: Interval, scan: Scan, w: int)
    requires CanBeMerged(r) && w > 0 && IsBucket(b, w) && query.start <= b <= query.end && i < |r.got + r.asked|
    requires In(InBucket(scan((r.got + r.asked)[i]), b, w), x) && !In(InBucket(scan(query), b, w), x)
    ensures !AlwaysDirect(r, query, scan, w, Count)
  {
    hide IsMerged, AlwaysDirect, RowsIn;
    var rows, p := RowsAt([x]), Point(b, 1.0);
    RowsOfTwo(x, x, InBucket(scan((r.got + r.asked)[i]), b, w));
    RowsOfTwo(x, x, InBucket(scan(query), b, w));
    OneMerged(rows, r.got + r.asked, scan, b, w, query.start, query.end, i);
    assert p in [p] && !IsPoint(p, map[], rows, scan(query), w, Count);
    Refutes(rows, [p], b, r, query, scan, w);
  }

  /** The query reads a row of a bucket that a range does not, although it reads another. */
  lemma RowLost(x: int, y: int, i: nat, b: int, r: Ranges, query: Interval, scan: Scan, w: int)
    requires CanBeMerged(r) && w > 0 && IsBucket(b, w) && query.start <= b <= query.end && i < |r.got + r.asked|
    requires In(InBucket(scan(query), b, w), x) && !In(InBucket(scan((r.got + r.asked)[i]), b, w), x)
    requires In(InBucket(scan(query), b, w), y) && In(InBucket(scan((r.got + r.asked)[i]), b, w), y)
    ensures !AlwaysDirect(r, query, scan, w, Count)
  {
    hide IsMerged, AlwaysDirect, RowsIn;
    var rows, p := RowsAt([x, y]), Point(b, 1.0);
    RowsOfTwo(x, y, InBucket(scan((r.got + r.asked)[i]), b, w));
    RowsOfTwo(x, y, InBucket(scan(query), b, w));
    OneMerged(rows, r.got + r.asked, scan, b, w, query.start, query.end, i);
    assert p in [p] && !IsPoint(p, map[], rows, scan(query), w, Count);
    Refutes(rows, [p], b, r, query, scan, w);
  }

  lemma CutIsWrong(b: int, r: Ranges, query: Interval, scan: Scan, w: int)
    requires CanBeMerged(r) && w > 0 && IsBucket(b, w) && !IsWhole(b, r.got + r.asked, query, scan, w)
    ensures !AlwaysDirect(r, query, scan, w, Count)
  {
    hide AlwaysDirect, MetBySome;
    if Meets(scan(query), b, w) && !(query.start <= b <= query.end && MetBySome(r.got + r.asked, scan, b, w)) {
      BucketLost(b, r, query, scan, w);
    } else {
      var i :| 0 <= i < |r.got + r.asked| && Meets(scan((r.got + r.asked)[i]), b, w)
        && InBucket(scan((r.got + r.asked)[i]), b, w) != InBucket(scan(query), b, w);
      var part, whole := InBucket(scan((r.got + r.asked)[i]), b, w), InBucket(scan(query), b, w);
      if !In(whole, part.start) {
        RowGained(part.start, i, b, r, query, scan, w);
      } else if whole.start < part.start {
        RowLost(whole.start, part.start, i, b, r, query, scan, w);
      } else if whole.end < part.end {
        RowGained(whole.end, i, b, r, query, scan, w);
      } else {
        RowLost(part.end, part.start, i, b, r, query, scan, w);
      }
    }
  }

  /** The cache never shows in counts exactly if no range fetched, now or before, cuts a bucket: a condition on these
      ranges, the query and the step, whatever the chunks were merged to. */
  lemma NeverShowsIff(r: Ranges, query: Interval, scan: Scan, w: int)
    requires w > 0 && CanBeMerged(r)
    ensures AlwaysDirect(r, query, scan, w, Count) <==> NoBucketCut(r.got + r.asked, query, scan, w)
  {
    hide IsAnswer, SameAsDirect, IsWhole;
    if NoBucketCut(r.got + r.asked, query, scan, w) {
      forall rows, stored, parts, fetched, l, ps |
        && Intervals(stored) == r.cached && Intervals(parts) == r.got && Intervals(fetched) == r.asked
        && IsAnswer(ps, l, rows, stored, parts, fetched, query, scan, w, Count)
        ensures SameAsDirect(ps, l, rows, scan(query), w, Count)
      {
        assert Intervals(parts + fetched) == r.got + r.asked;
        MergedUncutIsDirect(ps, l, rows, stored, parts, fetched, query, scan, w, Count);
      }
    } else {
      var b :| IsBucket(b, w) && !IsWhole(b, r.got + r.asked, query, scan, w);
      CutIsWrong(b, r, query, scan, w);
    }
  }
}
