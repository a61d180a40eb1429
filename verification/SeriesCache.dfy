/** Series put together from cached chunks: GetSeriesFromCachedData in common/query_range.go,
    with SortPoints and RemoveDuplicatePoints of model/v3. */
module SeriesCache {
  import opened SortSlice

  type Labels = map<string, string>

  datatype Point = Point(timestamp: int, value: real)

  /** A series inside a cached chunk. */
  datatype SeriesData = SeriesData(labels: Labels, points: seq<Point>)

  datatype Chunk = Chunk(start: int, end: int, data: seq<SeriesData>)

  predicate Sorted(ps: seq<Point>) {
    forall i, j :: 0 <= i < j < |ps| ==> ps[i].timestamp <= ps[j].timestamp
  }

  predicate StrictlySorted(ps: seq<Point>) {
    forall i, j :: 0 <= i < j < |ps| ==> ps[i].timestamp < ps[j].timestamp
  }

  /** One point per run of equal timestamps: the last one. */
  function KeepLast(ps: seq<Point>): seq<Point> {
    if |ps| <= 1 then ps
    else if ps[0].timestamp == ps[1].timestamp then KeepLast(ps[1..])
    else [ps[0]] + KeepLast(ps[1..])
  }

  function Reverse(ps: seq<Point>): (r: seq<Point>)
    ensures |r| == |ps| && forall i :: 0 <= i < |ps| ==> r[i] == ps[|ps| - 1 - i]
  {
    if ps == [] then [] else Reverse(ps[1..]) + [ps[0]]
  }

  ghost predicate HasTime(ps: seq<Point>, t: int) {
    exists i :: 0 <= i < |ps| && ps[i].timestamp == t
  }

  ghost predicate SameTimes(a: seq<Point>, b: seq<Point>) {
    forall t :: HasTime(a, t) <==> HasTime(b, t)
  }

  /** On sorted points: strictly increasing times, the same times as before, and no point that was not there. */
  lemma {:induction false} KeepLastOfSorted(ps: seq<Point>)
    requires Sorted(ps)
    ensures StrictlySorted(KeepLast(ps)) && SameTimes(ps, KeepLast(ps))
    ensures forall p :: p in KeepLast(ps) ==> p in ps
  {
    if |ps| > 1 {
      var tail := ps[1..];
      var rest := KeepLast(tail);
      KeepLastOfSorted(tail);
      KeepLastStarts(tail);
      TimesOneMore(ps[0], tail);
      TimesOneMore(ps[0], rest);
      assert ps == [ps[0]] + tail;
      if ps[0].timestamp < ps[1].timestamp {
        assert StrictlySorted([ps[0]] + rest);
      } else {
        assert HasTime(tail, ps[0].timestamp) by {
          assert tail[0].timestamp == ps[0].timestamp;
        }
      }
    }
  }

  /** It is the last point of every run of equal times that is kept. */
  lemma {:induction false} KeepLastKeepsLast(ps: seq<Point>, p: Point)
    ensures p in KeepLast(ps) <==>
      exists i :: 0 <= i < |ps| && ps[i] == p && (i == |ps| - 1 || ps[i + 1].timestamp != p.timestamp)
  {
    if |ps| > 1 {
      var tail := ps[1..];
      KeepLastKeepsLast(tail, p);
      if p in KeepLast(tail) {
        var i :| 0 <= i < |tail| && tail[i] == p && (i == |tail| - 1 || tail[i + 1].timestamp != p.timestamp);
        assert ps[i + 1] == p && (i + 1 == |ps| - 1 || ps[i + 2].timestamp != p.timestamp);
      }
      if i :| 0 < i < |ps| && ps[i] == p && (i == |ps| - 1 || ps[i + 1].timestamp != p.timestamp) {
        assert tail[i - 1] == p && (i - 1 == |tail| - 1 || tail[i].timestamp != p.timestamp);
      }
    }
  }

  lemma TimesOneMore(p: Point, ps: seq<Point>)
    ensures forall t :: HasTime([p] + ps, t) <==> t == p.timestamp || HasTime(ps, t)
  {
    var all := [p] + ps;
    assert all[0] == p && forall i :: 0 <= i < |ps| ==> all[i + 1] == ps[i];
    forall t ensures HasTime(all, t) <==> t == p.timestamp || HasTime(ps, t) {
      if HasTime(all, t) {
        var i :| 0 <= i < |all| && all[i].timestamp == t;
        assert i > 0 ==> ps[i - 1].timestamp == t;
      }
    }
  }

  class Series {
    const labels: Labels
    var points: seq<Point>

    constructor (labels: Labels)
      ensures this.labels == labels && points == []
    {
      this.labels, points := labels, [];
    }

    /** sort.Slice by timestamp; nothing is promised about the order of equal timestamps. */
    method SortPoints()
      modifies this
      ensures Sorted(points) && multiset(points) == multiset(old(points))
    {
      points := Slice(points, (p: Point) => p.timestamp);
    }

    /** Keep one point per timestamp: collected from the back, then turned round. */
    method RemoveDuplicatePoints()
      modifies this
      ensures points == KeepLast(old(points))
    {
      if |points| == 0 {
        return;
      }
      var newPoints := CollectFromBack(points);
      newPoints := ReverseInPlace(newPoints);
      points := newPoints;
    }
  }

  /** The loop that goes from the last point to the first and keeps the first it sees of each time. */
  method CollectFromBack(points: seq<Point>) returns (newPoints: seq<Point>)
    ensures newPoints == Reverse(KeepLast(points))
  {
    newPoints := [];
    var i := |points| - 1;
    while i >= 0
      invariant -1 <= i < |points|
      invariant newPoints == Reverse(KeepLast(points[i + 1..]))
      invariant i < |points| - 1 ==> newPoints != [] && newPoints[|newPoints| - 1].timestamp == points[i + 1].timestamp
    {
      KeepLastStep(points, i);
      if |newPoints| == 0 {
        newPoints := newPoints + [points[i]];
      } else if newPoints[|newPoints| - 1].timestamp != points[i].timestamp {
        newPoints := newPoints + [points[i]];
      }
      i := i - 1;
    }
    assert points[0..] == points;
  }

  /** The swapping loop, from the middle outwards. */
  method ReverseInPlace(ps: seq<Point>) returns (r: seq<Point>)
    ensures |r| == |ps| && forall k :: 0 <= k < |ps| ==> r[k] == ps[|ps| - 1 - k]
  {
    r := ps;
    var n := |ps|;
    var i := n / 2 - 1;
    while i >= 0
      invariant -1 <= i <= n / 2 - 1 && |r| == n
      invariant forall k :: 0 <= k <= i || n - 1 - i <= k < n ==> r[k] == ps[k]
      invariant forall k :: i < k < n - 1 - i ==> r[k] == ps[n - 1 - k]
    {
      var opp := n - 1 - i;
      r := r[i := r[opp]][opp := r[i]];
      i := i - 1;
    }
  }

  lemma KeepLastStep(ps: seq<Point>, i: nat)
    requires i < |ps|
    ensures var rest := KeepLast(ps[i + 1..]);
      KeepLast(ps[i..]) ==
        if i == |ps| - 1 then [ps[i]]
        else if ps[i].timestamp == ps[i + 1].timestamp then rest
        else [ps[i]] + rest
    ensures KeepLast(ps[i..]) != [] && KeepLast(ps[i..])[0].timestamp == ps[i].timestamp
  {
    assert ps[i..][1..] == ps[i + 1..];
    KeepLastStarts(ps[i..]);
    if i < |ps| - 1 {
      KeepLastStarts(ps[i + 1..]);
    }
  }

  lemma {:induction false} KeepLastStarts(ps: seq<Point>)
    requires ps != []
    ensures KeepLast(ps) != [] && KeepLast(ps)[0].timestamp == ps[0].timestamp
  {
    if |ps| > 1 {
      KeepLastStarts(ps[1..]);
    }
  }

  // ---- GetSeriesFromCachedData; label sets stand for their hashes, taken to be injective ----

  function Flatten(chunks: seq<Chunk>): seq<SeriesData> {
    if chunks == [] then [] else Flatten(chunks[..|chunks| - 1]) + chunks[|chunks| - 1].data
  }

  ghost predicate HasLabels(seen: seq<SeriesData>, l: Labels) {
    exists i :: 0 <= i < |seen| && seen[i].labels == l
  }

  ghost predicate HasPoint(seen: seq<SeriesData>, l: Labels, p: Point) {
    exists i :: 0 <= i < |seen| && seen[i].labels == l && p in seen[i].points
  }

  function InRange(ps: seq<Point>, start: int, end: int): seq<Point> {
    if ps == [] then []
    else
      var init, p := InRange(ps[..|ps| - 1], start, end), ps[|ps| - 1];
      if start <= p.timestamp <= end then init + [p] else init
  }

  lemma {:induction false} InRangeMembers(ps: seq<Point>, start: int, end: int)
    ensures forall p :: p in InRange(ps, start, end) <==> p in ps && start <= p.timestamp <= end
  {
    if ps != [] {
      InRangeMembers(ps[..|ps| - 1], start, end);
      assert forall p :: p in ps <==> p in ps[..|ps| - 1] || p == ps[|ps| - 1];
    }
  }

  /** The points collected so far, per label set. */
  ghost predicate Collected(series: map<Labels, Series>, repr: set<Series>, seen: seq<SeriesData>, start: int, end: int)
    reads repr
  {
    && (forall l :: l in series <==> HasLabels(seen, l))
    && (forall l :: l in series ==> series[l] in repr && series[l].labels == l)
    && (forall l, p :: l in series && series[l] in repr ==>
          (p in series[l].points <==> HasPoint(seen, l, p) && start <= p.timestamp <= end))
  }

  /** The two outer loops, over the chunks and their series. */
  method CollectSeries(data: seq<Chunk>, start: int, end: int)
    returns (series: map<Labels, Series>, ghost repr: set<Series>)
    ensures fresh(repr) && Collected(series, repr, Flatten(data), start, end)
  {
    series, repr := map[], {};
    ghost var seen := [];
    for i := 0 to |data|
      invariant seen == Flatten(data[..i])
      invariant fresh(repr) && Collected(series, repr, seen, start, end)
    {
      var chunk := data[i];
      assert data[..i + 1][..i] == data[..i];
      ghost var before := seen;
      for j := 0 to |chunk.data|
        invariant seen == before + chunk.data[..j]
        invariant fresh(repr) && Collected(series, repr, seen, start, end)
      {
        series, repr := CollectOne(series, repr, seen, chunk.data[j], start, end);
        assert chunk.data[..j + 1] == chunk.data[..j] + [chunk.data[j]];
        seen := seen + [chunk.data[j]];
      }
      assert chunk.data[..|chunk.data|] == chunk.data;
    }
    assert data[..|data|] == data;
  }

  /** The body of the two loops: find or make the series of these labels, and append the points in range. */
  method CollectOne(series: map<Labels, Series>, ghost repr: set<Series>, ghost seen: seq<SeriesData>,
                    d: SeriesData, start: int, end: int)
    returns (series': map<Labels, Series>, ghost repr': set<Series>)
    requires Collected(series, repr, seen, start, end)
    modifies repr
    ensures repr <= repr' && fresh(repr' - repr)
    ensures Collected(series', repr', seen + [d], start, end)
  {
    series', repr' := series, repr;
    if d.labels !in series' {
      var s := new Series(d.labels);
      series' := series'[d.labels := s];
      repr' := repr' + {s};
    }
    AppendInRange(series'[d.labels], d.points, start, end);
    InRangeMembers(d.points, start, end);
    SeenOneMore(seen, d);
  }

  method AppendInRange(s: Series, points: seq<Point>, start: int, end: int)
    modifies s
    ensures s.points == old(s.points) + InRange(points, start, end)
  {
    for i := 0 to |points|
      invariant s.points == old(s.points) + InRange(points[..i], start, end)
    {
      assert points[..i + 1][..i] == points[..i];
      if points[i].timestamp >= start && points[i].timestamp <= end {
        s.points := s.points + [points[i]];
      }
    }
    assert points[..|points|] == points;
  }

  lemma SeenOneMore(seen: seq<SeriesData>, d: SeriesData)
    ensures forall l :: HasLabels(seen + [d], l) <==> HasLabels(seen, l) || d.labels == l
    ensures forall l, p :: HasPoint(seen + [d], l, p) <==> HasPoint(seen, l, p) || (d.labels == l && p in d.points)
    ensures forall l, p :: HasPoint(seen, l, p) ==> HasLabels(seen, l)
  {
    var all := seen + [d];
    assert all[|seen|] == d;
    assert forall i :: 0 <= i < |seen| ==> all[i] == seen[i];
  }

  /** Points that answer one label set: one for every time in range at which some chunk has a point. */
  ghost predicate IsMerged(ps: seq<Point>, l: Labels, chunks: seq<Chunk>, start: int, end: int) {
    && StrictlySorted(ps)
    && (forall p :: p in ps ==> HasPoint(Flatten(chunks), l, p) && start <= p.timestamp <= end)
    && (forall p :: HasPoint(Flatten(chunks), l, p) && start <= p.timestamp <= end ==> HasTime(ps, p.timestamp))
  }

  ghost predicate IsMergedSeries(s: Series, chunks: seq<Chunk>, start: int, end: int)
    reads s
  {
    IsMerged(s.points, s.labels, chunks, start, end)
  }

  /** Before sorting, a series holds exactly the points in range of its labels. */
  ghost predicate IsGathered(s: Series, chunks: seq<Chunk>, start: int, end: int)
    reads s
  {
    forall p :: p in s.points <==> HasPoint(Flatten(chunks), s.labels, p) && start <= p.timestamp <= end
  }

  ghost predicate DistinctLabels(s: seq<Series>) {
    forall i, j :: 0 <= i < j < |s| ==> s[i].labels != s[j].labels
  }

  ghost predicate IsOneOf(l: Labels, s: seq<Series>) {
    exists i :: 0 <= i < |s| && s[i].labels == l
  }

  /** GetSeriesFromCachedData: one series per label set, in any order; per label set the points in range of all
      chunks, one for every time that occurs. */
  method GetSeriesFromCachedData(data: seq<Chunk>, start: int, end: int) returns (newSeries: seq<Series>)
    ensures DistinctLabels(newSeries)
    ensures forall l :: HasLabels(Flatten(data), l) <==> IsOneOf(l, newSeries)
    ensures forall i :: 0 <= i < |newSeries| ==> fresh(newSeries[i]) && IsMergedSeries(newSeries[i], data, start, end)
  {
    hide *;
    var series, repr := CollectSeries(data, start, end);
    AllGathered(series, repr, data, start, end);
    newSeries := [];
    var todo := series.Keys;
    while todo != {}
      invariant todo <= series.Keys
      invariant forall l :: l in todo ==> IsGathered(series[l], data, start, end)
      invariant forall i :: 0 <= i < |newSeries| ==>
        newSeries[i] in repr && newSeries[i].labels !in todo && IsMergedSeries(newSeries[i], data, start, end)
      invariant forall l :: l in series && l !in todo <==> IsOneOf(l, newSeries)
      invariant DistinctLabels(newSeries)
      decreases todo
    {
      var l :| l in todo;
      assert forall i :: 0 <= i < |newSeries| ==> newSeries[i] != series[l];
      SortAndDeduplicate(series[l], data, start, end);
      OneMoreSeries(newSeries, series[l]);
      newSeries := newSeries + [series[l]];
      todo := todo - {l};
    }
  }

  lemma AllGathered(series: map<Labels, Series>, repr: set<Series>, data: seq<Chunk>, start: int, end: int)
    requires Collected(series, repr, Flatten(data), start, end)
    ensures forall l :: l in series ==>
      series[l] in repr && series[l].labels == l && IsGathered(series[l], data, start, end)
    ensures forall l :: HasLabels(Flatten(data), l) <==> l in series
    ensures DistinctLabels([]) && forall l :: !IsOneOf(l, [])
  {
  }

  lemma OneMoreSeries(s: seq<Series>, x: Series)
    requires DistinctLabels(s) && !IsOneOf(x.labels, s)
    ensures forall l :: IsOneOf(l, s + [x]) <==> IsOneOf(l, s) || l == x.labels
    ensures DistinctLabels(s + [x])
  {
    assert (s + [x])[|s|] == x && forall i :: 0 <= i < |s| ==> (s + [x])[i] == s[i];
  }

  method SortAndDeduplicate(s: Series, ghost data: seq<Chunk>, ghost start: int, ghost end: int)
    requires IsGathered(s, data, start, end)
    modifies s
    ensures IsMergedSeries(s, data, start, end)
  {
    ghost var before := s.points;
    s.SortPoints();
    ghost var sorted := s.points;
    assert forall p :: p in sorted <==> p in before by {
      assert forall p :: p in sorted <==> p in multiset(sorted);
    }
    s.RemoveDuplicatePoints();
    KeepLastOfSorted(sorted);
    forall p | HasPoint(Flatten(data), s.labels, p) && start <= p.timestamp <= end
      ensures HasTime(s.points, p.timestamp)
    {
      assert p in sorted && HasTime(sorted, p.timestamp);
    }
  }

  // ---- reassembly: what comes back when one series per label set was cut into chunks ----

  /** A strictly sorted sequence is fixed by its members. */
  lemma {:induction false} SortedIsUnique(a: seq<Point>, b: seq<Point>)
    requires StrictlySorted(a) && StrictlySorted(b)
    requires forall p :: p in a <==> p in b
    ensures a == b
  {
    assert a != [] ==> a[0] in a;
    assert b != [] ==> b[0] in b;
    if a != [] && b != [] {
      var x, y := a[|a| - 1], b[|b| - 1];
      assert x in b && y in a;
      assert x == y;
      var a', b' := a[..|a| - 1], b[..|b| - 1];
      forall p ensures p in a' <==> p in b' {
        InitMembers(a, p);
        InitMembers(b, p);
      }
      SortedIsUnique(a', b');
      assert a == a' + [x] && b == b' + [y];
    }
  }

  lemma InitMembers(ps: seq<Point>, p: Point)
    requires StrictlySorted(ps) && ps != []
    ensures p in ps[..|ps| - 1] <==> p in ps && p != ps[|ps| - 1]
  {
  }

  lemma {:induction false} InRangeSorted(ps: seq<Point>, start: int, end: int)
    requires StrictlySorted(ps)
    ensures StrictlySorted(InRange(ps, start, end))
  {
    if ps != [] {
      var init := ps[..|ps| - 1];
      InRangeSorted(init, start, end);
      InRangeMembers(init, start, end);
      var r := InRange(init, start, end);
      assert forall i :: 0 <= i < |r| ==> r[i] in init;
    }
  }

  /** At every time the points of a series are one point, wherever they were found. */
  ghost predicate SoundFor(seen: seq<SeriesData>, l: Labels, truth: seq<Point>) {
    forall p :: HasPoint(seen, l, p) ==> p in truth
  }

  /** However a strictly sorted series was cut into chunks, overlapping or not and in any order, the answer for its
      labels is the part of it in range, as long as each of the points asked for is in some chunk. */
  lemma Reassembles(ps: seq<Point>, l: Labels, truth: seq<Point>, chunks: seq<Chunk>, start: int, end: int,
                    from: int, to: int)
    requires IsMerged(ps, l, chunks, start, end) && StrictlySorted(truth) && SoundFor(Flatten(chunks), l, truth)
    requires start <= from && to <= end
    requires forall p :: p in truth && from <= p.timestamp <= to ==> HasPoint(Flatten(chunks), l, p)
    ensures InRange(ps, from, to) == InRange(truth, from, to)
  {
    InRangeMembers(ps, from, to);
    InRangeMembers(truth, from, to);
    InRangeSorted(ps, from, to);
    InRangeSorted(truth, from, to);
    forall p ensures p in InRange(ps, from, to) <==> p in InRange(truth, from, to) {
      if p in truth && from <= p.timestamp <= to {
        assert HasTime(ps, p.timestamp);
        var i :| 0 <= i < |ps| && ps[i].timestamp == p.timestamp;
        assert ps[i] in ps;
        SameTimeSamePoint(truth, ps[i], p);
      }
    }
    SortedIsUnique(InRange(ps, from, to), InRange(truth, from, to));
  }

  lemma SameTimeSamePoint(ps: seq<Point>, p: Point, q: Point)
    requires StrictlySorted(ps) && p in ps && q in ps && p.timestamp == q.timestamp
    ensures p == q
  {
  }

  /** The same when all of the query is in the chunks: the answer is the series cut to the range. */
  lemma ReassemblesWhole(ps: seq<Point>, l: Labels, truth: seq<Point>, chunks: seq<Chunk>, start: int, end: int)
    requires IsMerged(ps, l, chunks, start, end) && StrictlySorted(truth) && SoundFor(Flatten(chunks), l, truth)
    requires forall p :: p in truth && start <= p.timestamp <= end ==> HasPoint(Flatten(chunks), l, p)
    ensures ps == InRange(truth, start, end)
  {
    Reassembles(ps, l, truth, chunks, start, end, start, end);
    InRangeMembers(ps, start, end);
    InRangeSorted(ps, start, end);
    SortedIsUnique(ps, InRange(ps, start, end));
  }
}
