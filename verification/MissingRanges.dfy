/** The part of a query range that no cached interval covers: the loop of FindMissingTimeRanges in
    querycache/query_range_cache.go. */
module MissingRanges {
  import opened Wrappers

  datatype Interval = Interval(start: int, end: int)

  predicate In(i: Interval, t: int) {
    i.start <= t < i.end
  }

  ghost predicate InSome(s: seq<Interval>, t: int) {
    exists i :: 0 <= i < |s| && In(s[i], t)
  }

  lemma InSomeOneMore(s: seq<Interval>, x: Interval)
    ensures forall t :: InSome(s + [x], t) <==> InSome(s, t) || In(x, t)
  {
    assert (s + [x])[|s|] == x && forall i :: 0 <= i < |s| ==> (s + [x])[i] == s[i];
  }

  predicate SortedByStart(s: seq<Interval>) {
    forall i, j :: 0 <= i < j < |s| ==> s[i].start <= s[j].start
  }

  predicate Upright(s: seq<Interval>) {
    forall i :: 0 <= i < |s| ==> s[i].start <= s[i].end
  }

  predicate StartsAfter(s: seq<Interval>, t: int) {
    s != [] ==> t <= s[0].start
  }

  predicate NonEmpty(s: seq<Interval>) {
    forall i :: 0 <= i < |s| ==> s[i].start < s[i].end
  }

  /** None empty, one after the other, without overlap. */
  predicate InOrder(s: seq<Interval>) {
    s == [] || (s[0].start < s[0].end && StartsAfter(s[1..], s[0].end) && InOrder(s[1..]))
  }

  lemma {:induction false} InOrderApart(s: seq<Interval>, i: nat, j: nat)
    requires InOrder(s) && i < j < |s|
    ensures s[i].start < s[i].end <= s[j].start < s[j].end
  {
    if i > 0 {
      InOrderApart(s[1..], i - 1, j - 1);
    } else if j > 1 {
      InOrderApart(s[1..], 0, j - 1);
    }
  }

  /** Cached intervals as merging leaves them, except that the last one may have been cut short. */
  predicate Separated(s: seq<Interval>) {
    forall i :: 0 <= i < |s| - 1 ==> s[i].start <= s[i].end < s[i + 1].start
  }

  /** Intervals as they are cached: none empty, with gaps between them. */
  predicate IsCached(s: seq<Interval>) {
    Separated(s) && NonEmpty(s)
  }

  /** The last interval was cut to an end before its own start, both strictly inside the query. */
  predicate LastIsInverted(s: seq<Interval>, start: int, end: int) {
    s != [] && start < s[|s| - 1].end < s[|s| - 1].start < end
  }

  function GapBefore(cur: int, to: int): seq<Interval> {
    if cur < to then [Interval(cur, to)] else []
  }

  /** What the loop adds from a current time on, for the intervals still to come. */
  function MissingFrom(cached: seq<Interval>, cur: int, start: int, end: int): seq<Interval> {
    if cached != [] && cached[0].end <= start then MissingFrom(cached[1..], cur, start, end)
    else if cached == [] || cached[0].start >= end then GapBefore(cur, end)
    else GapBefore(cur, cached[0].start) + MissingFrom(cached[1..], Max(cur, Min(cached[0].end, end)), start, end)
  }

  method MissingBetween(cached: seq<Interval>, start: int, end: int) returns (missing: seq<Interval>)
    ensures missing == MissingFrom(cached, start, start, end)
  {
    missing := [];
    var currentTime := start;
    var i := 0;
    while i < |cached|
      invariant 0 <= i <= |cached|
      invariant missing + MissingFrom(cached[i..], currentTime, start, end) == MissingFrom(cached, start, start, end)
    {
      var data := cached[i];
      assert cached[i..][1..] == cached[i + 1..];
      if data.end <= start {
        i := i + 1;
        continue;
      }
      if data.start >= end {
        break;
      }
      ghost var before := missing;
      if currentTime < data.start {
        missing := missing + [Interval(currentTime, Min(data.start, end))];
      }
      currentTime := Max(currentTime, Min(data.end, end));
      i := i + 1;
    }
    if currentTime < end {
      missing := missing + [Interval(currentTime, end)];
    }
  }

  /** The missing ranges are exactly the part of the query that no cached interval covers. */
  lemma {:induction false} MissingIsComplement(cached: seq<Interval>, cur: int, start: int, end: int, t: int)
    requires SortedByStart(cached) && start <= cur
    ensures InSome(MissingFrom(cached, cur, start, end), t) <==> cur <= t < end && !InSome(cached, t)
  {
    if cached != [] {
      InSomeHead(cached, t);
    }
    if cached != [] && cached[0].end <= start {
      MissingIsComplement(cached[1..], cur, start, end, t);
    } else if cached == [] || cached[0].start >= end {
      assert InSome([Interval(cur, end)], t) <==> In(Interval(cur, end), t) by {
        InSomeOneMore([], Interval(cur, end));
        assert [] + [Interval(cur, end)] == [Interval(cur, end)];
      }
      if InSome(cached, t) {
        var i :| 0 <= i < |cached| && In(cached[i], t);
      }
    } else {
      var next := Max(cur, Min(cached[0].end, end));
      var rest := MissingFrom(cached[1..], next, start, end);
      MissingIsComplement(cached[1..], next, start, end, t);
      if cur < cached[0].start {
        var gap := Interval(cur, Min(cached[0].start, end));
        assert MissingFrom(cached, cur, start, end) == [gap] + rest;
        InSomeHead([gap] + rest, t);
        assert ([gap] + rest)[1..] == rest;
        if t < cached[0].start && InSome(cached, t) {
          var i :| 0 <= i < |cached| && In(cached[i], t);
        }
      } else {
        assert MissingFrom(cached, cur, start, end) == [] + rest == rest;
      }
    }
  }

  /** No missing range is empty. */
  lemma {:induction false} MissingNonEmpty(cached: seq<Interval>, cur: int, start: int, end: int)
    ensures NonEmpty(MissingFrom(cached, cur, start, end))
  {
    if cached != [] {
      MissingNonEmpty(cached[1..], cur, start, end);
      MissingNonEmpty(cached[1..], Max(cur, Min(cached[0].end, end)), start, end);
    }
  }

  lemma InSomeHead(s: seq<Interval>, t: int)
    requires s != []
    ensures InSome(s, t) <==> In(s[0], t) || InSome(s[1..], t)
  {
    assert forall i :: 1 <= i < |s| ==> s[i] == s[1..][i - 1];
    if InSome(s[1..], t) {
      var i :| 0 <= i < |s[1..]| && In(s[1..][i], t);
      assert In(s[i + 1], t);
    }
  }

  lemma InSomeBoth(a: seq<Interval>, b: seq<Interval>)
    ensures forall t :: InSome(a + b, t) <==> InSome(a, t) || InSome(b, t)
  {
    var all := a + b;
    assert forall i :: 0 <= i < |a| ==> all[i] == a[i];
    assert forall i :: 0 <= i < |b| ==> all[|a| + i] == b[i];
    forall t | InSome(all, t) ensures InSome(a, t) || InSome(b, t) {
      var i :| 0 <= i < |all| && In(all[i], t);
      assert i >= |a| ==> b[i - |a|] == all[i];
    }
  }

  /** Without inverted intervals the missing ranges are in order and do not overlap. */
  lemma {:induction false} MissingInOrder(cached: seq<Interval>, cur: int, start: int, end: int)
    requires Upright(cached)
    ensures InOrder(MissingFrom(cached, cur, start, end)) && StartsAfter(MissingFrom(cached, cur, start, end), cur)
  {
    hide InOrder, StartsAfter, GapBefore;
    GapInOrder(cur, end);
    if cached != [] {
      var c, rest := cached[0], cached[1..];
      var next := Max(cur, Min(c.end, end));
      assert c.start <= c.end && Upright(rest);
      if c.end <= start {
        MissingInOrder(rest, cur, start, end);
      } else if c.start < end {
        MissingInOrder(rest, next, start, end);
        GapPrepended(cur, c.start, MissingFrom(rest, next, start, end));
        StartsLater(MissingFrom(rest, next, start, end), next, cur, c.start);
      }
    }
  }

  lemma GapInOrder(cur: int, to: int)
    ensures InOrder(GapBefore(cur, to)) && StartsAfter(GapBefore(cur, to), cur)
  {
  }

  lemma GapPrepended(cur: int, to: int, s: seq<Interval>)
    ensures InOrder(GapBefore(cur, to) + s) <==> InOrder(s) && (cur < to ==> StartsAfter(s, to))
    ensures StartsAfter(s, cur) ==> StartsAfter(GapBefore(cur, to) + s, cur)
  {
    if cur < to {
      assert (GapBefore(cur, to) + s)[1..] == s;
    } else {
      assert GapBefore(cur, to) + s == s;
    }
  }

  /** On intervals as merging leaves them, the last one possibly cut short by the flux interval, the
      missing ranges overlap exactly when that cut inverts it inside the query. */
  lemma {:induction false} OverlapsIff(cached: seq<Interval>, cur: int, start: int, end: int)
    requires Separated(cached) && start <= cur
    requires cur == start || cached == [] || cur < cached[0].start
    ensures InOrder(MissingFrom(cached, cur, start, end)) <==> !LastIsInverted(cached, start, end)
    ensures StartsAfter(MissingFrom(cached, cur, start, end), cur)
    decreases |cached|
  {
    hide Separated, InOrder, StartsAfter, GapBefore, LastIsInverted;
    GapInOrder(cur, end);
    NoneInverted(start, end);
    if cached != [] {
      FirstOfSeparated(cached);
      var c, rest := cached[0], cached[1..];
      var next := Max(cur, Min(c.end, end));
      LastOf(cached, start, end);
      if c.end <= start {
        OverlapsIff(rest, cur, start, end);
      } else if c.start < end {
        GapPrepended(cur, c.start, MissingFrom(rest, next, start, end));
        if rest == [] {
          CutOverlaps(c, cur, start, end);
        } else {
          OverlapsIff(rest, next, start, end);
          StartsLater(MissingFrom(rest, next, start, end), next, cur, c.start);
        }
      }
    }
  }

  lemma NoneInverted(start: int, end: int)
    ensures !LastIsInverted([], start, end)
  {
  }

  lemma LastOf(cached: seq<Interval>, start: int, end: int)
    requires cached != []
    ensures |cached| > 1 ==> (LastIsInverted(cached, start, end) <==> LastIsInverted(cached[1..], start, end))
    ensures |cached| == 1 ==>
      (LastIsInverted(cached, start, end) <==> start < cached[0].end < cached[0].start < end)
    ensures cached[|cached| - 1].start >= end ==> !LastIsInverted(cached, start, end)
  {
  }

  lemma StartsLater(s: seq<Interval>, t: int, cur: int, to: int)
    requires StartsAfter(s, t) && t >= cur && t >= to
    ensures StartsAfter(s, cur) && StartsAfter(s, to)
  {
  }

  /** The last interval: what is missing after it starts before it exactly if the cut inverted it. */
  lemma CutOverlaps(c: Interval, cur: int, start: int, end: int)
    requires start <= cur && (cur == start || cur < c.start) && c.end > start && c.start < end
    ensures var after := MissingFrom([], Max(cur, Min(c.end, end)), start, end);
      && InOrder(after) && StartsAfter(after, cur)
      && ((cur < c.start ==> StartsAfter(after, c.start)) <==> !(start < c.end < c.start < end))
  {
  }

  lemma {:induction false} FirstOfSeparated(s: seq<Interval>)
    requires Separated(s) && s != []
    ensures s[0].start <= s[|s| - 1].start && Separated(s[1..])
    ensures |s| > 1 ==> s[0].start <= s[0].end < s[1].start
  {
    assert forall i :: 0 <= i < |s| - 1 ==> s[1..][i] == s[i + 1];
    if |s| > 1 {
      FirstOfSeparated(s[1..]);
    }
  }

  // ---- the flux interval ----

  /** Only the interval that starts last is cut at the horizon. */
  function CutLast(cached: seq<Interval>, horizon: int): seq<Interval> {
    if cached == [] then []
    else
      var last := cached[|cached| - 1];
      cached[|cached| - 1 := Interval(last.start, Min(last.end, horizon))]
  }

  lemma CutLastCovers(cached: seq<Interval>, horizon: int, t: int)
    ensures InSome(CutLast(cached, horizon), t) ==> InSome(cached, t)
    ensures InSome(cached, t) && t < horizon ==> InSome(CutLast(cached, horizon), t)
    ensures SortedByStart(cached) ==> SortedByStart(CutLast(cached, horizon))
    ensures Separated(cached) ==> Separated(CutLast(cached, horizon))
  {
    var cut := CutLast(cached, horizon);
    if InSome(cut, t) {
      var i :| 0 <= i < |cut| && In(cut[i], t);
      assert In(cached[i], t);
    }
    if InSome(cached, t) && t < horizon {
      var i :| 0 <= i < |cached| && In(cached[i], t);
      assert In(cut[i], t);
    }
  }

  /** The missing ranges that FindMissingTimeRanges returns overlap exactly when the horizon lies inside the query and
      before the start of the last cached interval, which itself starts inside the query. */
  lemma GapsOverlapIff(cached: seq<Interval>, horizon: int, start: int, end: int)
    requires IsCached(cached)
    ensures InOrder(MissingFrom(CutLast(cached, horizon), start, start, end))
            <==> cached == [] || !(start < horizon < cached[|cached| - 1].start < end)
  {
    CutLastCovers(cached, horizon, start);
    OverlapsIff(CutLast(cached, horizon), start, start, end);
  }

  /** No interval but the last reaches into the part of the query past the horizon. */
  predicate OnlyLastPastHorizon(cached: seq<Interval>, start: int, end: int, horizon: int) {
    forall i :: 0 <= i < |cached| - 1 ==> cached[i].end <= Max(start, horizon) || cached[i].start >= end
  }

  ghost predicate AllMissingFrom(missing: seq<Interval>, from: int, end: int) {
    forall t :: from <= t < end ==> InSome(missing, t)
  }

  /** Cached data past the horizon may still be arriving and is meant to be fetched again. Since only the last interval
      is cut, this holds exactly when no other cached interval reaches past the horizon inside the query. */
  lemma PastHorizonIsFetchedIff(cached: seq<Interval>, start: int, end: int, horizon: int)
    requires IsCached(cached)
    requires start < end
    ensures AllMissingFrom(MissingFrom(CutLast(cached, horizon), start, start, end), Max(start, horizon), end)
            <==> Max(start, horizon) >= end || OnlyLastPastHorizon(cached, start, end, horizon)
  {
    var from, cut := Max(start, horizon), CutLast(cached, horizon);
    CutLastCovers(cached, horizon, start);
    SeparatedIsSorted(cut);
    if from < end && !OnlyLastPastHorizon(cached, start, end, horizon) {
      var i :| 0 <= i < |cached| - 1 && cached[i].end > from && cached[i].start < end;
      var t := Max(from, cached[i].start);
      assert In(cut[i], t);
      MissingIsComplement(cut, start, start, end, t);
      assert from <= t < end;
    }
    if OnlyLastPastHorizon(cached, start, end, horizon) {
      forall t | from <= t < end ensures InSome(MissingFrom(cut, start, start, end), t) {
        MissingIsComplement(cut, start, start, end, t);
      }
    }
  }

  lemma {:induction false} SeparatedIsSorted(s: seq<Interval>)
    requires Separated(s)
    ensures SortedByStart(s)
  {
    forall i, j | 0 <= i < j < |s| ensures s[i].start <= s[j].start {
      SeparatedStarts(s, i, j);
    }
  }

  lemma {:induction false} SeparatedStarts(s: seq<Interval>, i: nat, j: nat)
    requires Separated(s) && i < j < |s|
    ensures s[i].start < s[j].start
    decreases j - i
  {
    assert s[j - 1].start <= s[j - 1].end < s[j].start;
    if i < j - 1 {
      SeparatedStarts(s, i, j - 1);
    }
  }

  /** One chunk of three minutes and a flux interval of five: the two ranges found missing in the last hour overlap. */
  lemma GapsOverlapExample(now: int)
    ensures var cached, hourAgo := [Interval(now - 180_000, now)], now - 3_600_000;
      && IsCached(cached)
      && MissingFrom(CutLast(cached, now - 300_000), hourAgo, hourAgo, now)
         == [Interval(hourAgo, now - 180_000), Interval(now - 300_000, now)]
      && !InOrder(MissingFrom(CutLast(cached, now - 300_000), hourAgo, hourAgo, now))
  {
    var cached, hourAgo := [Interval(now - 180_000, now)], now - 3_600_000;
    var cut := CutLast(cached, now - 300_000);
    assert cut == [Interval(now - 180_000, now - 300_000)];
    assert MissingFrom(cut[1..], now - 300_000, hourAgo, now) == [Interval(now - 300_000, now)];
    GapsOverlapIff(cached, now - 300_000, hourAgo, now);
  }

  /** Two chunks inside a flux interval of five minutes: four and a half minutes ago is not fetched again. */
  lemma NotFetchedAgainExample(now: int)
    ensures var hourAgo := now - 3_600_000;
      var cached := [Interval(now - 280_000, now - 240_000), Interval(now - 120_000, now)];
      && IsCached(cached)
      && !AllMissingFrom(MissingFrom(CutLast(cached, now - 300_000), hourAgo, hourAgo, now), now - 300_000, now)
  {
    var hourAgo := now - 3_600_000;
    var cached := [Interval(now - 280_000, now - 240_000), Interval(now - 120_000, now)];
    assert cached[0].end > Max(hourAgo, now - 300_000) && cached[0].start < now;
    assert !OnlyLastPastHorizon(cached, hourAgo, now, now - 300_000);
    PastHorizonIsFetchedIff(cached, hourAgo, now, now - 300_000);
  }

  /** What was cached is never asked for again once it is before the horizon, whether or not it was so when it was
      fetched. */
  lemma SettledIsNotFetchedAgain(cached: seq<Interval>, horizon: int, start: int, end: int, t: int)
    requires SortedByStart(cached) && InSome(cached, t) && t < horizon
    ensures !InSome(MissingFrom(CutLast(cached, horizon), start, start, end), t)
  {
    CutLastCovers(cached, horizon, t);
    MissingIsComplement(CutLast(cached, horizon), start, start, end, t);
  }
}
