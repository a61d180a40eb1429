/** The steps that times are grouped by. */
module Buckets {
  import opened TimeRange

  /** b is the start of a bucket of width w. */
  predicate IsBucket(b: int, w: int)
    requires w > 0
  {
    b % w == 0
  }

  lemma BucketsApart(b: int, c: int, w: int)
    requires w > 0 && IsBucket(b, w) && IsBucket(c, w) && -w < b - c < w
    ensures b == c
  {
    MultiplesApart(b / w, c / w, w);
  }

  lemma MultiplesApart(i: int, j: int, w: int)
    requires w > 0 && -w < w * i - w * j < w
    ensures i == j
  {
    if i > j {
      ProductAtLeast(w, i - j);
    } else if i < j {
      ProductAtLeast(w, j - i);
    }
  }

  function Floor(a: int, w: int): int
    requires w > 0
  {
    a - a % w
  }

  lemma FloorIsBucket(a: int, w: int)
    requires w > 0
    ensures IsBucket(Floor(a, w), w) && Floor(a, w) <= a < Floor(a, w) + w
    ensures IsBucket(a, w) <==> Floor(a, w) == a
  {
    var q := a / w;
    assert Floor(a, w) == w * q;
    MultipleMod(q, w);
  }

  lemma BucketsInSteps(b: int, c: int, w: int)
    requires w > 0 && IsBucket(b, w) && IsBucket(c, w)
    ensures b <= c || c + w <= b
  {
    if c < b < c + w {
      BucketsApart(b, c, w);
    }
  }

  lemma ZeroIsBucket(w: int)
    requires w > 0
    ensures IsBucket(0, w)
  {
  }

  lemma RoundIsFloor(a: int, w: int)
    requires w > 0
    ensures IsBucket(RoundTo(a, w), w)
    ensures a >= 0 ==> RoundTo(a, w) == Floor(a, w)
    ensures a < 0 ==> RoundTo(a, w) <= 0
  {
    RoundIsMultiple(a, w);
    FloorIsBucket(a, w);
    if a >= 0 {
      BucketsApart(RoundTo(a, w), Floor(a, w), w);
    }
  }
}
