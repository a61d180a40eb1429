/** sort.Slice of the standard library by an integer key; equal keys may come out in any order. */
module SortSlice {
  predicate SortedBy<T>(s: seq<T>, key: T -> int) {
    forall i, j :: 0 <= i < j < |s| ==> key(s[i]) <= key(s[j])
  }

  method Slice<T(==)>(s: seq<T>, key: T -> int) returns (r: seq<T>)
    ensures SortedBy(r, key) && multiset(r) == multiset(s)
  {
    r := [];
    for i := 0 to |s|
      invariant SortedBy(r, key) && multiset(r) == multiset(s[..i])
    {
      assert s[..i + 1] == s[..i] + [s[i]];
      r := Insert(r, s[i], key);
    }
    assert s[..|s|] == s;
  }

  method Insert<T(==)>(s: seq<T>, x: T, key: T -> int) returns (r: seq<T>)
    requires SortedBy(s, key)
    ensures SortedBy(r, key) && multiset(r) == multiset(s) + multiset{x}
  {
    var k := |s|;
    hide SortedBy;
    while k > 0 && key(s[k - 1]) > key(x)
      invariant 0 <= k <= |s| && forall i :: k <= i < |s| ==> key(s[i]) > key(x)
    {
      k := k - 1;
    }
    AtMostUpTo(s, k, x, key);
    SortedAround(s[..k], x, s[k..], key);
    assert s == s[..k] + s[k..];
    r := s[..k] + [x] + s[k..];
  }

  ghost predicate AllAtMost<T>(s: seq<T>, bound: int, key: T -> int) {
    forall i :: 0 <= i < |s| ==> key(s[i]) <= bound
  }

  ghost predicate AllAtLeast<T>(s: seq<T>, bound: int, key: T -> int) {
    forall i :: 0 <= i < |s| ==> key(s[i]) >= bound
  }

  lemma AtMostUpTo<T>(s: seq<T>, k: nat, x: T, key: T -> int)
    requires SortedBy(s, key) && k <= |s|
    requires k > 0 ==> key(s[k - 1]) <= key(x)
    requires forall i :: k <= i < |s| ==> key(s[i]) > key(x)
    ensures SortedBy(s[..k], key) && SortedBy(s[k..], key)
    ensures AllAtMost(s[..k], key(x), key) && AllAtLeast(s[k..], key(x), key)
  {
  }

  lemma SortedAround<T>(a: seq<T>, x: T, b: seq<T>, key: T -> int)
    requires SortedBy(a, key) && SortedBy(b, key) && AllAtMost(a, key(x), key) && AllAtLeast(b, key(x), key)
    ensures SortedBy(a + [x] + b, key)
  {
    var r := a + [x] + b;
    forall i, j | 0 <= i < j < |r| ensures key(r[i]) <= key(r[j]) {
      assert i <= |a| ==> key(r[i]) <= key(x);
      assert j >= |a| ==> key(r[j]) >= key(x);
    }
  }

  predicate StrictlySortedBy<T>(s: seq<T>, key: T -> int) {
    forall i, j :: 0 <= i < j < |s| ==> key(s[i]) < key(s[j])
  }

  /** With all keys different there is only one sorted order. */
  lemma {:induction false} SortedOrderIsUnique<T>(a: seq<T>, b: seq<T>, key: T -> int)
    requires SortedBy(a, key) && StrictlySortedBy(b, key) && multiset(a) == multiset(b)
    ensures a == b
  {
    hide SortedBy, StrictlySortedBy;
    assert |a| == |multiset(a)| == |multiset(b)| == |b|;
    if a != [] {
      SameLast(a, b, key);
      WithoutLast(a, b, key);
      SameMultisetWithoutLast(a, b);
      SortedOrderIsUnique(a[..|a| - 1], b[..|b| - 1], key);
      assert a == a[..|a| - 1] + [a[|a| - 1]] && b == b[..|b| - 1] + [b[|b| - 1]];
    }
  }

  lemma WithoutLast<T>(a: seq<T>, b: seq<T>, key: T -> int)
    requires a != [] && b != []
    ensures SortedBy(a, key) ==> SortedBy(a[..|a| - 1], key)
    ensures StrictlySortedBy(b, key) ==> StrictlySortedBy(b[..|b| - 1], key)
  {
  }

  lemma SameMultisetWithoutLast<T>(a: seq<T>, b: seq<T>)
    requires multiset(a) == multiset(b) && a != [] && b != [] && a[|a| - 1] == b[|b| - 1]
    ensures multiset(a[..|a| - 1]) == multiset(b[..|b| - 1])
  {
    var x := a[|a| - 1];
    assert a == a[..|a| - 1] + [x] && b == b[..|b| - 1] + [x];
    assert multiset(a[..|a| - 1]) == multiset(a) - multiset{x};
    assert multiset(b[..|b| - 1]) == multiset(b) - multiset{x};
  }

  lemma SameLast<T>(a: seq<T>, b: seq<T>, key: T -> int)
    requires SortedBy(a, key) && StrictlySortedBy(b, key) && multiset(a) == multiset(b) && a != [] && b != []
    ensures a[|a| - 1] == b[|b| - 1]
  {
    var x, y := a[|a| - 1], b[|b| - 1];
    assert x in multiset(b) && y in multiset(a);
    var i :| 0 <= i < |b| && b[i] == x;
    var j :| 0 <= j < |a| && a[j] == y;
    assert j < |a| - 1 ==> key(y) <= key(x);
    assert i < |b| - 1 ==> key(x) < key(y);
  }
}
