/** GCD, LCM and LCMList of common/query_range.go, on unbounded integers. */
module LcmList {
  import opened Wrappers
  import opened TimeRange

  ghost predicate Divides(d: int, a: int) {
    exists k: int :: a == d * k
  }

  lemma DividesBy(d: int, a: int, k: int)
    requires a == d * k
    ensures Divides(d, a)
  {
  }

  lemma DividesSum(d: int, a: int, b: int, x: int, y: int)
    requires Divides(d, a) && Divides(d, b)
    ensures Divides(d, a * x + b * y)
  {
    var i: int :| a == d * i;
    var j: int :| b == d * j;
    assert a * x == d * (i * x) && b * y == d * (j * y);
    DividesBy(d, a * x + b * y, i * x + j * y);
  }

  lemma DividesTransitive(a: int, b: int, c: int)
    requires Divides(a, b) && Divides(b, c)
    ensures Divides(a, c)
  {
    var i: int :| b == a * i;
    var j: int :| c == b * j;
    assert c == a * (i * j);
  }

  /** g is the greatest common divisor of a and b, up to its sign. */
  ghost predicate IsGcd(g: int, a: int, b: int) {
    && Divides(g, a) && Divides(g, b)
    && forall d :: Divides(d, a) && Divides(d, b) ==> Divides(d, g)
  }

  /** GCD. The ghost results write the divisor as a combination of a and b. */
  method GCD(a0: int, b0: int) returns (a: int, ghost s: int, ghost t: int)
    ensures IsGcd(a, a0, b0) && a == a0 * s + b0 * t
    ensures a == 0 ==> a0 == 0 && b0 == 0
    ensures a0 >= 0 && b0 >= 0 ==> a >= 0
  {
    var b := b0;
    ghost var u, v := 0, 1;
    a, s, t := a0, 1, 0;
    while b != 0
      invariant a == a0 * s + b0 * t && b == a0 * u + b0 * v
      invariant forall d :: Divides(d, a) && Divides(d, b) ==> Divides(d, a0) && Divides(d, b0)
      invariant a0 >= 0 && b0 >= 0 ==> a >= 0 && b >= 0
      decreases Abs(b)
    {
      ghost var q := GoDiv(a, b);
      GoDivMod(a, b);
      RemainderKeepsDivisors(a, b, q, GoMod(a, b));
      CombineRemainder(a0, b0, a, b, s, t, u, v, q);
      s, t, u, v := u, v, s - q * u, t - q * v;
      a, b := b, GoMod(a, b);
    }
    assert a == a * 1 && 0 == a * 0;
    DividesBy(a, a, 1);
    DividesBy(a, b, 0);
    forall d | Divides(d, a0) && Divides(d, b0) ensures Divides(d, a) {
      DividesSum(d, a0, b0, s, t);
    }
    if a == 0 {
      var i: int :| a0 == a * i;
      var j: int :| b0 == a * j;
    }
  }

  lemma RemainderKeepsDivisors(a: int, b: int, q: int, r: int)
    requires a == b * q + r
    ensures forall d :: Divides(d, b) && Divides(d, r) ==> Divides(d, a)
  {
    forall d | Divides(d, b) && Divides(d, r) ensures Divides(d, a) {
      DividesSum(d, b, r, q, 1);
    }
  }

  lemma CombineRemainder(a0: int, b0: int, a: int, b: int, s: int, t: int, u: int, v: int, q: int)
    requires a == a0 * s + b0 * t && b == a0 * u + b0 * v
    ensures a - b * q == a0 * (s - q * u) + b0 * (t - q * v)
  {
    assert b * q == a0 * (q * u) + b0 * (q * v);
  }

  /** l is the least common multiple of a and b, up to its sign. */
  ghost predicate IsLcm(l: int, a: int, b: int) {
    && Divides(a, l) && Divides(b, l)
    && forall m :: Divides(a, m) && Divides(b, m) ==> Divides(l, m)
  }

  /** LCM; None is the panic of a division by zero. */
  method LCM(a: int, b: int) returns (l: Option<int>)
    ensures l.None? <==> a == 0 && b == 0
    ensures l.Some? ==> IsLcm(l.value, a, b) && (l.value == 0 <==> a == 0 || b == 0)
    ensures a > 0 && b > 0 ==> l.Some? && l.value > 0
  {
    var g, s, t := GCD(a, b);
    if g == 0 {
      return None;
    }
    ghost var i: int :| a == g * i;
    ghost var j: int :| b == g * j;
    LcmOf(a, b, g, s, t, i, j);
    l := Some(GoDiv(a * b, g));
  }

  lemma ExactDivision(x: int, g: int, k: int)
    requires g != 0 && x == g * k
    ensures GoDiv(x, g) == k
  {
    GoDivMod(x, g);
    var q, r := GoDiv(x, g), GoMod(x, g);
    assert g * (k - q) == r;
    AbsProduct(g, k - q);
  }

  lemma AbsProduct(g: int, d: int)
    ensures d != 0 ==> Abs(g * d) >= Abs(g)
  {
    if g > 0 {
      ProductSign(g, d);
    } else if g < 0 {
      ProductSign(-g, d);
      assert (-g) * d == -(g * d);
    }
  }

  lemma LcmOf(a: int, b: int, g: int, s: int, t: int, i: int, j: int)
    requires g != 0 && g == a * s + b * t && a == g * i && b == g * j
    ensures IsLcm(GoDiv(a * b, g), a, b)
    ensures GoDiv(a * b, g) == 0 <==> a == 0 || b == 0
    ensures a > 0 && b > 0 && g >= 0 ==> GoDiv(a * b, g) > 0
  {
    var l := a * j;
    assert a * b == g * l;
    ExactDivision(a * b, g, l);
    assert l == b * i;
    DividesBy(a, l, j);
    DividesBy(b, l, i);
    forall m | Divides(a, m) && Divides(b, m) ensures Divides(l, m) {
      var x: int :| m == a * x;
      var y: int :| m == b * y;
      CommonMultiple(a, b, g, s, t, j, l, m, x, y);
    }
  }

  lemma CommonMultiple(a: int, b: int, g: int, s: int, t: int, j: int, l: int, m: int, x: int, y: int)
    requires g != 0 && g == a * s + b * t && a * b == g * l && m == a * x && m == b * y
    ensures Divides(l, m)
  {
    var k := s * y + t * x;
    calc {
      g * m;
      (a * s + b * t) * m;
      (a * s) * (b * y) + (b * t) * (a * x);
      (a * b) * (s * y) + (a * b) * (t * x);
      (a * b) * k;
      (g * l) * k;
      g * (l * k);
    }
    Cancel(g, m, l * k);
    DividesBy(l, m, k);
  }

  lemma Cancel(g: int, x: int, y: int)
    requires g != 0 && g * x == g * y
    ensures x == y
  {
    assert g * (x - y) == 0;
  }

  /** l is divisible by every element and divides every common multiple. */
  ghost predicate IsLcmOf(l: int, nums: seq<int>) {
    && (forall i :: 0 <= i < |nums| ==> Divides(nums[i], l))
    && forall m :: IsCommonMultiple(m, nums) ==> Divides(l, m)
  }

  ghost predicate IsCommonMultiple(m: int, nums: seq<int>) {
    forall i :: 0 <= i < |nums| ==> Divides(nums[i], m)
  }

  predicate TwoZeros(nums: seq<int>) {
    exists i, j :: 0 <= i < j < |nums| && nums[i] == 0 && nums[j] == 0
  }

  /** LCMList: the least common multiple of any list, except that two zeros make it panic. */
  method LCMList(nums: seq<int>) returns (result: Option<int>)
    ensures result.None? <==> TwoZeros(nums)
    ensures result.Some? ==> IsLcmOf(result.value, nums)
    ensures (forall i :: 0 <= i < |nums| ==> nums[i] > 0) ==> result.Some? && result.value > 0
  {
    if nums == [] {
      forall m ensures Divides(1, m) {
        DividesBy(1, m, m);
      }
      return Some(1);
    }
    var r := nums[0];
    DividesBy(r, r, 1);
    for n := 1 to |nums|
      invariant IsLcmOf(r, nums[..n]) && (r == 0 <==> 0 in nums[..n]) && !TwoZeros(nums[..n])
      invariant (forall i :: 0 <= i < |nums| ==> nums[i] > 0) ==> r > 0
    {
      var next := LCM(r, nums[n]);
      if next.None? {
        var i :| 0 <= i < n && nums[i] == 0;
        return None;
      }
      LcmOneMore(nums, n, r, next.value);
      r := next.value;
    }
    assert nums[..|nums|] == nums;
    result := Some(r);
  }

  lemma LcmOneMore(nums: seq<int>, n: nat, r: int, l: int)
    requires n < |nums| && IsLcmOf(r, nums[..n]) && IsLcm(l, r, nums[n])
    requires r != 0 || nums[n] != 0
    requires (r == 0 <==> 0 in nums[..n]) && !TwoZeros(nums[..n])
    ensures IsLcmOf(l, nums[..n + 1]) && !TwoZeros(nums[..n + 1])
  {
    var front, all := nums[..n], nums[..n + 1];
    assert forall i :: 0 <= i < n ==> all[i] == front[i];
    forall i | 0 <= i < n + 1 ensures Divides(all[i], l) {
      if i < n {
        DividesTransitive(front[i], r, l);
      }
    }
    forall m | IsCommonMultiple(m, all) ensures Divides(l, m) {
      assert IsCommonMultiple(m, front);
      assert Divides(all[n], m);
    }
  }

  /** The result does not depend on the order of the list: two positive ones for the same elements are equal. */
  lemma LcmIsUnique(a: seq<int>, b: seq<int>, l: int, l': int)
    requires multiset(a) == multiset(b) && IsLcmOf(l, a) && IsLcmOf(l', b) && l > 0 && l' > 0
    ensures l == l'
  {
    forall i | 0 <= i < |a| ensures Divides(a[i], l') {
      assert a[i] in multiset(b);
      var j :| 0 <= j < |b| && b[j] == a[i];
    }
    forall i | 0 <= i < |b| ensures Divides(b[i], l) {
      assert b[i] in multiset(a);
      var j :| 0 <= j < |a| && a[j] == b[i];
    }
    assert IsCommonMultiple(l', a) && IsCommonMultiple(l, b);
    MutualDivisors(l, l');
  }

  lemma MutualDivisors(a: int, b: int)
    requires a > 0 && b > 0 && Divides(a, b) && Divides(b, a)
    ensures a == b
  {
    DivisorAtMost(a, b);
    DivisorAtMost(b, a);
  }

  lemma DivisorAtMost(a: int, b: int)
    requires a > 0 && b > 0 && Divides(a, b)
    ensures a <= b
  {
    var k: int :| b == a * k;
    ProductSign(a, k);
  }
}
