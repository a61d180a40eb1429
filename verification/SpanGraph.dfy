/** Nodes with lists of child ids, and the order in which a recursion over the lists meets them. */
module SpanGraph {
  type Id = string

  ghost predicate IsClosed(kids: map<Id, seq<Id>>) {
    forall p, c :: p in kids && c in kids[p] ==> c in kids
  }

  /** A chain of m child links leads from a to c. */
  ghost predicate Down(kids: map<Id, seq<Id>>, a: Id, c: Id, m: nat)
    decreases m
  {
    if m == 0 then a == c else a in kids && exists x :: x in kids[a] && Down(kids, x, c, m - 1)
  }

  /** c is below itself. */
  ghost predicate OnLoop(kids: map<Id, seq<Id>>, c: Id) {
    exists m: nat :: m > 0 && Down(kids, c, c, m)
  }

  ghost predicate LoopBelow(kids: map<Id, seq<Id>>, a: Id) {
    exists c, m: nat :: Down(kids, a, c, m) && OnLoop(kids, c)
  }

  /** A recursion from c over the child lists nests at most n calls. */
  ghost predicate EndsWithin(kids: map<Id, seq<Id>>, c: Id, n: nat)
    decreases n, 0
  {
    c in kids && n > 0 && AllEndWithin(kids, kids[c], n - 1)
  }

  ghost predicate Ends(kids: map<Id, seq<Id>>, c: Id) {
    exists n: nat :: EndsWithin(kids, c, n)
  }

  ghost predicate AllEndWithin(kids: map<Id, seq<Id>>, cs: seq<Id>, n: nat)
    decreases n, 1
  {
    forall c :: c in cs ==> EndsWithin(kids, c, n)
  }

  datatype Visit = Visit(id: Id, level: nat)

  /** The preorder walk from c, which is at the given level. */
  ghost function Walk(kids: map<Id, seq<Id>>, c: Id, level: nat, n: nat): seq<Visit>
    requires EndsWithin(kids, c, n)
    decreases n, 0
  {
    [Visit(c, level)] + WalkAll(kids, kids[c], level + 1, n - 1)
  }

  /** The walks from the nodes cs, one after the other. */
  ghost function WalkAll(kids: map<Id, seq<Id>>, cs: seq<Id>, level: nat, n: nat): seq<Visit>
    requires AllEndWithin(kids, cs, n)
    decreases n, |cs|
  {
    if cs == [] then []
    else
      assert forall c :: c in cs[1..] ==> c in cs;
      Walk(kids, cs[0], level, n) + WalkAll(kids, cs[1..], level, n)
  }

  // ---- Chains ----

  lemma {:induction false} DownTransitive(kids: map<Id, seq<Id>>, a: Id, b: Id, c: Id, m: nat, n: nat)
    requires Down(kids, a, b, m) && Down(kids, b, c, n)
    ensures Down(kids, a, c, m + n)
    decreases m
  {
    if m > 0 {
      var x :| x in kids[a] && Down(kids, x, b, m - 1);
      DownTransitive(kids, x, b, c, m - 1, n);
    }
  }

  /** Going round a loop gives chains of any length. */
  lemma {:induction false} LoopNeverEnds(kids: map<Id, seq<Id>>, c: Id, k: nat, times: nat) returns (m: nat)
    requires Down(kids, c, c, k) && k > 0
    ensures m >= times && Down(kids, c, c, m)
  {
    if times == 0 {
      m := 0;
    } else {
      m := LoopNeverEnds(kids, c, k, times - 1);
      DownTransitive(kids, c, c, c, k, m);
      m := k + m;
    }
  }

  /** Where the recursion ends chains are shorter than its nesting. */
  lemma {:induction false} EndsBoundsChains(kids: map<Id, seq<Id>>, a: Id, n: nat, c: Id, m: nat)
    requires EndsWithin(kids, a, n) && Down(kids, a, c, m)
    ensures m < n
    decreases n
  {
    if m > 0 {
      var x :| x in kids[a] && Down(kids, x, c, m - 1);
      EndsBoundsChains(kids, x, n - 1, c, m - 1);
    }
  }

  ghost predicate ProperlyDown(kids: map<Id, seq<Id>>, a: Id, c: Id) {
    exists m: nat :: m > 0 && Down(kids, a, c, m)
  }

  /** Without a loop below c, no node comes twice on the way down: the recursion ends within the nodes not seen yet. */
  lemma {:induction false} EndsWithoutLoop(kids: map<Id, seq<Id>>, c: Id, seen: set<Id>)
    requires IsClosed(kids) && c in kids && !LoopBelow(kids, c)
    requires seen <= kids.Keys && forall s :: s in seen ==> ProperlyDown(kids, s, c)
    ensures |seen| < |kids| && EndsWithin(kids, c, |kids| - |seen|)
    decreases kids.Keys - seen
  {
    assert Down(kids, c, c, 0);
    assert c !in seen by {
      assert c in seen ==> OnLoop(kids, c);
    }
    SubsetSize(seen + {c}, kids.Keys);
    forall x | x in kids[c] ensures EndsWithin(kids, x, |kids| - |seen| - 1) {
      assert Down(kids, x, x, 0) && Down(kids, c, x, 1);
      NoLoopFurtherDown(kids, c, x);
      forall s | s in seen + {c} ensures ProperlyDown(kids, s, x) {
        if s in seen {
          var m: nat :| m > 0 && Down(kids, s, c, m);
          DownTransitive(kids, s, c, x, m, 1);
        }
      }
      EndsWithoutLoop(kids, x, seen + {c});
    }
  }

  lemma NoLoopFurtherDown(kids: map<Id, seq<Id>>, c: Id, x: Id)
    requires Down(kids, c, x, 1) && !LoopBelow(kids, c)
    ensures !LoopBelow(kids, x)
  {
    if LoopBelow(kids, x) {
      var d, m: nat :| Down(kids, x, d, m) && OnLoop(kids, d);
      DownTransitive(kids, c, x, d, 1, m);
    }
  }

  lemma SubsetSize<T>(a: set<T>, b: set<T>)
    requires a <= b
    ensures |a| <= |b|
  {
    assert b == a + (b - a);
  }

  lemma EndsHasNoLoop(kids: map<Id, seq<Id>>, a: Id, n: nat)
    requires EndsWithin(kids, a, n)
    ensures !LoopBelow(kids, a)
  {
    hide Down, EndsWithin;
    if LoopBelow(kids, a) {
      var c, m: nat :| Down(kids, a, c, m) && OnLoop(kids, c);
      var k: nat :| k > 0 && Down(kids, c, c, k);
      var long := LoopNeverEnds(kids, c, k, n);
      DownTransitive(kids, a, c, c, m, long);
      EndsBoundsChains(kids, a, n, c, m + long);
    }
  }

  /** A recursion over the child lists ends exactly when it cannot reach a loop, and then within as many nested calls
      as there are nodes. */
  lemma EndsUnlessLoop(kids: map<Id, seq<Id>>, a: Id)
    requires IsClosed(kids) && a in kids
    ensures Ends(kids, a) <==> !LoopBelow(kids, a)
    ensures Ends(kids, a) <==> EndsWithin(kids, a, |kids|)
  {
    hide Down, EndsWithin, LoopBelow, IsClosed;
    if Ends(kids, a) {
      var n: nat :| EndsWithin(kids, a, n);
      EndsHasNoLoop(kids, a, n);
    }
    if !LoopBelow(kids, a) {
      EndsWithoutLoop(kids, a, {});
    }
  }

  // ---- What a walk visits ----

  ghost predicate VisitBelow(kids: map<Id, seq<Id>>, v: Visit, c: Id, level: nat) {
    level <= v.level && Down(kids, c, v.id, v.level - level)
  }

  ghost predicate VisitBelowAny(kids: map<Id, seq<Id>>, v: Visit, cs: seq<Id>, level: nat) {
    exists c :: c in cs && VisitBelow(kids, v, c, level)
  }

  /** A walk visits exactly the nodes at or below its start, at each of their distances from there. */
  lemma {:induction false} WalkVisits(kids: map<Id, seq<Id>>, c: Id, level: nat, n: nat, v: Visit)
    requires EndsWithin(kids, c, n)
    ensures v in Walk(kids, c, level, n) <==> VisitBelow(kids, v, c, level)
    decreases n, 0
  {
    WalkAllVisits(kids, kids[c], level + 1, n - 1, v);
    BelowByChild(kids, v, c, level);
  }

  lemma BelowByChild(kids: map<Id, seq<Id>>, v: Visit, c: Id, level: nat)
    requires c in kids
    ensures VisitBelow(kids, v, c, level) <==> v == Visit(c, level) || VisitBelowAny(kids, v, kids[c], level + 1)
  {
    if VisitBelow(kids, v, c, level) && v.level > level {
      var x :| x in kids[c] && Down(kids, x, v.id, v.level - level - 1);
      assert VisitBelow(kids, v, x, level + 1);
    }
  }

  lemma {:induction false} WalkAllVisits(kids: map<Id, seq<Id>>, cs: seq<Id>, level: nat, n: nat, v: Visit)
    requires AllEndWithin(kids, cs, n)
    ensures v in WalkAll(kids, cs, level, n) <==> VisitBelowAny(kids, v, cs, level)
    decreases n, |cs|
  {
    if cs != [] {
      assert forall c :: c in cs <==> c == cs[0] || c in cs[1..];
      WalkVisits(kids, cs[0], level, n, v);
      WalkAllVisits(kids, cs[1..], level, n, v);
    }
  }

  // ---- How long a walk is ----

  lemma {:induction false} WalkAllConcat(kids: map<Id, seq<Id>>, a: seq<Id>, b: seq<Id>, level: nat, n: nat)
    requires AllEndWithin(kids, a, n) && AllEndWithin(kids, b, n)
    ensures AllEndWithin(kids, a + b, n)
    ensures WalkAll(kids, a + b, level, n) == WalkAll(kids, a, level, n) + WalkAll(kids, b, level, n)
    decreases |a|
  {
    assert forall x :: x in a + b <==> x in a || x in b;
    if a == [] {
      assert a + b == b;
    } else {
      hide EndsWithin, Walk;
      assert forall x :: x in a[1..] ==> x in a;
      WalkAllConcat(kids, a[1..], b, level, n);
      assert (a + b)[1..] == a[1..] + b;
    }
  }

  lemma WalkAllOne(kids: map<Id, seq<Id>>, c: Id, level: nat, n: nat)
    requires EndsWithin(kids, c, n)
    ensures AllEndWithin(kids, [c], n) && WalkAll(kids, [c], level, n) == Walk(kids, c, level, n)
  {
    assert [c][1..] == [];
  }

  /** Every further start adds at least one visit. */
  lemma {:induction false} MoreStartsMoreVisits(kids: map<Id, seq<Id>>, a: seq<Id>, b: seq<Id>, level: nat, n: nat)
    requires AllEndWithin(kids, a, n) && AllEndWithin(kids, b, n) && multiset(a) <= multiset(b)
    ensures |WalkAll(kids, b, level, n)| - |WalkAll(kids, a, level, n)| >= |b| - |a|
    decreases |a|
  {
    if a == [] {
      AtLeastOneVisitEach(kids, b, level, n);
    } else {
      hide *;
      var x, rest := a[0], a[1..];
      assert a == [x] + rest && a == [] + ([x] + rest);
      var b1, b2 := TakeOut(x, rest, b);
      PartsEnd(kids, b1, x, b2, n);
      PartsEnd(kids, [], x, rest, n);
      MoreStartsMoreVisits(kids, rest, b1 + b2, level, n);
      WalkAllConcat(kids, b1, b2, level, n);
      WalkAllConcat(kids, [x], b2, level, n);
      WalkAllConcat(kids, b1, [x] + b2, level, n);
      WalkAllConcat(kids, [x], rest, level, n);
    }
  }

  lemma TakeOut(x: Id, rest: seq<Id>, b: seq<Id>) returns (b1: seq<Id>, b2: seq<Id>)
    requires multiset([x] + rest) <= multiset(b)
    ensures b == b1 + ([x] + b2) && multiset(rest) <= multiset(b1 + b2)
  {
    assert x in multiset([x] + rest) && x in multiset(b);
    var j :| 0 <= j < |b| && b[j] == x;
    b1, b2 := b[..j], b[j + 1..];
    assert b == b1 + ([x] + b2);
    assert multiset(rest) == multiset([x] + rest) - multiset{x} && multiset(b1 + b2) == multiset(b) - multiset{x};
  }

  lemma PartsEnd(kids: map<Id, seq<Id>>, a: seq<Id>, x: Id, b: seq<Id>, n: nat)
    requires AllEndWithin(kids, a + ([x] + b), n)
    ensures AllEndWithin(kids, a, n) && AllEndWithin(kids, [x], n) && AllEndWithin(kids, b, n)
    ensures AllEndWithin(kids, a + b, n) && AllEndWithin(kids, [x] + b, n)
  {
    assert forall c :: c in a + ([x] + b) <==> c in a || c == x || c in b;
  }

  lemma {:induction false} AtLeastOneVisitEach(kids: map<Id, seq<Id>>, cs: seq<Id>, level: nat, n: nat)
    requires AllEndWithin(kids, cs, n)
    ensures |WalkAll(kids, cs, level, n)| >= |cs|
    decreases |cs|
  {
    if cs != [] {
      assert forall c :: c in cs[1..] ==> c in cs;
      AtLeastOneVisitEach(kids, cs[1..], level, n);
    }
  }
}
