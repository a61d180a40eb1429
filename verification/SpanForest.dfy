/** Child lists that invert parent links: forests, their parentless nodes and the walks from them. */
module SpanForest {
  import opened SpanGraph

  /** x is c, or the m-th parent of x is c. */
  ghost predicate Under(parent: map<Id, Id>, x: Id, c: Id, m: nat)
    decreases m
  {
    if m == 0 then x == c else x in parent && Under(parent, parent[x], c, m - 1)
  }

  /** The parent chain of c ends after n links, at an id without a parent. */
  ghost predicate GroundedAt(parent: map<Id, Id>, c: Id, n: nat)
    decreases n
  {
    if n == 0 then c !in parent else c in parent && GroundedAt(parent, parent[c], n - 1)
  }

  ghost predicate Grounded(parent: map<Id, Id>, c: Id) {
    exists n: nat :: GroundedAt(parent, c, n)
  }

  /** c is its own ancestor. */
  ghost predicate OnCycle(parent: map<Id, Id>, c: Id) {
    exists m: nat :: m > 0 && Under(parent, c, c, m)
  }

  ghost predicate BelowCycle(parent: map<Id, Id>, x: Id) {
    exists c, m: nat :: Under(parent, x, c, m) && OnCycle(parent, c)
  }

  predicate NoDuplicates<T(==)>(s: seq<T>) {
    forall i, j :: 0 <= i < j < |s| ==> s[i] != s[j]
  }

  /** kids lists, for every node, the nodes whose parent it is, each once. */
  ghost predicate IsForest(kids: map<Id, seq<Id>>, parent: map<Id, Id>) {
    && (forall c :: c in parent ==> c in kids && parent[c] in kids)
    && (forall p :: p in kids ==> NoDuplicates(kids[p]))
    && (forall p, c :: p in kids ==> (c in kids[p] <==> c in parent && parent[c] == p))
  }

  lemma {:induction false} DepthIsUnique(parent: map<Id, Id>, c: Id, n: nat, n': nat)
    requires GroundedAt(parent, c, n) && GroundedAt(parent, c, n')
    ensures n == n'
    decreases n
  {
    if n > 0 && n' > 0 {
      DepthIsUnique(parent, parent[c], n - 1, n' - 1);
    }
  }

  lemma {:induction false} DepthAdds(parent: map<Id, Id>, x: Id, c: Id, m: nat, n: nat)
    requires Under(parent, x, c, m)
    ensures GroundedAt(parent, c, n) <==> GroundedAt(parent, x, n + m)
    decreases m
  {
    if m > 0 {
      DepthAdds(parent, parent[x], c, m - 1, n);
    }
  }

  lemma {:induction false} AncestorIsUnique(parent: map<Id, Id>, x: Id, c: Id, c': Id, m: nat)
    requires Under(parent, x, c, m) && Under(parent, x, c', m)
    ensures c == c'
    decreases m
  {
    if m > 0 {
      AncestorIsUnique(parent, parent[x], c, c', m - 1);
    }
  }

  lemma {:induction false} UnderTransitive(parent: map<Id, Id>, x: Id, y: Id, z: Id, m: nat, n: nat)
    requires Under(parent, x, y, m) && Under(parent, y, z, n)
    ensures Under(parent, x, z, m + n)
    decreases m
  {
    if m > 0 {
      UnderTransitive(parent, parent[x], y, z, m - 1, n);
    }
  }

  lemma {:induction false} UnderChild(parent: map<Id, Id>, x: Id, c: Id, m: nat) returns (child: Id)
    requires m > 0 && Under(parent, x, c, m)
    ensures child in parent && parent[child] == c && Under(parent, x, child, m - 1)
    decreases m
  {
    if m == 1 {
      child := x;
    } else {
      child := UnderChild(parent, parent[x], c, m - 1);
    }
  }

  /** In a forest going down child links is going up parent links. */
  lemma {:induction false} DownIsUnder(kids: map<Id, seq<Id>>, parent: map<Id, Id>, c: Id, x: Id, m: nat)
    requires IsForest(kids, parent)
    ensures Down(kids, c, x, m) <==> Under(parent, x, c, m)
    decreases m
  {
    if m > 0 {
      if Down(kids, c, x, m) {
        var y :| y in kids[c] && Down(kids, y, x, m - 1);
        DownIsUnder(kids, parent, y, x, m - 1);
        assert Under(parent, y, c, 1);
        UnderTransitive(parent, x, y, c, m - 1, 1);
      }
      if Under(parent, x, c, m) {
        var y := UnderChild(parent, x, c, m);
        DownIsUnder(kids, parent, y, x, m - 1);
        assert y in kids[c];
      }
    }
  }

  /** Below a grounded node there is no loop, so the recursion ends. */
  lemma GroundedEnds(kids: map<Id, seq<Id>>, parent: map<Id, Id>, c: Id, n: nat)
    requires IsForest(kids, parent) && c in kids && GroundedAt(parent, c, n)
    ensures EndsWithin(kids, c, |kids|)
  {
    hide EndsWithin, GroundedAt, Under, Down;
    if LoopBelow(kids, c) {
      var d, m: nat :| Down(kids, c, d, m) && OnLoop(kids, d);
      var k: nat :| k > 0 && Down(kids, d, d, k);
      DownIsUnder(kids, parent, c, d, m);
      DownIsUnder(kids, parent, d, d, k);
      DepthAdds(parent, d, c, m, n);
      DepthAdds(parent, d, d, k, n + m);
      DepthIsUnique(parent, d, n + m, n + m + k);
    }
    EndsUnlessLoop(kids, c);
  }

  // ---- What walks of a forest visit ----

  predicate DistinctIds(w: seq<Visit>) {
    forall i, j :: 0 <= i < j < |w| ==> w[i].id != w[j].id
  }

  ghost predicate AllGroundedAt(parent: map<Id, Id>, cs: seq<Id>, n: nat) {
    forall c :: c in cs ==> GroundedAt(parent, c, n)
  }

  /** Below a node at depth n, a node at level l + n + 1 of the walk is at depth l + n. */
  lemma VisitDepth(kids: map<Id, seq<Id>>, parent: map<Id, Id>, v: Visit, c: Id, n: nat)
    requires IsForest(kids, parent) && GroundedAt(parent, c, n) && VisitBelow(kids, v, c, n + 1)
    ensures GroundedAt(parent, v.id, v.level - 1) && Under(parent, v.id, c, v.level - n - 1)
  {
    DownIsUnder(kids, parent, c, v.id, v.level - n - 1);
    DepthAdds(parent, v.id, c, v.level - n - 1, n);
  }

  /** A walk of a forest visits no node twice. */
  lemma {:induction false} WalkIsInjective(kids: map<Id, seq<Id>>, parent: map<Id, Id>, c: Id, n: nat, fuel: nat)
    requires IsForest(kids, parent) && EndsWithin(kids, c, fuel) && GroundedAt(parent, c, n)
    ensures DistinctIds(Walk(kids, c, n + 1, fuel))
    decreases fuel, 0
  {
    hide Down, Under, DistinctIds, WalkAll;
    WalkAllIsInjective(kids, parent, kids[c], n + 1, fuel - 1);
    forall v | v in WalkAll(kids, kids[c], n + 2, fuel - 1) ensures v.id != c {
      WalkAllVisits(kids, kids[c], n + 2, fuel - 1, v);
      var x :| x in kids[c] && VisitBelow(kids, v, x, n + 2);
      VisitDepth(kids, parent, v, x, n + 1);
      if v.id == c {
        DepthIsUnique(parent, c, n, v.level - 1);
      }
    }
    DistinctCons(Visit(c, n + 1), WalkAll(kids, kids[c], n + 2, fuel - 1));
  }

  lemma DistinctCons(v: Visit, w: seq<Visit>)
    requires DistinctIds(w) && forall x :: x in w ==> x.id != v.id
    ensures DistinctIds([v] + w)
  {
  }

  lemma {:induction false} WalkAllIsInjective(kids: map<Id, seq<Id>>, parent: map<Id, Id>, cs: seq<Id>, n: nat,
                                              fuel: nat)
    requires IsForest(kids, parent) && AllEndWithin(kids, cs, fuel) && AllGroundedAt(parent, cs, n) && NoDuplicates(cs)
    ensures DistinctIds(WalkAll(kids, cs, n + 1, fuel))
    decreases fuel, |cs|
  {
    if cs != [] {
      hide Down, Under, GroundedAt, EndsWithin, DistinctIds, Walk;
      var c, rest := cs[0], cs[1..];
      assert forall x :: x in cs <==> x == c || x in rest;
      WalkIsInjective(kids, parent, c, n, fuel);
      WalkAllIsInjective(kids, parent, rest, n, fuel);
      forall v, w | v in Walk(kids, c, n + 1, fuel) && w in WalkAll(kids, rest, n + 1, fuel) ensures v.id != w.id {
        WalkVisits(kids, c, n + 1, fuel, v);
        WalkAllVisits(kids, rest, n + 1, fuel, w);
        var d :| d in rest && VisitBelow(kids, w, d, n + 1);
        BranchesApart(kids, parent, v, w, c, d, n);
      }
      DistinctConcat(Walk(kids, c, n + 1, fuel), WalkAll(kids, rest, n + 1, fuel));
    }
  }

  /** Different nodes of one depth have nothing below them in common. */
  lemma BranchesApart(kids: map<Id, seq<Id>>, parent: map<Id, Id>, v: Visit, w: Visit, c: Id, d: Id, n: nat)
    requires IsForest(kids, parent) && c != d && GroundedAt(parent, c, n) && GroundedAt(parent, d, n)
    requires VisitBelow(kids, v, c, n + 1) && VisitBelow(kids, w, d, n + 1)
    ensures v.id != w.id
  {
    hide Down, Under, GroundedAt, IsForest;
    VisitDepth(kids, parent, v, c, n);
    VisitDepth(kids, parent, w, d, n);
    if v.id == w.id {
      DepthIsUnique(parent, v.id, v.level - 1, w.level - 1);
      AncestorIsUnique(parent, v.id, c, d, v.level - n - 1);
    }
  }

  lemma DistinctConcat(a: seq<Visit>, b: seq<Visit>)
    requires DistinctIds(a) && DistinctIds(b)
    requires forall v, w :: v in a && w in b ==> v.id != w.id
    ensures DistinctIds(a + b)
  {
  }

  ghost predicate IsGroundedVisit(kids: map<Id, seq<Id>>, parent: map<Id, Id>, v: Visit) {
    v.id in kids && v.level >= 1 && GroundedAt(parent, v.id, v.level - 1)
  }

  ghost predicate AreTops(kids: map<Id, seq<Id>>, parent: map<Id, Id>, tops: seq<Id>) {
    forall c {:trigger c in tops} :: c in tops <==> c in kids && c !in parent
  }

  lemma TopsEnd(kids: map<Id, seq<Id>>, parent: map<Id, Id>, tops: seq<Id>)
    requires IsForest(kids, parent) && AreTops(kids, parent, tops)
    ensures AllEndWithin(kids, tops, |kids|) && AllGroundedAt(parent, tops, 0)
  {
    forall c | c in tops ensures EndsWithin(kids, c, |kids|) && GroundedAt(parent, c, 0) {
      GroundedEnds(kids, parent, c, 0);
    }
  }

  /** Walking from every parentless node visits exactly the grounded nodes, each at its depth plus one. */
  lemma ForestWalkVisits(kids: map<Id, seq<Id>>, parent: map<Id, Id>, tops: seq<Id>, v: Visit)
    requires IsForest(kids, parent) && AreTops(kids, parent, tops) && AllEndWithin(kids, tops, |kids|)
    ensures v in WalkAll(kids, tops, 1, |kids|) <==> IsGroundedVisit(kids, parent, v)
  {
    hide AllEndWithin, EndsWithin, WalkAll, GroundedAt, Under, Down;
    WalkAllVisits(kids, tops, 1, |kids|, v);
    if v in WalkAll(kids, tops, 1, |kids|) {
      var c :| c in tops && VisitBelow(kids, v, c, 1);
      NoParentIsGround(parent, c);
      VisitDepth(kids, parent, v, c, 0);
      UnderStaysInside(kids, parent, v.id, c, v.level - 1);
    }
    if IsGroundedVisit(kids, parent, v) {
      var top := TopOf(parent, v.id, v.level - 1);
      UnderReachesKids(kids, parent, v.id, top, v.level - 1);
      DownIsUnder(kids, parent, top, v.id, v.level - 1);
      assert top in tops && VisitBelow(kids, v, top, 1);
    }
  }

  lemma NoParentIsGround(parent: map<Id, Id>, c: Id)
    requires c !in parent
    ensures GroundedAt(parent, c, 0)
  {
  }

  lemma {:induction false} UnderStaysInside(kids: map<Id, seq<Id>>, parent: map<Id, Id>, x: Id, c: Id, m: nat)
    requires IsForest(kids, parent) && c in kids && Under(parent, x, c, m)
    ensures x in kids
  {
  }

  lemma {:induction false} UnderReachesKids(kids: map<Id, seq<Id>>, parent: map<Id, Id>, x: Id, c: Id, m: nat)
    requires IsForest(kids, parent) && x in kids && Under(parent, x, c, m)
    ensures c in kids
    decreases m
  {
    if m > 0 {
      UnderReachesKids(kids, parent, parent[x], c, m - 1);
    }
  }

  lemma {:induction false} TopOf(parent: map<Id, Id>, x: Id, n: nat) returns (top: Id)
    requires GroundedAt(parent, x, n)
    ensures Under(parent, x, top, n) && top !in parent
    decreases n
  {
    if n == 0 {
      top := x;
    } else {
      top := TopOf(parent, parent[x], n - 1);
    }
  }

  // ---- Cycles ----

  /** The parent links read as lists of one or no child, so that going up is a recursion too. */
  ghost function UpLinks(kids: map<Id, seq<Id>>, parent: map<Id, Id>): map<Id, seq<Id>> {
    map c | c in kids :: if c in parent then [parent[c]] else []
  }

  lemma UpStep(kids: map<Id, seq<Id>>, parent: map<Id, Id>, x: Id, c: Id, m: nat)
    requires IsForest(kids, parent) && x in kids && m > 0
    ensures var up := UpLinks(kids, parent);
      && (Down(up, x, c, m) <==> x in parent && Down(up, parent[x], c, m - 1))
      && (EndsWithin(up, x, m) <==> (x in parent ==> EndsWithin(up, parent[x], m - 1)))
  {
    var up := UpLinks(kids, parent);
    assert up[x] == if x in parent then [parent[x]] else [];
    assert x in parent ==> parent[x] in up[x];
  }

  lemma {:induction false} UpIsUnder(kids: map<Id, seq<Id>>, parent: map<Id, Id>, x: Id, c: Id, m: nat)
    requires IsForest(kids, parent) && x in kids
    ensures Down(UpLinks(kids, parent), x, c, m) <==> Under(parent, x, c, m)
    decreases m
  {
    if m > 0 {
      hide UpLinks;
      UpStep(kids, parent, x, c, m);
      if x in parent {
        UpIsUnder(kids, parent, parent[x], c, m - 1);
      }
    }
  }

  ghost predicate GroundedBefore(parent: map<Id, Id>, x: Id, n: nat) {
    exists k: nat :: k < n && GroundedAt(parent, x, k)
  }

  lemma GroundedStep(parent: map<Id, Id>, x: Id, n: nat)
    requires n > 0
    ensures GroundedBefore(parent, x, n) <==> (x in parent ==> GroundedBefore(parent, parent[x], n - 1))
  {
    if x in parent {
      if GroundedBefore(parent, x, n) {
        var k: nat :| k < n && GroundedAt(parent, x, k);
        assert GroundedAt(parent, parent[x], k - 1);
      }
      if GroundedBefore(parent, parent[x], n - 1) {
        var k: nat :| k < n - 1 && GroundedAt(parent, parent[x], k);
        assert GroundedAt(parent, x, k + 1);
      }
    } else {
      assert GroundedAt(parent, x, 0);
    }
  }

  lemma {:induction false} UpEnds(kids: map<Id, seq<Id>>, parent: map<Id, Id>, x: Id, n: nat)
    requires IsForest(kids, parent) && x in kids
    ensures EndsWithin(UpLinks(kids, parent), x, n) <==> GroundedBefore(parent, x, n)
    decreases n
  {
    if n > 0 {
      hide UpLinks, GroundedBefore;
      UpStep(kids, parent, x, x, n);
      GroundedStep(parent, x, n);
      if x in parent {
        UpEnds(kids, parent, parent[x], n - 1);
      }
    }
  }

  /** The parent chain of a node ends exactly when the node is neither on nor below a cycle of parents; it is then
      shorter than the number of nodes. */
  lemma GroundedUnlessCyclic(kids: map<Id, seq<Id>>, parent: map<Id, Id>, x: Id)
    requires IsForest(kids, parent) && x in kids
    ensures Grounded(parent, x) <==> !BelowCycle(parent, x)
    ensures Grounded(parent, x) <==> GroundedBefore(parent, x, |kids|)
  {
    hide Down, Under, EndsWithin, GroundedAt;
    var up := UpLinks(kids, parent);
    assert IsClosed(up) && up.Keys == kids.Keys;
    assert |up| == |kids|;
    EndsUnlessLoop(up, x);
    UpEnds(kids, parent, x, |kids|);
    CycleIsLoop(kids, parent, x);
    if n: nat :| GroundedAt(parent, x, n) {
      assert GroundedBefore(parent, x, n + 1);
      UpEnds(kids, parent, x, n + 1);
    }
  }

  lemma CycleIsLoop(kids: map<Id, seq<Id>>, parent: map<Id, Id>, x: Id)
    requires IsForest(kids, parent) && x in kids
    ensures BelowCycle(parent, x) <==> LoopBelow(UpLinks(kids, parent), x)
  {
    hide Down, Under;
    var up := UpLinks(kids, parent);
    forall c, m: nat | Under(parent, x, c, m) || Down(up, x, c, m)
      ensures Down(up, x, c, m) && Under(parent, x, c, m)
      ensures OnCycle(parent, c) <==> OnLoop(up, c)
    {
      UpIsUnder(kids, parent, x, c, m);
      UnderReachesKids(kids, parent, x, c, m);
      forall k: nat ensures Down(up, c, c, k) <==> Under(parent, c, c, k) {
        UpIsUnder(kids, parent, c, c, k);
      }
    }
  }
}
