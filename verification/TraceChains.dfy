/** How often the recursion over the returned trees meets a node, for spans with any number of references. */
module TraceChains {
  import opened Wrappers
  import opened SpanGraph
  import opened SpanTreeMetadata
  import opened S = SpanToTree
  import opened TraceArena
  import opened TraceDescent

  // ---- What the span list says ----

  /** The traces that references name. */
  ghost function NamedTraces(last: map<Id, Span>): set<string> {
    set c, i | c in last && 0 <= i < |last[c].childOf| :: last[c].childOf[i].traceId
  }

  /** How many returned trees start at c. */
  ghost function Starts(last: map<Id, Span>, c: Id): nat {
    if !IsParentless(last, c) then 0 else if NamesNoParent(last, c) then 1 else |NamedTraces(last)|
  }

  /** How many chains of m references lead up from c to the start of a returned tree, each counted once per tree. */
  ghost function ChainsUp(last: map<Id, Span>, c: Id, m: nat): nat
    decreases m, 0
  {
    if m == 0 then Starts(last, c) else if c in last then ChainsUpFrom(last, last[c].childOf, m - 1) else 0
  }

  /** The same, from the spans that some references name. */
  ghost function ChainsUpFrom(last: map<Id, Span>, refs: seq<Reference>, m: nat): nat
    decreases m, |refs| + 1
  {
    if refs == [] then 0
    else ChainsUpFrom(last, refs[..|refs| - 1], m) + ChainsUp(last, refs[|refs| - 1].spanId, m)
  }

  /** A walk meets a node at a level as often as chains of that length lead up from it. */
  ghost predicate VisitsChains(w: seq<Visit>, last: map<Id, Span>) {
    forall v :: multiset(w)[v] == if v.level >= 1 then ChainsUp(last, v.id, v.level - 1) else 0
  }

  // ---- Layers of a graph ----

  /** The children of some nodes, one list after the other. */
  ghost function KidsOfAll(kids: map<Id, seq<Id>>, cs: seq<Id>): seq<Id> {
    if cs == [] then []
    else
      var last := cs[|cs| - 1];
      KidsOfAll(kids, cs[..|cs| - 1]) + if last in kids then kids[last] else []
  }

  /** The ends of the chains of m child links, once per chain. */
  ghost function Layer(kids: map<Id, seq<Id>>, cs: seq<Id>, m: nat): seq<Id> {
    if m == 0 then cs else KidsOfAll(kids, Layer(kids, cs, m - 1))
  }

  lemma {:induction false} KidsOfConcat(kids: map<Id, seq<Id>>, a: seq<Id>, b: seq<Id>)
    ensures KidsOfAll(kids, a + b) == KidsOfAll(kids, a) + KidsOfAll(kids, b)
  {
    if b == [] {
      assert a + b == a;
    } else {
      KidsOfConcat(kids, a, b[..|b| - 1]);
      assert (a + b)[..|a + b| - 1] == a + b[..|b| - 1];
    }
  }

  lemma {:induction false} LayerConcat(kids: map<Id, seq<Id>>, a: seq<Id>, b: seq<Id>, m: nat)
    ensures Layer(kids, a + b, m) == Layer(kids, a, m) + Layer(kids, b, m)
  {
    if m > 0 {
      LayerConcat(kids, a, b, m - 1);
      KidsOfConcat(kids, Layer(kids, a, m - 1), Layer(kids, b, m - 1));
    }
  }

  lemma {:induction false} LayerOfOne(kids: map<Id, seq<Id>>, c: Id, m: nat)
    requires c in kids && m > 0
    ensures Layer(kids, [c], m) == Layer(kids, kids[c], m - 1)
  {
    if m == 1 {
      assert Layer(kids, [c], 0) == [c] && Layer(kids, kids[c], 0) == kids[c];
      assert KidsOfAll(kids, [c]) == KidsOfAll(kids, [c][..0]) + kids[c] == kids[c];
    } else {
      LayerOfOne(kids, c, m - 1);
    }
  }

  lemma {:induction false} WalkMeetsLayers(kids: map<Id, seq<Id>>, cs: seq<Id>, level: nat, n: nat, c: Id, m: nat)
    requires AllEndWithin(kids, cs, n)
    ensures multiset(WalkAll(kids, cs, level, n))[Visit(c, level + m)] == multiset(Layer(kids, cs, m))[c]
    decreases n, |cs|
  {
    if cs == [] {
      EmptyLayer(kids, m);
    } else {
      hide Layer;
      var first, rest := cs[0], cs[1..];
      assert cs == [first] + rest && forall x :: x in rest ==> x in cs;
      WalkMeetsLayers(kids, rest, level, n, c, m);
      LayerConcat(kids, [first], rest, m);
      FirstMeetsLayers(kids, first, level, n, c, m);
    }
  }

  lemma {:induction false} EmptyLayer(kids: map<Id, seq<Id>>, m: nat)
    ensures Layer(kids, [], m) == []
  {
    if m > 0 {
      EmptyLayer(kids, m - 1);
    }
  }

  lemma {:induction false} FirstMeetsLayers(kids: map<Id, seq<Id>>, x: Id, level: nat, n: nat, c: Id, m: nat)
    requires EndsWithin(kids, x, n)
    ensures multiset(Walk(kids, x, level, n))[Visit(c, level + m)] == multiset(Layer(kids, [x], m))[c]
    decreases n, 0
  {
    hide Layer, WalkAll;
    var below := WalkAll(kids, kids[x], level + 1, n - 1);
    FirstOfWalk(below, x, level, c, m);
    if m == 0 {
      WalkAllVisits(kids, kids[x], level + 1, n - 1, Visit(c, level));
      LayerOfNone(kids, x);
    } else {
      WalkMeetsLayers(kids, kids[x], level + 1, n - 1, c, m - 1);
      LayerOfOne(kids, x, m);
    }
  }

  lemma LayerOfNone(kids: map<Id, seq<Id>>, x: Id)
    ensures Layer(kids, [x], 0) == [x]
  {
  }

  lemma FirstOfWalk(below: seq<Visit>, x: Id, level: nat, c: Id, m: nat)
    ensures multiset([Visit(x, level)] + below)[Visit(c, level + m)]
      == multiset(below)[Visit(c, level + m)] + if m == 0 then multiset([x])[c] else 0
  {
  }

  // ---- The layers of the arena ----

  /** How often the spans named by some references occur. */
  ghost function NamedIn(refs: seq<Reference>, s: multiset<Id>): nat {
    if refs == [] then 0 else NamedIn(refs[..|refs| - 1], s) + s[refs[|refs| - 1].spanId]
  }

  lemma {:induction false} NamedInOneMore(refs: seq<Reference>, s: multiset<Id>, x: Id)
    ensures NamedIn(refs, s + multiset{x}) == NamedIn(refs, s) + RefCount(refs, x)
    ensures NamedIn(refs, multiset{}) == 0
  {
    if refs != [] {
      NamedInOneMore(refs[..|refs| - 1], s, x);
    }
  }

  /** Children counted from above are references counted from below. */
  ghost predicate CountsReferences(kids: map<Id, seq<Id>>, last: map<Id, Span>) {
    forall p, c :: p in kids ==> multiset(kids[p])[c] == if c in last then RefCount(last[c].childOf, p) else 0
  }

  lemma {:induction false} KidsOfAllCount(kids: map<Id, seq<Id>>, last: map<Id, Span>, cs: seq<Id>, c: Id)
    requires CountsReferences(kids, last) && forall x :: x in cs ==> x in kids
    ensures multiset(KidsOfAll(kids, cs))[c] == if c in last then NamedIn(last[c].childOf, multiset(cs)) else 0
  {
    if cs == [] {
      if c in last {
        NamedInOneMore(last[c].childOf, multiset{}, c);
      }
    } else {
      hide RefCount, NamedIn;
      var init, x := cs[..|cs| - 1], cs[|cs| - 1];
      assert cs == init + [x] && x in cs;
      KidsOfAllCount(kids, last, init, c);
      if c in last {
        NamedInOneMore(last[c].childOf, multiset(init), x);
      }
    }
  }

  lemma {:induction false} LayerInKids(kids: map<Id, seq<Id>>, cs: seq<Id>, m: nat)
    requires IsClosed(kids) && forall x :: x in cs ==> x in kids
    ensures forall x :: x in Layer(kids, cs, m) ==> x in kids
  {
    if m > 0 {
      LayerInKids(kids, cs, m - 1);
      KidsInKids(kids, Layer(kids, cs, m - 1));
    }
  }

  lemma {:induction false} KidsInKids(kids: map<Id, seq<Id>>, cs: seq<Id>)
    requires IsClosed(kids)
    ensures forall x :: x in KidsOfAll(kids, cs) ==> x in kids
  {
    if cs != [] {
      KidsInKids(kids, cs[..|cs| - 1]);
    }
  }

  lemma {:induction false} LayerCounts(kids: map<Id, seq<Id>>, last: map<Id, Span>, cs: seq<Id>, m: nat, c: Id)
    requires CountsReferences(kids, last) && IsClosed(kids) && forall x :: x in cs ==> x in kids
    requires forall x :: multiset(cs)[x] == Starts(last, x)
    ensures multiset(Layer(kids, cs, m))[c] == ChainsUp(last, c, m)
    decreases m, 0
  {
    if m > 0 {
      hide Starts, CountsReferences, IsClosed;
      LayerInKids(kids, cs, m - 1);
      KidsOfAllCount(kids, last, Layer(kids, cs, m - 1), c);
      if c in last {
        NamedCounts(kids, last, cs, m - 1, last[c].childOf);
      }
    }
  }

  lemma {:induction false} NamedCounts(kids: map<Id, seq<Id>>, last: map<Id, Span>, cs: seq<Id>, m: nat,
                                       refs: seq<Reference>)
    requires CountsReferences(kids, last) && IsClosed(kids) && forall x :: x in cs ==> x in kids
    requires forall x :: multiset(cs)[x] == Starts(last, x)
    ensures NamedIn(refs, multiset(Layer(kids, cs, m))) == ChainsUpFrom(last, refs, m)
    decreases m, |refs| + 1
  {
    if refs != [] {
      hide Starts, CountsReferences, IsClosed, Layer;
      NamedCounts(kids, last, cs, m, refs[..|refs| - 1]);
      LayerCounts(kids, last, cs, m, refs[|refs| - 1].spanId);
    }
  }

  lemma ArenaCount(nodes: map<Id, TreeNode>, repr: set<TreeNode>, spans: seq<Span>, p: Id, c: Id)
    requires IsArena(nodes, repr, spans) && p in nodes
    ensures var last := LastSpans(spans);
      Occurs(nodes[p].children, c) == if c in last then RefCount(last[c].childOf, p) else 0
  {
    hide LastSpans, RefCount, Occurs, AllEdges;
    KidsCount(nodes[p].children, p, nodes, LastSpans(spans), c);
  }

  lemma ArenaCountsReferences(nodes: map<Id, TreeNode>, repr: set<TreeNode>, spans: seq<Span>)
    requires IsArena(nodes, repr, spans)
    ensures CountsReferences(KidsOf(nodes), LastSpans(spans))
  {
    hide IsArena, LastSpans, RefCount, Occurs, KidsOf;
    var last := LastSpans(spans);
    KidsAre(nodes);
    forall p, c | p in nodes
      ensures multiset(KidsOf(nodes)[p])[c] == if c in last then RefCount(last[c].childOf, p) else 0
    {
      OccursIsMultiplicity(nodes[p].children, c);
      ArenaCount(nodes, repr, spans, p, c);
    }
  }

  lemma NamedTracesAre(last: map<Id, Span>, traceIds: set<string>)
    requires forall t :: t in traceIds <==> IsTraceId(last, last.Keys, t)
    ensures traceIds == NamedTraces(last)
  {
    forall t ensures t in traceIds <==> t in NamedTraces(last) {
      if t in NamedTraces(last) {
        var c, i :| c in last && 0 <= i < |last[c].childOf| && last[c].childOf[i].traceId == t;
        assert last[c].childOf[i] in last[c].childOf && t in TraceIdsOf(last[c].childOf);
      }
      if IsTraceId(last, last.Keys, t) {
        var c :| c in last && t in TraceIdsOf(last[c].childOf);
        var r :| r in last[c].childOf && r.traceId == t;
        var i :| 0 <= i < |last[c].childOf| && last[c].childOf[i] == r;
      }
    }
  }

  lemma StartsAre(spanTree: seq<TreeNode>, missingSpanTree: seq<TreeNode>, nodes: map<Id, TreeNode>,
                  repr: set<TreeNode>, spans: seq<Span>, traceIds: set<string>, c: Id)
    requires IsArena(nodes, repr, spans) && CopiesAre(spanTree, missingSpanTree, nodes, LastSpans(spans), traceIds)
    requires forall t :: t in traceIds <==> IsTraceId(LastSpans(spans), LastSpans(spans).Keys, t)
    ensures multiset(IdsOf(spanTree + missingSpanTree))[c] == Starts(LastSpans(spans), c)
  {
    hide IsArena, LastSpans, CopiesAre, IsParentless, NamesNoParent, IsTraceId, Occurs, IsTop, IsRoot, NamedTraces;
    OccursIsMultiplicity(spanTree + missingSpanTree, c);
    OccursConcat(spanTree, missingSpanTree, c);
    CopiesOf(spanTree, missingSpanTree, nodes, LastSpans(spans), traceIds, c);
    TopIsParentless(nodes, repr, spans, c);
    NamedTracesAre(LastSpans(spans), traceIds);
  }

  /** However many references spans have, the recursion meets a node at a level once for every chain of references that
      leads up from it to a returned tree. */
  lemma WalkVisitsChains(spanTree: seq<TreeNode>, missingSpanTree: seq<TreeNode>, nodes: map<Id, TreeNode>,
                         repr: set<TreeNode>, spans: seq<Span>, traceIds: set<string>)
    requires IsArena(nodes, repr, spans) && CopiesAre(spanTree, missingSpanTree, nodes, LastSpans(spans), traceIds)
    requires forall t :: t in traceIds <==> IsTraceId(LastSpans(spans), LastSpans(spans).Keys, t)
    requires AllEndWithin(KidsOf(nodes), IdsOf(spanTree + missingSpanTree), |nodes|)
    ensures VisitsChains(WalkAll(KidsOf(nodes), IdsOf(spanTree + missingSpanTree), 1, |nodes|), LastSpans(spans))
  {
    hide IsArena, LastSpans, CopiesAre, IsTraceId, WalkAll, KidsOf, IsClosed, CountsReferences, Starts, ChainsUp, Layer,
         EndsWithin;
    var last, kids, ids := LastSpans(spans), KidsOf(nodes), IdsOf(spanTree + missingSpanTree);
    ArenaChains(nodes, repr, spans);
    ArenaCountsReferences(nodes, repr, spans);
    forall c ensures multiset(ids)[c] == Starts(last, c) {
      StartsAre(spanTree, missingSpanTree, nodes, repr, spans, traceIds, c);
    }
    assert forall x :: x in ids ==> EndsWithin(kids, x, |nodes|);
    StartsInKids(kids, ids, |nodes|);
    var w := WalkAll(kids, ids, 1, |nodes|);
    forall v: Visit ensures multiset(w)[v] == if v.level >= 1 then ChainsUp(last, v.id, v.level - 1) else 0 {
      if v.level >= 1 {
        WalkMeetsLayers(kids, ids, 1, |nodes|, v.id, v.level - 1);
        LayerCounts(kids, last, ids, v.level - 1, v.id);
        assert v == Visit(v.id, 1 + (v.level - 1));
      } else {
        WalkAllVisits(kids, ids, 1, |nodes|, v);
      }
    }
  }

  lemma StartsInKids(kids: map<Id, seq<Id>>, ids: seq<Id>, n: nat)
    requires AllEndWithin(kids, ids, n)
    ensures forall x :: x in ids ==> x in kids
  {
  }

  // ---- In which of the two lists a tree is ----

  ghost predicate IsInside(c: Id, t: string) {
    exists x, y :: t == x + c + y
  }

  /** The traces whose id contains c. */
  ghost function TracesAround(last: map<Id, Span>, c: Id): set<string> {
    set t | t in NamedTraces(last) && IsInside(c, t)
  }

  /** A parentless span that names the empty id is in the span tree once; any other parentless node is in it once for
      every trace whose id contains its own, and among the missing once for every other trace. */
  lemma ListsAre(spanTree: seq<TreeNode>, missingSpanTree: seq<TreeNode>, nodes: map<Id, TreeNode>,
                 repr: set<TreeNode>, spans: seq<Span>, traceIds: set<string>, c: Id)
    requires IsArena(nodes, repr, spans) && CopiesAre(spanTree, missingSpanTree, nodes, LastSpans(spans), traceIds)
    requires forall t :: t in traceIds <==> IsTraceId(LastSpans(spans), LastSpans(spans).Keys, t)
    ensures var last := LastSpans(spans);
      var tree, missing := multiset(IdsOf(spanTree))[c], multiset(IdsOf(missingSpanTree))[c];
      if !IsParentless(last, c) then tree == 0 && missing == 0
      else if c in last && exists i :: 0 <= i < |last[c].childOf| && last[c].childOf[i].spanId == ""
      then tree == 1 && missing == 0
      else tree == |TracesAround(last, c)| && missing == |NamedTraces(last) - TracesAround(last, c)|
  {
    hide IsArena, LastSpans, IsParentless, IsTraceId, Occurs, NamedTraces, RefCount, Includes;
    var last := LastSpans(spans);
    OccursIsMultiplicity(spanTree, c);
    OccursIsMultiplicity(missingSpanTree, c);
    TopIsParentless(nodes, repr, spans, c);
    NamedTracesAre(last, traceIds);
    if IsTop(nodes, last, c) {
      RootNamesEmpty(nodes, repr, spans, c);
      MatchingIsAround(last, c);
      assert traceIds == Matching(traceIds, c) + (traceIds - Matching(traceIds, c));
    }
  }

  lemma RootNamesEmpty(nodes: map<Id, TreeNode>, repr: set<TreeNode>, spans: seq<Span>, c: Id)
    requires IsArena(nodes, repr, spans) && c in nodes
    ensures var last := LastSpans(spans);
      && nodes[c].id == c
      && (IsRoot(nodes[c])
          <==> c in last && exists i :: 0 <= i < |last[c].childOf| && last[c].childOf[i].spanId == "")
  {
    hide LastSpans;
    NodesAre(nodes, repr, spans);
  }

  lemma MatchingIsAround(last: map<Id, Span>, c: Id)
    ensures Matching(NamedTraces(last), c) == TracesAround(last, c)
  {
    forall t ensures Includes(t, c) <==> IsInside(c, t) {
      if i :| 0 <= i <= |t| && OccursAt(t, c, i) {
        assert t == t[..i] + c + t[i + |c|..];
      }
      if IsInside(c, t) {
        var x, y :| t == x + c + y;
        assert t[|x|..|x| + |c|] == c && OccursAt(t, c, |x|);
      }
    }
  }
}
