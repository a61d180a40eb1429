/** Spans with at most one parent reference: the returned trees are a forest of parent links, and the numbers that
    getSpanTreeMetadata reads off it are told in terms of the span list alone. */
module TraceForest {
  import opened Wrappers
  import opened SpanGraph
  import opened SpanForest
  import opened SpanTreeMetadata
  import opened S = SpanToTree
  import opened TraceArena
  import opened TraceDescent
  import opened TraceChains

  ghost predicate SingleParent(last: map<Id, Span>) {
    forall c :: c in last ==> |last[c].childOf| <= 1
  }

  /** The parent of a span: the id its reference names, unless that is the empty id of a root. */
  ghost function ParentOf(last: map<Id, Span>): map<Id, Id> {
    map c | c in last && |last[c].childOf| == 1 && (last[c].childOf[0].spanId != "" || "" in last)
      :: last[c].childOf[0].spanId
  }

  lemma OneReference(last: map<Id, Span>, c: Id)
    requires c in last && |last[c].childOf| <= 1
    ensures forall p ::
      RefCount(last[c].childOf, p)
      == if |last[c].childOf| == 1 && last[c].childOf[0].spanId == p then 1 else 0
    ensures HasParent(last, last[c].childOf) <==> c in ParentOf(last)
  {
    var refs := last[c].childOf;
    if |refs| == 1 {
      assert refs[..0] == [];
      assert RefCount(refs, refs[0].spanId) == 1;
      forall p ensures RefCount(refs, p) == if refs[0].spanId == p then 1 else 0 {
        assert RefCount(refs[..0], p) == 0;
      }
    }
  }

  /** The children of a node, under single parents: the spans whose parent it is, each once. */
  lemma ChildrenOf(nodes: map<Id, TreeNode>, last: map<Id, Span>, children: seq<TreeNode>, p: Id)
    requires SingleParent(last) && HasKids(children, p, nodes, AllEdges(last, last.Keys))
    requires p in nodes && ("" in nodes ==> "" in last)
    ensures NoDuplicates(IdsOf(children))
    ensures forall c :: c in IdsOf(children) <==> c in ParentOf(last) && ParentOf(last)[c] == p
  {
    forall c
      ensures Occurs(children, c) <= 1
      ensures Occurs(children, c) > 0 <==> c in ParentOf(last) && ParentOf(last)[c] == p
    {
      if c in last {
        OneReference(last, c);
      }
    }
    forall c ensures c in IdsOf(children) <==> c in ParentOf(last) && ParentOf(last)[c] == p {
      OccursMeansListed(children, c);
    }
    OccursMeansListed(children, p);
  }

  /** With at most one parent reference per span, the nodes and their children form a forest of parent links. */
  lemma ArenaIsForest(nodes: map<Id, TreeNode>, repr: set<TreeNode>, spans: seq<Span>)
    requires IsArena(nodes, repr, spans) && SingleParent(LastSpans(spans))
    ensures IsForest(KidsOf(nodes), ParentOf(LastSpans(spans)))
  {
    hide *;
    ArenaFacts(nodes, repr, spans);
    ParentsAreNodes(nodes, repr, spans);
    var last := LastSpans(spans);
    var parent, kids := ParentOf(last), KidsOf(nodes);
    KidsAre(nodes);
    forall p | p in nodes
      ensures NoDuplicates(kids[p]) && forall c :: c in kids[p] <==> c in parent && parent[c] == p
    {
      ChildrenOf(nodes, last, nodes[p].children, p);
    }
    ForestFromParts(kids, parent);
  }

  lemma ParentsAreNodes(nodes: map<Id, TreeNode>, repr: set<TreeNode>, spans: seq<Span>)
    requires IsArena(nodes, repr, spans)
    ensures var parent := ParentOf(LastSpans(spans)); forall c :: c in parent ==> c in nodes && parent[c] in nodes
  {
    var last := LastSpans(spans);
    forall c | c in ParentOf(last) ensures c in nodes && ParentOf(last)[c] in nodes {
      RefCountAt(last[c].childOf, 0);
      assert IsNode(last, last.Keys, ParentOf(last)[c]);
    }
  }

  lemma ForestFromParts(kids: map<Id, seq<Id>>, parent: map<Id, Id>)
    requires forall c :: c in parent ==> c in kids && parent[c] in kids
    requires forall p :: p in kids ==> NoDuplicates(kids[p])
    requires forall p :: p in kids ==> forall c :: c in kids[p] <==> c in parent && parent[c] == p
    ensures IsForest(kids, parent)
  {
  }

  // ---- Which trees are returned ----

  /** Where every parentless node is returned once, the returned trees start at the nodes without a parent. */
  lemma ReturnedAreTops(spanTree: seq<TreeNode>, missingSpanTree: seq<TreeNode>, nodes: map<Id, TreeNode>,
                        repr: set<TreeNode>, spans: seq<Span>, traceIds: set<string>)
    requires IsArena(nodes, repr, spans) && SingleParent(LastSpans(spans)) && ReturnsOnce(LastSpans(spans))
    requires CopiesAre(spanTree, missingSpanTree, nodes, LastSpans(spans), traceIds)
    requires forall t :: t in traceIds <==> IsTraceId(LastSpans(spans), LastSpans(spans).Keys, t)
    ensures AreTops(KidsOf(nodes), ParentOf(LastSpans(spans)), IdsOf(spanTree + missingSpanTree))
    ensures NoDuplicates(IdsOf(spanTree + missingSpanTree))
  {
    hide IsArena, LastSpans, ParentOf, SingleParent, ReturnsOnce, CopiesAre, IsTop, IsRoot, Occurs, IsParentless,
         IsTraceId;
    var last := LastSpans(spans);
    var both := spanTree + missingSpanTree;
    ReturnedOnceIff(spanTree, missingSpanTree, nodes, repr, spans, traceIds);
    forall c
      ensures c in IdsOf(both) <==> IsTop(nodes, last, c)
      ensures Occurs(both, c) <= 1
    {
      TopIsParentless(nodes, repr, spans, c);
      OccursConcat(spanTree, missingSpanTree, c);
      CopiesOf(spanTree, missingSpanTree, nodes, last, traceIds, c);
      OccursMeansListed(both, c);
    }
    TopsHaveNoParent(nodes, repr, spans);
    OccursMeansListed(both, "");
  }

  lemma EdgeIsParent(last: map<Id, Span>, p: Id, c: Id)
    requires SingleParent(last)
    ensures IsEdge(last, p, c) <==> c in ParentOf(last) && ParentOf(last)[c] == p
  {
    if c in last {
      OneReference(last, c);
    }
  }

  lemma TopsHaveNoParent(nodes: map<Id, TreeNode>, repr: set<TreeNode>, spans: seq<Span>)
    requires IsArena(nodes, repr, spans) && SingleParent(LastSpans(spans))
    ensures forall c :: IsTop(nodes, LastSpans(spans), c) <==> c in nodes && c !in ParentOf(LastSpans(spans))
    ensures KidsOf(nodes).Keys == nodes.Keys
  {
    hide IsArena, LastSpans, SingleParent, IsEdge, IsTop, IsNodeId, ParentOf;
    var last := LastSpans(spans);
    ArenaKids(nodes, repr, spans);
    forall c ensures IsTop(nodes, last, c) <==> c in nodes && c !in ParentOf(last) {
      TopIsParentless(nodes, repr, spans, c);
      if c in ParentOf(last) {
        EdgeIsParent(last, ParentOf(last)[c], c);
      }
      forall p | IsEdge(last, p, c) ensures c in ParentOf(last) {
        EdgeIsParent(last, p, c);
      }
    }
  }

  // ---- What the numbers mean ----

  /** The spans whose parent chain ends at a root or at a missing parent. */
  ghost function GroundedSpans(last: map<Id, Span>): set<Id> {
    set c | c in last && Grounded(ParentOf(last), c)
  }

  ghost predicate AtLevel(last: map<Id, Span>, c: Id, level: int) {
    (c in last || c in MissingIds(last)) && level >= 1 && GroundedAt(ParentOf(last), c, level - 1)
  }

  /** s sums up the forest of the spans `last`. */
  ghost predicate SumsUp(s: Summary, last: map<Id, Span>) {
    && s.totalSpans == |GroundedSpans(last)| + |MissingIds(last)|
    && (forall c, level :: AtLevel(last, c, level) ==> level <= s.levels)
    && (s.levels == 1 || exists c :: AtLevel(last, c, s.levels))
    && (s.globalStart.None? <==> GroundedSpans(last) == {})
    && (s.globalStart.Some? ==>
          && (forall c :: c in GroundedSpans(last) ==> s.globalStart.value <= last[c].startTime)
          && exists c :: c in GroundedSpans(last) && s.globalStart.value == last[c].startTime)
    && (s.globalEnd.None? <==> GroundedSpans(last) == {})
    && (s.globalEnd.Some? ==>
          && (forall c :: c in GroundedSpans(last) ==>
                last[c].startTime + last[c].duration / 1000000.0 <= s.globalEnd.value)
          && exists c :: c in GroundedSpans(last)
               && s.globalEnd.value == last[c].startTime + last[c].duration / 1000000.0)
  }

  lemma {:induction false} DistinctIdsCount(w: seq<Visit>)
    requires DistinctIds(w)
    ensures |set v | v in w :: v.id| == |w|
  {
    if w != [] {
      var init, last := w[..|w| - 1], w[|w| - 1];
      DistinctIdsCount(init);
      assert forall v :: v in w <==> v in init || v == last;
      assert (set v | v in w :: v.id) == (set v | v in init :: v.id) + {last.id};
      assert last.id !in set v | v in init :: v.id;
    }
  }

  /** w visits exactly the nodes with a finite parent chain, each once, at its level. */
  ghost predicate VisitsGrounded(w: seq<Visit>, last: map<Id, Span>) {
    && DistinctIds(w)
    && (forall v :: v in w <==> AtLevel(last, v.id, v.level))
  }

  lemma MissingIsTop(last: map<Id, Span>, c: Id)
    requires c in MissingIds(last)
    ensures AtLevel(last, c, 1) && c !in last
  {
    assert GroundedAt(ParentOf(last), c, 0);
  }

  lemma VisitedIds(w: seq<Visit>, last: map<Id, Span>)
    requires VisitsGrounded(w, last)
    ensures |w| == |GroundedSpans(last)| + |MissingIds(last)|
    ensures forall c :: c in GroundedSpans(last) ==> exists v :: v in w && v.id == c
    ensures forall v :: v in w && v.id in last ==> v.id in GroundedSpans(last)
  {
    hide GroundedAt, ParentOf, DistinctIds, MissingIds;
    var ids := set v | v in w :: v.id;
    DistinctIdsCount(w);
    forall c | c in GroundedSpans(last) ensures exists v :: v in w && v.id == c {
      var n: nat :| GroundedAt(ParentOf(last), c, n);
      assert AtLevel(last, c, n + 1) && Visit(c, n + 1) in w;
    }
    forall c | c in MissingIds(last) ensures c in ids && c !in last {
      MissingIsTop(last, c);
      assert Visit(c, 1) in w;
    }
    assert ids == GroundedSpans(last) + MissingIds(last);
  }

  lemma SeenSpans(w: seq<Visit>, last: map<Id, Span>, info: SpanOf)
    requires VisitsGrounded(w, last)
    requires InfoIs(info, last)
    ensures forall span :: SeesSpan(w, info, span) <==> exists c :: c in GroundedSpans(last) && last[c] == span
  {
    VisitedIds(w, last);
    forall span ensures SeesSpan(w, info, span) <==> exists c :: c in GroundedSpans(last) && last[c] == span {
      if SeesSpan(w, info, span) {
        var v :| v in w && SpanAt(info, v.id) == Some(span);
        assert v.id in last && v.id in GroundedSpans(last) && last[v.id] == span;
      }
      if c :| c in GroundedSpans(last) && last[c] == span {
        var v :| v in w && v.id == c;
        assert SpanAt(info, v.id) == Some(span);
      }
    }
  }

  /** The folded numbers are those of the spans: counts, deepest ancestor chain, least start and greatest end. */
  lemma FoldSumsUp(s: Summary, w: seq<Visit>, last: map<Id, Span>, info: SpanOf)
    requires VisitsGrounded(w, last) && FoldMeans(s, w, info)
    requires InfoIs(info, last)
    ensures SumsUp(s, last)
  {
    VisitedIds(w, last);
    SeenSpans(w, last, info);
    assert forall c, level :: AtLevel(last, c, level) ==> Visit(c, level) in w;
    forall c | c in GroundedSpans(last) ensures SeesSpan(w, info, last[c]) {
    }
  }

  /** Walking every parentless node visits exactly the grounded spans and the placeholders, each once. */
  lemma WalkVisitsGrounded(nodes: map<Id, TreeNode>, repr: set<TreeNode>, spans: seq<Span>, tops: seq<Id>)
    requires IsArena(nodes, repr, spans) && SingleParent(LastSpans(spans))
    requires NoDuplicates(tops) && AreTops(KidsOf(nodes), ParentOf(LastSpans(spans)), tops)
    ensures AllEndWithin(KidsOf(nodes), tops, |nodes|)
    ensures VisitsGrounded(WalkAll(KidsOf(nodes), tops, 1, |nodes|), LastSpans(spans))
  {
    hide IsArena, LastSpans, ParentOf, GroundedAt, IsForest, MissingIds, NoDuplicates, DistinctIds, WalkAll,
         SingleParent, EndsWithin, AllEndWithin, AllGroundedAt, AreTops;
    ArenaIsForest(nodes, repr, spans);
    NodesAre(nodes, repr, spans);
    KidsAre(nodes);
    var last := LastSpans(spans);
    var kids, parent := KidsOf(nodes), ParentOf(last);
    SameSize(kids, nodes);
    TopsEnd(kids, parent, tops);
    WalkAllIsInjective(kids, parent, tops, 0, |nodes|);
    forall v ensures v in WalkAll(kids, tops, 1, |nodes|) <==> AtLevel(last, v.id, v.level) {
      ForestWalkVisits(kids, parent, tops, v);
    }
  }

  /** A span is summed up unless it lies on or below a cycle of parent references. */
  lemma LeftOutMeansCyclic(nodes: map<Id, TreeNode>, repr: set<TreeNode>, spans: seq<Span>, c: Id)
    requires IsArena(nodes, repr, spans) && SingleParent(LastSpans(spans)) && c in LastSpans(spans)
    ensures c in GroundedSpans(LastSpans(spans)) <==> !BelowCycle(ParentOf(LastSpans(spans)), c)
  {
    ArenaIsForest(nodes, repr, spans);
    NodesAre(nodes, repr, spans);
    KidsAre(nodes);
    GroundedUnlessCyclic(KidsOf(nodes), ParentOf(LastSpans(spans)), c);
  }

  // ---- When the numbers sum up the trace ----

  lemma {:induction false} DescendsIsUnder(last: map<Id, Span>, a: Id, c: Id, m: nat)
    requires SingleParent(last)
    ensures Descends(last, a, c, m) ==> Under(ParentOf(last), c, a, m)
    decreases m
  {
    if m > 0 && Descends(last, a, c, m) {
      hide SingleParent, ParentOf, IsEdge;
      var x :| IsEdge(last, a, x) && Descends(last, x, c, m - 1);
      DescendsIsUnder(last, x, c, m - 1);
      EdgeIsParent(last, a, x);
      assert Under(ParentOf(last), a, a, 0) && Under(ParentOf(last), x, a, 1);
      UnderTransitive(ParentOf(last), c, x, a, m - 1, 1);
    }
  }

  /** With at most one parent reference per span the recursion always ends. */
  lemma SingleParentHasNoCycleBelowTop(last: map<Id, Span>)
    requires SingleParent(last)
    ensures !CycleBelowTop(last)
  {
    hide SingleParent, ParentOf, IsEdge, Descends, Under, GroundedAt;
    if CycleBelowTop(last) {
      var t, c, m: nat :| IsReturnedTop(last, t) && Descends(last, t, c, m) && OnParentCycle(last, c);
      var k: nat :| k > 0 && Descends(last, c, c, k);
      var parent := ParentOf(last);
      DescendsIsUnder(last, t, c, m);
      DescendsIsUnder(last, c, c, k);
      if t in parent {
        EdgeIsParent(last, parent[t], t);
      }
      NoParentIsGround(parent, t);
      DepthAdds(parent, c, t, m, 0);
      DepthAdds(parent, c, c, k, m);
      DepthIsUnique(parent, c, m, m + k);
    }
  }

  lemma {:induction false} CountOnce(s: seq<Id>, c: Id)
    requires NoDuplicates(s)
    ensures multiset(s)[c] == if c in s then 1 else 0
  {
    if s != [] {
      var init, x := s[..|s| - 1], s[|s| - 1];
      assert s == init + [x];
      CountOnce(init, c);
    }
  }

  /** Where some parentless node is returned more than once or not at all, the number of visits is off. */
  lemma OtherwiseCountIsOff(spanTree: seq<TreeNode>, missingSpanTree: seq<TreeNode>, nodes: map<Id, TreeNode>,
                            repr: set<TreeNode>, spans: seq<Span>, traceIds: set<string>)
    requires IsArena(nodes, repr, spans) && SingleParent(LastSpans(spans)) && !ReturnsOnce(LastSpans(spans))
    requires CopiesAre(spanTree, missingSpanTree, nodes, LastSpans(spans), traceIds)
    requires forall t :: t in traceIds <==> IsTraceId(LastSpans(spans), LastSpans(spans).Keys, t)
    requires AllEndWithin(KidsOf(nodes), IdsOf(spanTree + missingSpanTree), |nodes|)
    ensures |WalkAll(KidsOf(nodes), IdsOf(spanTree + missingSpanTree), 1, |nodes|)|
      != |GroundedSpans(LastSpans(spans))| + |MissingIds(LastSpans(spans))|
  {
    hide *;
    var last, kids, ids := LastSpans(spans), KidsOf(nodes), IdsOf(spanTree + missingSpanTree);
    var tops := TopsOf(nodes, repr, spans);
    WalkVisitsGrounded(nodes, repr, spans, tops);
    VisitedIds(WalkAll(kids, tops, 1, |nodes|), last);
    var odd := OddTop(last);
    if |traceIds| == 0 {
      CopiesCompare(spanTree, missingSpanTree, nodes, repr, spans, traceIds, tops, odd);
      MoreStartsMoreVisits(kids, ids, tops, 1, |nodes|);
    } else {
      NotOneTraceId(last, traceIds);
      CopiesCompare(spanTree, missingSpanTree, nodes, repr, spans, traceIds, tops, odd);
      MoreStartsMoreVisits(kids, tops, ids, 1, |nodes|);
    }
  }

  lemma TopsOf(nodes: map<Id, TreeNode>, repr: set<TreeNode>, spans: seq<Span>) returns (tops: seq<Id>)
    requires IsArena(nodes, repr, spans) && SingleParent(LastSpans(spans))
    ensures NoDuplicates(tops) && AreTops(KidsOf(nodes), ParentOf(LastSpans(spans)), tops)
    ensures forall c :: c in tops <==> IsParentless(LastSpans(spans), c)
  {
    hide IsArena, LastSpans, ParentOf, SingleParent, IsTop, IsParentless;
    var last := LastSpans(spans);
    tops := SeqOf(set c | c in nodes && c !in ParentOf(last));
    TopsHaveNoParent(nodes, repr, spans);
    forall c ensures IsTop(nodes, last, c) <==> IsParentless(last, c) {
      TopIsParentless(nodes, repr, spans, c);
    }
  }

  lemma OddTop(last: map<Id, Span>) returns (odd: Id)
    requires !ReturnsOnce(last)
    ensures IsParentless(last, odd) && !NamesNoParent(last, odd)
  {
    odd :| IsParentless(last, odd) && !NamesNoParent(last, odd);
  }

  lemma NotOneTraceId(last: map<Id, Span>, traceIds: set<string>)
    requires !ReturnsOnce(last) && forall t :: t in traceIds <==> IsTraceId(last, last.Keys, t)
    ensures |traceIds| != 1
  {
    OneTraceId(last, traceIds);
  }

  lemma CopiesCompare(spanTree: seq<TreeNode>, missingSpanTree: seq<TreeNode>, nodes: map<Id, TreeNode>,
                      repr: set<TreeNode>, spans: seq<Span>, traceIds: set<string>, tops: seq<Id>, odd: Id)
    requires IsArena(nodes, repr, spans) && CopiesAre(spanTree, missingSpanTree, nodes, LastSpans(spans), traceIds)
    requires NoDuplicates(tops) && forall c :: c in tops <==> IsParentless(LastSpans(spans), c)
    requires IsParentless(LastSpans(spans), odd) && !NamesNoParent(LastSpans(spans), odd)
    ensures var ids := IdsOf(spanTree + missingSpanTree);
      && (|traceIds| == 0 ==> multiset(ids) <= multiset(tops) && |ids| < |tops|)
      && (|traceIds| > 1 ==> multiset(tops) <= multiset(ids) && |tops| < |ids|)
  {
    hide IsArena, LastSpans, CopiesAre, IsTop, IsRoot, IsParentless, NamesNoParent, Occurs, NoDuplicates;
    var last, ids := LastSpans(spans), IdsOf(spanTree + missingSpanTree);
    forall c ensures multiset(ids)[c] ==
      if c !in tops then 0 else if NamesNoParent(last, c) then 1 else |traceIds|
    {
      OccursIsMultiplicity(spanTree + missingSpanTree, c);
      OccursConcat(spanTree, missingSpanTree, c);
      CopiesOf(spanTree, missingSpanTree, nodes, last, traceIds, c);
      TopIsParentless(nodes, repr, spans, c);
    }
    forall c ensures multiset(tops)[c] == if c in tops then 1 else 0 {
      CountOnce(tops, c);
    }
    if |traceIds| == 0 {
      StrictlyMore(multiset(ids), multiset(tops), odd);
    } else if |traceIds| > 1 {
      StrictlyMore(multiset(tops), multiset(ids), odd);
    }
  }

  lemma StrictlyMore(a: multiset<Id>, b: multiset<Id>, x: Id)
    requires forall c :: a[c] <= b[c]
    requires a[x] < b[x]
    ensures a <= b && |a| < |b|
  {
    assert b == a + (b - a) && (b - a)[x] > 0;
  }

  /** The numbers read off the returned trees sum up the trace precisely if every parentless node is returned once. */
  lemma SumsUpIff(spanTree: seq<TreeNode>, missingSpanTree: seq<TreeNode>, nodes: map<Id, TreeNode>,
                  repr: set<TreeNode>, spans: seq<Span>, traceIds: set<string>, s: Summary)
    requires IsArena(nodes, repr, spans) && SingleParent(LastSpans(spans))
    requires CopiesAre(spanTree, missingSpanTree, nodes, LastSpans(spans), traceIds)
    requires forall t :: t in traceIds <==> IsTraceId(LastSpans(spans), LastSpans(spans).Keys, t)
    requires AllEndWithin(KidsOf(nodes), IdsOf(spanTree + missingSpanTree), |nodes|)
    requires FoldMeans(s, WalkAll(KidsOf(nodes), IdsOf(spanTree + missingSpanTree), 1, |nodes|), InfoOf(nodes))
    ensures SumsUp(s, LastSpans(spans)) <==> ReturnsOnce(LastSpans(spans))
    ensures ReturnsOnce(LastSpans(spans)) ==>
      VisitsGrounded(WalkAll(KidsOf(nodes), IdsOf(spanTree + missingSpanTree), 1, |nodes|), LastSpans(spans))
  {
    hide IsArena, LastSpans, CopiesAre, SingleParent, ReturnsOnce, WalkAll, KidsOf, GroundedSpans, MissingIds,
         AllEndWithin, VisitsGrounded, AreTops, NoDuplicates, ParentOf, InfoOf, InfoIs, IsTraceId, AtLevel;
    var last := LastSpans(spans);
    if ReturnsOnce(last) {
      ReturnedAreTops(spanTree, missingSpanTree, nodes, repr, spans, traceIds);
      WalkVisitsGrounded(nodes, repr, spans, IdsOf(spanTree + missingSpanTree));
      InfoAgrees(nodes, repr, spans);
      FoldSumsUp(s, WalkAll(KidsOf(nodes), IdsOf(spanTree + missingSpanTree), 1, |nodes|), last, InfoOf(nodes));
    } else {
      OtherwiseCountIsOff(spanTree, missingSpanTree, nodes, repr, spans, traceIds);
    }
  }

  // ---- The two programs in a row ----

  /** A walk looks every span up under its own id and finds nothing under a placeholder's. */
  ghost function SpansOf(last: map<Id, Span>): SpanOf {
    map c | c in last.Keys + MissingIds(last) :: Lookup(last, c)
  }

  lemma InfoIsSpans(nodes: map<Id, TreeNode>, repr: set<TreeNode>, spans: seq<Span>)
    requires IsArena(nodes, repr, spans)
    ensures InfoOf(nodes) == SpansOf(LastSpans(spans))
  {
    hide IsArena, LastSpans;
    NodesAre(nodes, repr, spans);
  }

  /** A span list turned into trees and summed up, wherever the recursion ends. The ghost result is the walk: it meets
      a node at a level once for every chain of that many references up to the start of a returned tree, and the numbers
      are those of the walk. For at most one parent reference per span they sum up the trace exactly if every parentless
      node is returned once, and the walk then meets every grounded span and every missing parent exactly once. */
  method SummarizeTrace(spans: seq<Span>, colours: map<string, string>)
    returns (s: Summary, spread: Option<real>, ghost w: seq<Visit>)
    requires !CycleBelowTop(LastSpans(spans))
    ensures VisitsChains(w, LastSpans(spans))
    ensures forall v :: v in w <==> IsReached(LastSpans(spans), v)
    ensures FoldMeans(s, w, SpansOf(LastSpans(spans)))
    ensures spread == if s.globalStart.Some? && s.globalEnd.Some? then Some(s.globalEnd.value - s.globalStart.value)
                      else None
    ensures SingleParent(LastSpans(spans)) ==> (SumsUp(s, LastSpans(spans)) <==> ReturnsOnce(LastSpans(spans)))
    ensures SingleParent(LastSpans(spans)) && ReturnsOnce(LastSpans(spans)) ==> VisitsGrounded(w, LastSpans(spans))
  {
    hide *;
    var spanTree, missingSpanTree, nodes, repr, traceIds := SpanToTreeUtil(spans);
    ghost var last, kids, ids := LastSpans(spans), KidsOf(nodes), IdsOf(spanTree + missingSpanTree);
    CopiesFromParts(spanTree, missingSpanTree, nodes, last, traceIds);
    ReturnedAreReturnedTops(spanTree, missingSpanTree, nodes, repr, spans, traceIds);
    TraversalEndsIff(nodes, repr, spans, ids);
    ArenaMirrors(nodes, repr, spans);
    InfoIsSpans(nodes, repr, spans);
    w := WalkAll(kids, ids, 1, |nodes|);
    WalkVisitsChains(spanTree, missingSpanTree, nodes, repr, spans, traceIds);
    forall v ensures v in w <==> IsReached(last, v) {
      WalkReaches(nodes, repr, spans, ids, v);
    }
    forall sum | SingleParent(last) && FoldMeans(sum, w, InfoOf(nodes))
      ensures SumsUp(sum, last) <==> ReturnsOnce(last)
      ensures ReturnsOnce(last) ==> VisitsGrounded(w, last)
    {
      SumsUpIff(spanTree, missingSpanTree, nodes, repr, spans, traceIds, sum);
    }
    s, spread := GetSpanTreeMetadata(spanTree, missingSpanTree, colours, nodes, repr, kids, |nodes|);
  }
}
