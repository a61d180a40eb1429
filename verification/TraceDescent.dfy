/** When the recursion over the returned trees ends and what it meets, for spans with any number of references. */
module TraceDescent {
  import opened Wrappers
  import opened SpanGraph
  import opened SpanForest
  import opened SpanTreeMetadata
  import opened S = SpanToTree
  import opened TraceArena

  // ---- What the span list says ----

  /** A reference of c names p, and p is an id that gets a node. */
  ghost predicate IsEdge(last: map<Id, Span>, p: Id, c: Id) {
    c in last && RefCount(last[c].childOf, p) > 0 && (p != "" || "" in last)
  }

  /** m edges lead from a down to c. */
  ghost predicate Descends(last: map<Id, Span>, a: Id, c: Id, m: nat)
    decreases m
  {
    if m == 0 then a == c else exists x :: IsEdge(last, a, x) && Descends(last, x, c, m - 1)
  }

  /** c is its own ancestor. */
  ghost predicate OnParentCycle(last: map<Id, Span>, c: Id) {
    exists m: nat :: m > 0 && Descends(last, c, c, m)
  }

  ghost predicate IsNodeId(last: map<Id, Span>, c: Id) {
    c in last || c in MissingIds(last)
  }

  ghost predicate IsParentless(last: map<Id, Span>, c: Id) {
    IsNodeId(last, c) && forall p :: !IsEdge(last, p, c)
  }

  /** c is a root: one of its references names the empty id. */
  ghost predicate NamesNoParent(last: map<Id, Span>, c: Id) {
    c in last && RefCount(last[c].childOf, "") > 0
  }

  /** A parentless node is returned if it is a root or some span names a trace. */
  ghost predicate IsReturnedTop(last: map<Id, Span>, c: Id) {
    IsParentless(last, c) && (NamesNoParent(last, c) || exists t :: IsTraceId(last, last.Keys, t))
  }

  /** A node on a parent cycle has a returned parentless node among its ancestors. */
  ghost predicate CycleBelowTop(last: map<Id, Span>) {
    exists t, c, m: nat :: IsReturnedTop(last, t) && Descends(last, t, c, m) && OnParentCycle(last, c)
  }

  ghost predicate ChainsShorterThan(last: map<Id, Span>, n: int) {
    forall t, c, m: nat :: IsReturnedTop(last, t) && Descends(last, t, c, m) ==> m < n
  }

  // ---- The child lists say the same ----

  lemma ArenaKids(nodes: map<Id, TreeNode>, repr: set<TreeNode>, spans: seq<Span>)
    requires IsArena(nodes, repr, spans)
    ensures var last, kids := LastSpans(spans), KidsOf(nodes);
      && kids.Keys == nodes.Keys && IsClosed(kids)
      && (forall c :: c in nodes <==> IsNodeId(last, c))
      && (forall p, c :: IsEdge(last, p, c) <==> p in kids && c in kids[p])
  {
    hide HasKids, LastSpans, MissingIds;
    var last, kids := LastSpans(spans), KidsOf(nodes);
    ArenaFacts(nodes, repr, spans);
    NodesAre(nodes, repr, spans);
    KidsAre(nodes);
    forall p, c ensures IsEdge(last, p, c) <==> p in kids && c in kids[p] {
      if c in last && RefCount(last[c].childOf, p) > 0 && (p != "" || "" in last) {
        assert IsNode(last, last.Keys, p);
      }
      if p in nodes {
        OccursMeansListed(nodes[p].children, c);
        KidsCount(nodes[p].children, p, nodes, last, c);
      }
    }
    forall p, c | p in kids && c in kids[p] ensures c in kids {
      assert IsEdge(last, p, c);
    }
  }

  lemma KidsCount(children: seq<TreeNode>, p: Id, nodes: map<Id, TreeNode>, last: map<Id, Span>, c: Id)
    requires HasKids(children, p, nodes, AllEdges(last, last.Keys))
    ensures Occurs(children, c) == if c in last then RefCount(last[c].childOf, p) else 0
  {
  }

  lemma {:induction false} DownIsDescent(kids: map<Id, seq<Id>>, last: map<Id, Span>, a: Id, c: Id, m: nat)
    requires forall p, x :: IsEdge(last, p, x) <==> p in kids && x in kids[p]
    ensures Down(kids, a, c, m) <==> Descends(last, a, c, m)
    decreases m
  {
    if m > 0 {
      if Down(kids, a, c, m) {
        var x :| x in kids[a] && Down(kids, x, c, m - 1);
        DownIsDescent(kids, last, x, c, m - 1);
        assert IsEdge(last, a, x);
      }
      if Descends(last, a, c, m) {
        var x :| IsEdge(last, a, x) && Descends(last, x, c, m - 1);
        DownIsDescent(kids, last, x, c, m - 1);
        assert x in kids[a] && Down(kids, x, c, m - 1);
      }
    }
  }

  ghost predicate SameChains(kids: map<Id, seq<Id>>, last: map<Id, Span>) {
    forall a, c, m: nat :: Down(kids, a, c, m) <==> Descends(last, a, c, m)
  }

  lemma ArenaChains(nodes: map<Id, TreeNode>, repr: set<TreeNode>, spans: seq<Span>)
    requires IsArena(nodes, repr, spans)
    ensures SameChains(KidsOf(nodes), LastSpans(spans))
    ensures KidsOf(nodes).Keys == nodes.Keys && IsClosed(KidsOf(nodes))
    ensures forall c :: IsReturnedTop(LastSpans(spans), c) ==> c in nodes
  {
    hide IsArena, IsEdge, LastSpans, Down, Descends;
    ArenaKids(nodes, repr, spans);
    forall a, c, m: nat ensures Down(KidsOf(nodes), a, c, m) <==> Descends(LastSpans(spans), a, c, m) {
      DownIsDescent(KidsOf(nodes), LastSpans(spans), a, c, m);
    }
  }

  lemma LoopsAreCycles(kids: map<Id, seq<Id>>, last: map<Id, Span>)
    requires SameChains(kids, last)
    ensures forall c :: OnLoop(kids, c) <==> OnParentCycle(last, c)
    ensures CycleBelowTop(last) <==> exists t :: IsReturnedTop(last, t) && LoopBelow(kids, t)
  {
    hide Down, Descends, IsReturnedTop;
    if CycleBelowTop(last) {
      var t, c, m: nat :| IsReturnedTop(last, t) && Descends(last, t, c, m) && OnParentCycle(last, c);
      assert Down(kids, t, c, m) && OnLoop(kids, c);
    }
    if t :| IsReturnedTop(last, t) && LoopBelow(kids, t) {
      var c, m: nat :| Down(kids, t, c, m) && OnLoop(kids, c);
      assert Descends(last, t, c, m) && OnParentCycle(last, c);
    }
  }

  // ---- Termination ----

  ghost function SeqOf(ids: set<Id>): (s: seq<Id>)
    ensures NoDuplicates(s) && forall c :: c in s <==> c in ids
    decreases |ids|
  {
    if ids == {} then []
    else
      var c :| c in ids;
      var rest := SeqOf(ids - {c});
      assert forall x :: x in [c] + rest <==> x == c || x in rest;
      [c] + rest
  }

  /** The child lists that a span list gives, each child once. */
  ghost function ChildIds(last: map<Id, Span>): map<Id, seq<Id>> {
    map p | p in last.Keys + MissingIds(last) :: SeqOf(set c | c in last && IsEdge(last, p, c))
  }

  lemma ChildIdsAreEdges(last: map<Id, Span>)
    ensures ChildIds(last).Keys == last.Keys + MissingIds(last) && IsClosed(ChildIds(last))
    ensures forall p, c :: IsEdge(last, p, c) <==> p in ChildIds(last) && c in ChildIds(last)[p]
  {
    forall p, c | IsEdge(last, p, c) ensures p in last.Keys + MissingIds(last) {
      var i := ReferenceTo(last[c].childOf, p);
    }
  }

  /** Chains below the returned parentless nodes are bounded, then by the number of nodes, exactly when none of them
      leads to a cycle of parents. */
  lemma ChainsBoundedIff(last: map<Id, Span>)
    ensures (exists n :: ChainsShorterThan(last, n)) <==> !CycleBelowTop(last)
    ensures !CycleBelowTop(last) <==> ChainsShorterThan(last, |last.Keys + MissingIds(last)|)
  {
    hide *;
    var kids := ChildIds(last);
    ChildIdsAreEdges(last);
    forall a, c, m: nat ensures Down(kids, a, c, m) <==> Descends(last, a, c, m) {
      DownIsDescent(kids, last, a, c, m);
    }
    SameChainsAll(kids, last);
    TopsAreNodes(last);
    LoopsAreCycles(kids, last);
    assert |kids| == |kids.Keys|;
    if !CycleBelowTop(last) {
      AcyclicIsBounded(kids, last);
    } else {
      forall n ensures !ChainsShorterThan(last, n) {
        CyclicIsUnbounded(kids, last, n);
      }
    }
  }

  lemma SameChainsAll(kids: map<Id, seq<Id>>, last: map<Id, Span>)
    requires forall a, c, m: nat :: Down(kids, a, c, m) <==> Descends(last, a, c, m)
    ensures SameChains(kids, last)
  {
  }

  lemma TopsAreNodes(last: map<Id, Span>)
    ensures forall c :: IsReturnedTop(last, c) ==> c in last.Keys + MissingIds(last)
  {
  }

  lemma SameSize<T, U>(a: map<Id, T>, b: map<Id, U>)
    requires a.Keys == b.Keys
    ensures |a| == |b|
  {
    assert |a| == |a.Keys| && |b| == |b.Keys|;
  }

  lemma AcyclicIsBounded(kids: map<Id, seq<Id>>, last: map<Id, Span>)
    requires SameChains(kids, last) && IsClosed(kids) && forall t :: IsReturnedTop(last, t) ==> t in kids
    requires forall t :: IsReturnedTop(last, t) ==> !LoopBelow(kids, t)
    ensures ChainsShorterThan(last, |kids|)
  {
    hide Down, Descends, IsReturnedTop, LoopBelow, EndsWithin;
    forall t, c, m: nat | IsReturnedTop(last, t) && Descends(last, t, c, m) ensures m < |kids| {
      EndsUnlessLoop(kids, t);
      EndsBoundsChains(kids, t, |kids|, c, m);
    }
  }

  lemma CyclicIsUnbounded(kids: map<Id, seq<Id>>, last: map<Id, Span>, n: int)
    requires SameChains(kids, last) && exists t :: IsReturnedTop(last, t) && LoopBelow(kids, t)
    ensures !ChainsShorterThan(last, n)
  {
    hide Down, Descends, IsReturnedTop;
    var t :| IsReturnedTop(last, t) && LoopBelow(kids, t);
    var c, m: nat :| Down(kids, t, c, m) && OnLoop(kids, c);
    var k: nat :| k > 0 && Down(kids, c, c, k);
    var long := LoopNeverEnds(kids, c, k, if n < 0 then 0 else n);
    DownTransitive(kids, t, c, c, m, long);
    assert Descends(last, t, c, m + long);
  }

  /** The recursion over the returned trees ends exactly when no returned parentless node has a parent cycle below it;
      it then nests at most as many calls as there are nodes. */
  lemma TraversalEndsIff(nodes: map<Id, TreeNode>, repr: set<TreeNode>, spans: seq<Span>, returned: seq<Id>)
    requires IsArena(nodes, repr, spans)
    requires forall c :: c in returned <==> IsReturnedTop(LastSpans(spans), c)
    ensures (forall c :: c in returned ==> Ends(KidsOf(nodes), c)) <==> !CycleBelowTop(LastSpans(spans))
    ensures !CycleBelowTop(LastSpans(spans)) ==> AllEndWithin(KidsOf(nodes), returned, |nodes|)
  {
    hide IsArena, LastSpans, KidsOf, IsReturnedTop, LoopBelow, EndsWithin, Ends, IsClosed, CycleBelowTop, SameChains;
    var last, kids := LastSpans(spans), KidsOf(nodes);
    ArenaChains(nodes, repr, spans);
    LoopsAreCycles(kids, last);
    SameSize(kids, nodes);
    forall c | c in returned
      ensures Ends(kids, c) <==> !LoopBelow(kids, c)
      ensures Ends(kids, c) <==> EndsWithin(kids, c, |nodes|)
    {
      EndsUnlessLoop(kids, c);
    }
  }

  // ---- What the recursion meets ----

  /** A chain of edges leads from a returned parentless node to the visited node, one link less than its level. */
  ghost predicate IsReached(last: map<Id, Span>, v: Visit) {
    v.level >= 1 && exists t :: IsReturnedTop(last, t) && Descends(last, t, v.id, v.level - 1)
  }

  lemma WalkReaches(nodes: map<Id, TreeNode>, repr: set<TreeNode>, spans: seq<Span>, returned: seq<Id>, v: Visit)
    requires IsArena(nodes, repr, spans) && AllEndWithin(KidsOf(nodes), returned, |nodes|)
    requires forall c :: c in returned <==> IsReturnedTop(LastSpans(spans), c)
    ensures v in WalkAll(KidsOf(nodes), returned, 1, |nodes|) <==> IsReached(LastSpans(spans), v)
  {
    hide IsArena, LastSpans, KidsOf, IsReturnedTop, AllEndWithin, WalkAll, Down, Descends, IsClosed;
    ArenaChains(nodes, repr, spans);
    WalkAllVisits(KidsOf(nodes), returned, 1, |nodes|, v);
  }

  // ---- Which trees are returned ----

  /** The returned trees start at the returned parentless nodes. */
  lemma ReturnedAreReturnedTops(spanTree: seq<TreeNode>, missingSpanTree: seq<TreeNode>, nodes: map<Id, TreeNode>,
                                repr: set<TreeNode>, spans: seq<Span>, traceIds: set<string>)
    requires IsArena(nodes, repr, spans) && CopiesAre(spanTree, missingSpanTree, nodes, LastSpans(spans), traceIds)
    requires forall t :: t in traceIds <==> IsTraceId(LastSpans(spans), LastSpans(spans).Keys, t)
    ensures forall c :: c in IdsOf(spanTree + missingSpanTree) <==> IsReturnedTop(LastSpans(spans), c)
  {
    hide IsArena, LastSpans, CopiesAre, IsParentless, NamesNoParent, IsTraceId, Occurs, IsTop, IsRoot;
    var last := LastSpans(spans);
    forall c ensures c in IdsOf(spanTree + missingSpanTree) <==> IsReturnedTop(last, c) {
      OccursMeansListed(spanTree + missingSpanTree, c);
      OccursConcat(spanTree, missingSpanTree, c);
      CopiesOf(spanTree, missingSpanTree, nodes, last, traceIds, c);
      TopIsParentless(nodes, repr, spans, c);
      SomeTraceId(last, traceIds);
    }
  }

  lemma CopiesOf(spanTree: seq<TreeNode>, missingSpanTree: seq<TreeNode>, nodes: map<Id, TreeNode>,
                 last: map<Id, Span>, traceIds: set<string>, c: Id)
    requires CopiesAre(spanTree, missingSpanTree, nodes, last, traceIds)
    ensures Occurs(spanTree, c) + Occurs(missingSpanTree, c)
      == if !IsTop(nodes, last, c) then 0 else if IsRoot(nodes[c]) then 1 else |traceIds|
  {
  }

  lemma SomeTraceId(last: map<Id, Span>, traceIds: set<string>)
    requires forall t :: t in traceIds <==> IsTraceId(last, last.Keys, t)
    ensures |traceIds| > 0 <==> exists t :: IsTraceId(last, last.Keys, t)
  {
    if |traceIds| > 0 {
      var t :| t in traceIds;
    }
  }

  lemma TopIsParentless(nodes: map<Id, TreeNode>, repr: set<TreeNode>, spans: seq<Span>, c: Id)
    requires IsArena(nodes, repr, spans)
    ensures var last := LastSpans(spans);
      && (IsTop(nodes, last, c) <==> IsParentless(last, c))
      && (IsTop(nodes, last, c) ==> (IsRoot(nodes[c]) <==> NamesNoParent(last, c)))
  {
    hide IsArena, LastSpans, MissingIds;
    var last := LastSpans(spans);
    NodesAre(nodes, repr, spans);
    if c in last {
      if HasParent(last, last[c].childOf) {
        var q :| RefCount(last[c].childOf, q) > 0 && (q != "" || "" in last);
        assert IsEdge(last, q, c);
      }
      if RefCount(last[c].childOf, "") > 0 {
        var i := ReferenceTo(last[c].childOf, "");
      }
      if i :| 0 <= i < |last[c].childOf| && last[c].childOf[i].spanId == "" {
        RefCountAt(last[c].childOf, i);
      }
    }
  }

  ghost predicate IsOnlyTraceId(last: map<Id, Span>, t: string) {
    forall x :: IsTraceId(last, last.Keys, x) <==> x == t
  }

  /** The spans name exactly one trace, or every parentless node is a root. */
  ghost predicate ReturnsOnce(last: map<Id, Span>) {
    (exists t :: IsOnlyTraceId(last, t)) || forall c :: IsParentless(last, c) ==> NamesNoParent(last, c)
  }

  /** Every parentless node starts exactly one returned tree precisely under that condition on the spans. */
  lemma ReturnedOnceIff(spanTree: seq<TreeNode>, missingSpanTree: seq<TreeNode>, nodes: map<Id, TreeNode>,
                        repr: set<TreeNode>, spans: seq<Span>, traceIds: set<string>)
    requires IsArena(nodes, repr, spans) && CopiesAre(spanTree, missingSpanTree, nodes, LastSpans(spans), traceIds)
    requires forall t :: t in traceIds <==> IsTraceId(LastSpans(spans), LastSpans(spans).Keys, t)
    ensures (forall c :: IsParentless(LastSpans(spans), c) ==> Occurs(spanTree + missingSpanTree, c) == 1)
      <==> ReturnsOnce(LastSpans(spans))
  {
    hide IsArena, LastSpans, CopiesAre, IsParentless, NamesNoParent, IsTraceId, Occurs, IsTop, IsRoot;
    var last := LastSpans(spans);
    OneTraceId(last, traceIds);
    forall c | IsParentless(last, c)
      ensures Occurs(spanTree + missingSpanTree, c) == if NamesNoParent(last, c) then 1 else |traceIds|
    {
      OccursConcat(spanTree, missingSpanTree, c);
      CopiesOf(spanTree, missingSpanTree, nodes, last, traceIds, c);
      TopIsParentless(nodes, repr, spans, c);
    }
  }

  lemma OneTraceId(last: map<Id, Span>, traceIds: set<string>)
    requires forall t :: t in traceIds <==> IsTraceId(last, last.Keys, t)
    ensures |traceIds| == 1 <==> exists t :: IsOnlyTraceId(last, t)
  {
    hide IsTraceId;
    if t :| IsOnlyTraceId(last, t) {
      assert traceIds == {t};
    }
    if |traceIds| == 1 {
      var t :| t in traceIds;
      OnlyElement(traceIds, t);
      assert IsOnlyTraceId(last, t);
    }
  }

  lemma OnlyElement(s: set<string>, t: string)
    requires |s| == 1 && t in s
    ensures s == {t}
  {
    assert |s - {t}| == 0;
  }

  // ---- A trace on which the recursion does not end ----

  function SpanWith(id: Id, parents: seq<Id>): Span {
    Span(id, 0.0, 0.0, "", false, seq(|parents|, i requires 0 <= i < |parents| => Reference(parents[i], "t")))
  }

  /** A root, a span below the root and below its own child, and that child. */
  function LoopingSpans(): seq<Span> {
    [] + [SpanWith("r", [""])] + [SpanWith("a", ["r", "b"])] + [SpanWith("b", ["a"])]
  }

  lemma LastOneMore(spans: seq<Span>, span: Span)
    ensures LastSpans(spans + [span]) == LastSpans(spans)[span.id := span]
  {
    assert (spans + [span])[..|spans|] == spans;
  }

  /** The root of these spans is returned and has the cycle below it: with two parents the recursion need not end. */
  lemma TwoParentsCanLoop()
    ensures IsReturnedTop(LastSpans(LoopingSpans()), "r") && CycleBelowTop(LastSpans(LoopingSpans()))
  {
    hide LastSpans, Descends;
    var r, a, b := SpanWith("r", [""]), SpanWith("a", ["r", "b"]), SpanWith("b", ["a"]);
    LastOneMore([] + [r] + [a], b);
    LastOneMore([] + [r], a);
    LastOneMore([], r);
    var last := LastSpans(LoopingSpans());
    EmptyLast();
    assert last == map["r" := r, "a" := a, "b" := b];
    RefCountAt(r.childOf, 0);
    assert IsReturnedTop(last, "r") by {
      forall p ensures !IsEdge(last, p, "r") {
        OnlyReference(r.childOf, p);
      }
    }
    RefCountAt(a.childOf, 0);
    RefCountAt(a.childOf, 1);
    RefCountAt(b.childOf, 0);
    OneEdge(last, "r", "a");
    OneEdge(last, "a", "b");
    TwoEdges(last, "a", "b", "a");
    assert OnParentCycle(last, "a");
  }

  /** So on these spans the recursion over the returned trees ends in no number of calls. */
  lemma LoopingSpansNeverEnd(nodes: map<Id, TreeNode>, repr: set<TreeNode>, returned: seq<Id>)
    requires IsArena(nodes, repr, LoopingSpans())
    requires forall c :: c in returned <==> IsReturnedTop(LastSpans(LoopingSpans()), c)
    ensures "r" in returned && exists c :: c in returned && !Ends(KidsOf(nodes), c)
    ensures forall n :: !ChainsShorterThan(LastSpans(LoopingSpans()), n)
  {
    hide *;
    TwoParentsCanLoop();
    TraversalEndsIff(nodes, repr, LoopingSpans(), returned);
    ChainsBoundedIff(LastSpans(LoopingSpans()));
  }

  lemma EmptyLast()
    ensures LastSpans([]) == map[]
  {
  }

  lemma OnlyReference(refs: seq<Reference>, p: Id)
    requires |refs| == 1
    ensures RefCount(refs, p) > 0 ==> p == refs[0].spanId
  {
    assert refs[..|refs| - 1] == [] && RefCount([], p) == 0;
  }

  lemma OneEdge(last: map<Id, Span>, a: Id, b: Id)
    requires IsEdge(last, a, b)
    ensures Descends(last, a, b, 1)
  {
    assert Descends(last, b, b, 0);
  }

  lemma TwoEdges(last: map<Id, Span>, a: Id, b: Id, c: Id)
    requires IsEdge(last, a, b) && IsEdge(last, b, c)
    ensures Descends(last, a, c, 2)
  {
    OneEdge(last, b, c);
  }
}
