/** The arena of nodes that spanToTreeUtil leaves behind, read as child lists, and getSpanTreeMetadata on it. */
module TraceArena {
  import opened Wrappers
  import opened SpanGraph
  import opened SpanForest
  import opened SpanTreeMetadata
  import opened S = SpanToTree

  ghost function KidsOf(nodes: map<Id, TreeNode>): map<Id, seq<Id>>
    reads set p | p in nodes :: nodes[p]
  {
    map p | p in nodes :: IdsOf(nodes[p].children)
  }

  lemma {:induction false} OccursMeansListed(s: seq<TreeNode>, c: Id)
    ensures Occurs(s, c) > 0 <==> c in IdsOf(s)
    ensures (forall x :: Occurs(s, x) <= 1) ==> NoDuplicates(IdsOf(s))
  {
    if s != [] {
      var init, x := s[..|s| - 1], s[|s| - 1].id;
      assert IdsOf(s) == IdsOf(init) + [x];
      OccursMeansListed(init, c);
      OccursMeansListed(init, x);
      assert forall y :: Occurs(init, y) <= Occurs(s, y);
    }
  }

  lemma {:induction false} OccursIsMultiplicity(s: seq<TreeNode>, c: Id)
    ensures multiset(IdsOf(s))[c] == Occurs(s, c)
  {
    if s != [] {
      OccursIsMultiplicity(s[..|s| - 1], c);
      assert IdsOf(s) == IdsOf(s[..|s| - 1]) + [s[|s| - 1].id];
    }
  }

  lemma KidsAre(nodes: map<Id, TreeNode>)
    ensures KidsOf(nodes).Keys == nodes.Keys
    ensures forall p :: p in nodes ==> KidsOf(nodes)[p] == IdsOf(nodes[p].children)
  {
  }

  lemma ArenaFacts(nodes: map<Id, TreeNode>, repr: set<TreeNode>, spans: seq<Span>)
    requires IsArena(nodes, repr, spans)
    ensures var last := LastSpans(spans);
      && ("" in nodes ==> "" in last)
      && (forall p :: p in nodes ==>
            nodes[p] in repr && nodes[p].id == p && HasKids(nodes[p].children, p, nodes, AllEdges(last, last.Keys)))
      && (forall p, i :: p in nodes && 0 <= i < |nodes[p].children| ==>
            var c := nodes[p].children[i]; c.id in nodes && nodes[c.id] == c)
  {
  }

  lemma ArenaMirrors(nodes: map<Id, TreeNode>, repr: set<TreeNode>, spans: seq<Span>)
    requires IsArena(nodes, repr, spans)
    ensures Mirrors(nodes, repr, KidsOf(nodes))
  {
    hide IsArena, HasKids, LastSpans, AllEdges;
    ArenaFacts(nodes, repr, spans);
  }

  /** The ids that spans refer to but that no span has. */
  ghost function MissingIds(last: map<Id, Span>): set<Id> {
    set c, i | c in last && 0 <= i < |last[c].childOf| && last[c].childOf[i].spanId !in last
      && last[c].childOf[i].spanId != "" :: last[c].childOf[i].spanId
  }

  lemma NodesAre(nodes: map<Id, TreeNode>, repr: set<TreeNode>, spans: seq<Span>)
    requires IsArena(nodes, repr, spans)
    ensures nodes.Keys == LastSpans(spans).Keys + MissingIds(LastSpans(spans))
    ensures forall p :: p in nodes ==> nodes[p].span == Lookup(LastSpans(spans), p)
  {
    var last := LastSpans(spans);
    forall p ensures p in nodes <==> p in last || p in MissingIds(last) {
      if p in nodes && p !in last {
        var c :| c in last && RefCount(last[c].childOf, p) > 0;
        var i := ReferenceTo(last[c].childOf, p);
      }
      if p in MissingIds(last) {
        var c, i :| c in last && 0 <= i < |last[c].childOf| && last[c].childOf[i].spanId == p && p != "";
        RefCountAt(last[c].childOf, i);
      }
    }
  }

  lemma {:induction false} ReferenceTo(refs: seq<Reference>, p: Id) returns (i: nat)
    requires RefCount(refs, p) > 0
    ensures i < |refs| && refs[i].spanId == p
  {
    if refs[|refs| - 1].spanId == p {
      i := |refs| - 1;
    } else {
      i := ReferenceTo(refs[..|refs| - 1], p);
    }
  }

  /** A walk looks every span up under its own id and finds nothing under a placeholder's. */
  ghost predicate InfoIs(info: SpanOf, last: map<Id, Span>) {
    forall c :: c in last || c in MissingIds(last) ==> SpanAt(info, c) == Lookup(last, c)
  }

  lemma InfoAgrees(nodes: map<Id, TreeNode>, repr: set<TreeNode>, spans: seq<Span>)
    requires IsArena(nodes, repr, spans)
    ensures InfoIs(InfoOf(nodes), LastSpans(spans))
  {
    NodesAre(nodes, repr, spans);
  }

  /** Every reference to a non-empty id puts the span below the node of that id. */
  lemma LinkedBelow(nodes: map<Id, TreeNode>, repr: set<TreeNode>, spans: seq<Span>, c: Id, i: nat)
    requires IsArena(nodes, repr, spans) && c in LastSpans(spans)
    requires i < |LastSpans(spans)[c].childOf| && LastSpans(spans)[c].childOf[i].spanId != ""
    ensures var p := LastSpans(spans)[c].childOf[i].spanId;
      p in nodes && c in nodes && nodes[c] in nodes[p].children
  {
    hide LastSpans;
    var last := LastSpans(spans);
    var p := last[c].childOf[i].spanId;
    RefCountAt(last[c].childOf, i);
    assert IsNode(last, last.Keys, p) && IsNode(last, last.Keys, c);
    OccursMeansListed(nodes[p].children, c);
    var k :| 0 <= k < |nodes[p].children| && IdsOf(nodes[p].children)[k] == c;
  }

  // ---- Which trees are returned ----

  ghost predicate CopiesAre(spanTree: seq<TreeNode>, missingSpanTree: seq<TreeNode>, nodes: map<Id, TreeNode>,
                            last: map<Id, Span>, traceIds: set<string>)
  {
    && (forall c ::
          Occurs(spanTree, c) == if IsTop(nodes, last, c) then TreeCopies(nodes[c], traceIds) else 0)
    && (forall c ::
          Occurs(missingSpanTree, c) == if IsTop(nodes, last, c) then MissingCopies(nodes[c], traceIds) else 0)
  }

  lemma CopiesFromParts(spanTree: seq<TreeNode>, missingSpanTree: seq<TreeNode>, nodes: map<Id, TreeNode>,
                        last: map<Id, Span>, traceIds: set<string>)
    requires forall c :: Occurs(spanTree, c) == if IsTop(nodes, last, c) then TreeCopies(nodes[c], traceIds) else 0
    requires forall c ::
      Occurs(missingSpanTree, c) == if IsTop(nodes, last, c) then MissingCopies(nodes[c], traceIds) else 0
    ensures CopiesAre(spanTree, missingSpanTree, nodes, last, traceIds)
  {
  }

  // ---- What the accumulators mean ----

  ghost predicate SeesSpan(w: seq<Visit>, info: SpanOf, span: Span) {
    exists v :: v in w && SpanAt(info, v.id) == Some(span)
  }

  /** The folded numbers of a walk: how many visits, the deepest level, the least start, the greatest end. */
  ghost predicate FoldMeans(s: Summary, w: seq<Visit>, info: SpanOf) {
    && s.totalSpans == |w|
    && s.levels >= 1 && (forall v :: v in w ==> v.level <= s.levels)
    && (s.levels == 1 || exists v :: v in w && v.level == s.levels)
    && (forall span :: SeesSpan(w, info, span) ==>
          s.globalStart.Some? && s.globalStart.value <= span.startTime
          && s.globalEnd.Some? && span.startTime + span.duration / 1000000.0 <= s.globalEnd.value)
    && (s.globalStart.Some? ==> exists span :: SeesSpan(w, info, span) && span.startTime == s.globalStart.value)
    && (s.globalEnd.Some? ==>
          exists span :: SeesSpan(w, info, span) && span.startTime + span.duration / 1000000.0 == s.globalEnd.value)
  }

  const EMPTY := Summary(None, None, 0, 1)

  lemma {:induction false} FoldIsSummary(w: seq<Visit>, info: SpanOf)
    ensures FoldMeans(Fold(EMPTY, w, info), w, info)
  {
    if w != [] {
      var init, v := w[..|w| - 1], w[|w| - 1];
      FoldIsSummary(init, info);
      assert w == init + [v];
      VisitExtends(Fold(EMPTY, init, info), init, v, info);
    }
  }

  lemma VisitExtends(s: Summary, w: seq<Visit>, v: Visit, info: SpanOf)
    requires FoldMeans(s, w, info)
    ensures FoldMeans(Visited(s, SpanAt(info, v.id), v.level), w + [v], info)
  {
    var s' := Visited(s, SpanAt(info, v.id), v.level);
    assert forall x :: x in w + [v] <==> x in w || x == v;
    assert forall span ::
      SeesSpan(w + [v], info, span) <==> SeesSpan(w, info, span) || SpanAt(info, v.id) == Some(span);
  }

  // ---- getSpanTreeMetadata ----

  /** The two lists of trees traversed one after the other; the recursion nests at most n calls. */
  method GetSpanTreeMetadata(spanTree: seq<TreeNode>, missingSpanTree: seq<TreeNode>, colours: map<string, string>,
                             ghost nodes: map<Id, TreeNode>, ghost repr: set<TreeNode>, ghost kids: map<Id, seq<Id>>,
                             ghost n: nat)
    returns (s: Summary, spread: Option<real>)
    requires Mirrors(nodes, repr, kids) && AllStored(spanTree, nodes) && AllStored(missingSpanTree, nodes)
    requires AllEndWithin(kids, IdsOf(spanTree + missingSpanTree), n)
    modifies repr`serviceColour
    ensures s == Fold(EMPTY, WalkAll(kids, IdsOf(spanTree + missingSpanTree), 1, n), InfoOf(nodes))
    ensures FoldMeans(s, WalkAll(kids, IdsOf(spanTree + missingSpanTree), 1, n), InfoOf(nodes))
    // without a span the infinities leave no spread
    ensures spread == if s.globalStart.Some? && s.globalEnd.Some? then Some(s.globalEnd.value - s.globalStart.value)
                      else None
    ensures Coloured(nodes, repr, WalkAll(kids, IdsOf(spanTree + missingSpanTree), 1, n), colours)
  {
    hide Mirrors, EndsWithin, WalkAll, Fold, Visits, Colour, InfoOf, AllStored, FoldMeans;
    ghost var xs, ys, info := IdsOf(spanTree), IdsOf(missingSpanTree), InfoOf(nodes);
    assert IdsOf(spanTree + missingSpanTree) == xs + ys;
    assert forall c :: c in xs || c in ys ==> c in xs + ys;
    var t := new Traversal();
    t.TraverseAll(spanTree, 1, colours, nodes, repr, kids, n);
    t.TraverseAll(missingSpanTree, 1, colours, nodes, repr, kids, n);
    WalkAllConcat(kids, xs, ys, 1, n);
    FoldConcat(EMPTY, WalkAll(kids, xs, 1, n), WalkAll(kids, ys, 1, n), info);
    VisitsConcat(WalkAll(kids, xs, 1, n), WalkAll(kids, ys, 1, n));
    FoldIsSummary(WalkAll(kids, xs + ys, 1, n), info);
    s := Summary(t.globalStart, t.globalEnd, t.totalSpans, t.levels);
    spread := if t.globalStart.Some? && t.globalEnd.Some? then Some(t.globalEnd.value - t.globalStart.value) else None;
  }
}
