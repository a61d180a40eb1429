/** frontend/src/utils/spanToTree.ts: a list of spans becomes a forest of linked nodes. */
module SpanToTree {
  import opened Wrappers
  import opened SpanGraph

  /** A CHILD_OF reference of a span, as parsed by getSpanReferences. */
  datatype Reference = Reference(spanId: Id, traceId: string)

  datatype Span = Span(
    id: Id, startTime: real, duration: real, serviceName: string, hasError: bool, childOf: seq<Reference>)

  class TreeNode {
    const id: Id
    const span: Option<Span>  // None for a placeholder, which has no times and no references
    var children: seq<TreeNode>
    var isProcessed: bool
    var serviceColour: Option<string>  // None is undefined

    constructor (id: Id, span: Option<Span>)
      ensures this.id == id && this.span == span && children == [] && !isProcessed && serviceColour == Some("")
    {
      this.id, this.span, children, isProcessed, serviceColour := id, span, [], false, Some("");
    }
  }

  /** How many of the nodes have id c. */
  function Occurs(nodes: seq<TreeNode>, c: Id): nat {
    if nodes == [] then 0
    else Occurs(nodes[..|nodes| - 1], c) + if nodes[|nodes| - 1].id == c then 1 else 0
  }

  // ---- What the span list says, independently of any order ----

  /** The span kept for each id: a later span replaces an earlier one. */
  function LastSpans(spans: seq<Span>): map<Id, Span> {
    if spans == [] then map[]
    else LastSpans(spans[..|spans| - 1])[spans[|spans| - 1].id := spans[|spans| - 1]]
  }

  /** Of several spans with one id it is the last in the list. */
  lemma {:induction false} LastSpansAreLast(spans: seq<Span>, id: Id)
    ensures id in LastSpans(spans) <==> exists i :: 0 <= i < |spans| && spans[i].id == id
    ensures forall i :: 0 <= i < |spans| && spans[i].id == id && (forall j :: i < j < |spans| ==> spans[j].id != id) ==>
      LastSpans(spans)[id] == spans[i]
  {
    if spans != [] {
      var n := |spans| - 1;
      LastSpansAreLast(spans[..n], id);
      assert forall i :: 0 <= i < n ==> spans[..n][i] == spans[i];
      if spans[n].id != id && id in LastSpans(spans[..n]) {
        var i :| 0 <= i < n && spans[..n][i].id == id;
        assert spans[i].id == id;
      }
    }
  }

  /** How many of the references name p. */
  function RefCount(refs: seq<Reference>, p: Id): nat {
    if refs == [] then 0
    else RefCount(refs[..|refs| - 1], p) + if refs[|refs| - 1].spanId == p then 1 else 0
  }

  lemma {:induction false} RefCountIsNumber(refs: seq<Reference>, p: Id)
    ensures RefCount(refs, p) == |set i | 0 <= i < |refs| && refs[i].spanId == p|
  {
    var all := set i | 0 <= i < |refs| && refs[i].spanId == p;
    if refs != [] {
      var n := |refs| - 1;
      RefCountIsNumber(refs[..n], p);
      var before := set i | 0 <= i < |refs[..n]| && refs[..n][i].spanId == p;
      assert all == before + if refs[n].spanId == p then {n} else {};
    }
  }

  /** p is the id of a span, or a non-empty id that a span of `seen` refers to. */
  ghost predicate IsNode(last: map<Id, Span>, seen: set<Id>, p: Id) {
    p in last || (p != "" && exists c :: c in seen && c in last && RefCount(last[c].childOf, p) > 0)
  }

  /** Some reference names an id that exists; only the empty id never gets a placeholder. */
  ghost predicate HasParent(last: map<Id, Span>, refs: seq<Reference>) {
    exists q :: RefCount(refs, q) > 0 && (q != "" || "" in last)
  }

  lemma {:induction false} RefCountAt(refs: seq<Reference>, i: nat)
    requires i < |refs|
    ensures RefCount(refs, refs[i].spanId) > 0
  {
    if i < |refs| - 1 {
      RefCountAt(refs[..|refs| - 1], i);
    }
  }

  /** spanMap holds the spans and the placeholders for the references of `seen`, each under its id. */
  ghost predicate Keyed(spanMap: map<Id, TreeNode>, repr: set<TreeNode>, last: map<Id, Span>, seen: set<Id>) {
    && (forall p :: p in spanMap <==> IsNode(last, seen, p))
    && (forall p :: p in spanMap ==>
          spanMap[p] in repr && spanMap[p].id == p
          && spanMap[p].span == if p in last then Some(last[p]) else None)
  }

  /** The children of p are the stored nodes whose references `edges` name p, once per reference. */
  ghost predicate HasKids(children: seq<TreeNode>, p: Id, spanMap: map<Id, TreeNode>, edges: map<Id, seq<Reference>>) {
    && (forall i :: 0 <= i < |children| ==>
          var c := children[i]; c.id in edges && c.id in spanMap && spanMap[c.id] == c)
    && (forall c :: Occurs(children, c) == if c in edges then RefCount(edges[c], p) else 0)
  }

  ghost predicate HasFlag(isProcessed: bool, p: Id, last: map<Id, Span>, edges: map<Id, seq<Reference>>) {
    isProcessed <==> p in edges && HasParent(last, edges[p])
  }

  /** `edges` are references of spans in `seen`. */
  ghost predicate EdgesOf(edges: map<Id, seq<Reference>>, last: map<Id, Span>, seen: set<Id>) {
    forall c :: c in edges ==>
      c in seen && c in last && forall p :: RefCount(edges[c], p) <= RefCount(last[c].childOf, p)
  }

  ghost predicate Linked(spanMap: map<Id, TreeNode>, repr: set<TreeNode>, last: map<Id, Span>,
                         seen: set<Id>, edges: map<Id, seq<Reference>>)
    reads repr
  {
    && Keyed(spanMap, repr, last, seen)
    && EdgesOf(edges, last, seen)
    && (forall p :: p in spanMap ==>
          spanMap[p] in repr && HasKids(spanMap[p].children, p, spanMap, edges)
          && HasFlag(spanMap[p].isProcessed, p, last, edges))
  }

  ghost predicate Extends(m': map<Id, TreeNode>, m: map<Id, TreeNode>) {
    forall p :: p in m ==> p in m' && m'[p] == m[p]
  }

  lemma SeenOneMore(last: map<Id, Span>, seen: set<Id>, cur: Id, p: Id)
    requires cur in last
    ensures IsNode(last, seen + {cur}, p)
      <==> IsNode(last, seen, p) || (p != "" && RefCount(last[cur].childOf, p) > 0)
  {
  }

  lemma KidsStay(children: seq<TreeNode>, p: Id, m: map<Id, TreeNode>, m': map<Id, TreeNode>,
                 edges: map<Id, seq<Reference>>)
    requires HasKids(children, p, m, edges) && Extends(m', m)
    ensures HasKids(children, p, m', edges)
  {
  }

  /** A new placeholder is the target of no linked reference. */
  lemma PlaceholderHasNoKids(p: Id, m: map<Id, TreeNode>, last: map<Id, Span>, seen: set<Id>,
                             edges: map<Id, seq<Reference>>)
    requires p != "" && EdgesOf(edges, last, seen) && !IsNode(last, seen, p)
    ensures HasKids([], p, m, edges) && HasFlag(false, p, last, edges)
  {
  }

  ghost predicate IsUnlinked(node: TreeNode, id: Id, span: Option<Span>)
    reads node
  {
    node.id == id && node.span == span && node.children == [] && !node.isProcessed
  }

  function TraceIdsOf(refs: seq<Reference>): set<string> {
    set r | r in refs :: r.traceId
  }

  lemma RefCountOneMore(refs: seq<Reference>, r: Reference)
    ensures forall p :: RefCount(refs + [r], p) == RefCount(refs, p) + if r.spanId == p then 1 else 0
  {
    assert (refs + [r])[..|refs|] == refs;
  }

  lemma {:induction false} RefCountPrefix(refs: seq<Reference>, n: nat)
    requires n <= |refs|
    ensures forall p :: RefCount(refs[..n], p) <= RefCount(refs, p)
  {
    if n < |refs| {
      RefCountPrefix(refs[..|refs| - 1], n);
      assert refs[..|refs| - 1][..n] == refs[..n];
    } else {
      assert refs[..n] == refs;
    }
  }

  lemma KidsOneMore(children: seq<TreeNode>, p: Id, m: map<Id, TreeNode>, edges: map<Id, seq<Reference>>,
                    cur: Id, r: Reference)
    requires HasKids(children, p, m, edges) && cur in edges && cur in m && m[cur].id == cur
    ensures HasKids(if r.spanId == p then children + [m[cur]] else children,
                    p, m, edges[cur := edges[cur] + [r]])
  {
    RefCountOneMore(edges[cur], r);
    assert (children + [m[cur]])[..|children|] == children;
  }

  lemma FlagOneMore(isProcessed: bool, p: Id, last: map<Id, Span>, edges: map<Id, seq<Reference>>,
                    cur: Id, r: Reference)
    requires HasFlag(isProcessed, p, last, edges) && cur in edges
    ensures HasFlag(isProcessed || (p == cur && (r.spanId != "" || "" in last)),
                    p, last, edges[cur := edges[cur] + [r]])
  {
    RefCountOneMore(edges[cur], r);
    assert RefCount(edges[cur] + [r], r.spanId) > 0;
    if HasParent(last, edges[cur]) {
      var q :| RefCount(edges[cur], q) > 0 && (q != "" || "" in last);
      assert RefCount(edges[cur] + [r], q) > 0;
    }
    if HasParent(last, edges[cur] + [r]) {
      var q :| RefCount(edges[cur] + [r], q) > 0 && (q != "" || "" in last);
      assert q != r.spanId ==> RefCount(edges[cur], q) > 0;
    }
  }

  lemma StartEdges(children: seq<TreeNode>, isProcessed: bool, p: Id, m: map<Id, TreeNode>, last: map<Id, Span>,
                   edges: map<Id, seq<Reference>>, cur: Id)
    requires HasKids(children, p, m, edges) && HasFlag(isProcessed, p, last, edges) && cur !in edges
    ensures HasKids(children, p, m, edges[cur := []]) && HasFlag(isProcessed, p, last, edges[cur := []])
  {
  }

  lemma StartLinking(m: map<Id, TreeNode>, repr: set<TreeNode>, last: map<Id, Span>, seen: set<Id>,
                     edges: map<Id, seq<Reference>>, cur: Id)
    requires Linked(m, repr, last, seen, edges) && cur in last && cur in seen && cur !in edges
    ensures Linked(m, repr, last, seen, edges[cur := []]) && cur in m
  {
    hide HasKids, HasFlag;
    forall p | p in m
      ensures HasKids(m[p].children, p, m, edges[cur := []])
      ensures HasFlag(m[p].isProcessed, p, last, edges[cur := []])
    {
      StartEdges(m[p].children, m[p].isProcessed, p, m, last, edges, cur);
    }
  }

  lemma ParentExists(m: map<Id, TreeNode>, repr: set<TreeNode>, last: map<Id, Span>, seen: set<Id>,
                     edges: map<Id, seq<Reference>>, cur: Id, ref: Reference)
    requires Keyed(m, repr, last, seen) && cur in edges
    requires EdgesOf(edges[cur := edges[cur] + [ref]], last, seen)
    ensures ref.spanId in m <==> ref.spanId != "" || "" in last
  {
    RefCountOneMore(edges[cur], ref);
    assert RefCount(edges[cur] + [ref], ref.spanId) > 0;
    assert RefCount(last[cur].childOf, ref.spanId) > 0;
  }

  lemma OccursOneMore(nodes: seq<TreeNode>, node: TreeNode)
    ensures forall c :: Occurs(nodes + [node], c) == Occurs(nodes, c) + if node.id == c then 1 else 0
  {
    assert (nodes + [node])[..|nodes|] == nodes;
  }

  ghost function AllEdges(last: map<Id, Span>, done: set<Id>): map<Id, seq<Reference>> {
    map c | c in last && c in done :: last[c].childOf
  }

  ghost predicate IsTraceId(last: map<Id, Span>, done: set<Id>, t: string) {
    exists c :: c in done && c in last && t in TraceIdsOf(last[c].childOf)
  }

  lemma NothingLinkedYet(m: map<Id, TreeNode>, repr: set<TreeNode>, last: map<Id, Span>)
    requires Linked(m, repr, last, {}, map[])
    ensures m.Keys == last.Keys && AllEdges(last, {}) == map[]
    ensures forall t :: !IsTraceId(last, {}, t)
  {
  }

  lemma EdgesOneMore(last: map<Id, Span>, done: set<Id>, cur: Id)
    requires cur in last && cur !in done
    ensures AllEdges(last, done + {cur}) == AllEdges(last, done)[cur := last[cur].childOf]
    ensures cur !in AllEdges(last, done)
  {
  }

  lemma TraceIdsOneMore(last: map<Id, Span>, done: set<Id>, cur: Id)
    requires cur in last
    ensures forall t ::
      IsTraceId(last, done + {cur}, t) <==> IsTraceId(last, done, t) || t in TraceIdsOf(last[cur].childOf)
  {
  }

  /** String.includes */
  predicate Includes(t: string, s: string) {
    exists i :: 0 <= i <= |t| && OccursAt(t, s, i)
  }

  predicate OccursAt(t: string, s: string, i: nat) {
    i + |s| <= |t| && t[i..i + |s|] == s
  }

  ghost function Matching(ts: set<string>, s: string): set<string> {
    set t | t in ts && Includes(t, s)
  }

  lemma MatchingOneMore(ts: set<string>, t: string, s: string)
    requires t !in ts
    ensures |Matching(ts + {t}, s)| == |Matching(ts, s)| + if Includes(t, s) then 1 else 0
  {
    assert Matching(ts + {t}, s) == Matching(ts, s) + if Includes(t, s) then {t} else {};
  }

  /** A root names the empty id as a parent; a placeholder has no references. */
  predicate IsRoot(node: TreeNode) {
    node.span.Some? && exists i :: 0 <= i < |node.span.value.childOf| && node.span.value.childOf[i].spanId == ""
  }

  ghost function TreeCopies(node: TreeNode, traceIds: set<string>): nat {
    if IsRoot(node) then 1 else |Matching(traceIds, node.id)|
  }

  ghost function MissingCopies(node: TreeNode, traceIds: set<string>): int {
    if IsRoot(node) then 0 else |traceIds| - |Matching(traceIds, node.id)|
  }

  class TreeBuilder {
    var spanMap: map<Id, TreeNode>
    var traceIds: set<string>
    ghost var repr: set<TreeNode>

    /** The first loop: one node per span id. */
    constructor (spans: seq<Span>)
      ensures Linked(spanMap, repr, LastSpans(spans), {}, map[]) && fresh(repr) && traceIds == {}
    {
      spanMap, traceIds, repr := map[], {}, {};
      new;
      for n := 0 to |spans|
        invariant fresh(repr) && traceIds == {} && spanMap.Keys == LastSpans(spans[..n]).Keys
        invariant forall p :: p in spanMap ==>
          IsUnlinked(spanMap[p], p, Some(LastSpans(spans[..n])[p])) && spanMap[p] in repr
      {
        assert spans[..n + 1][..n] == spans[..n];
        var node := new TreeNode(spans[n].id, Some(spans[n]));
        spanMap := spanMap[spans[n].id := node];
        repr := repr + {node};
      }
      assert spans[..|spans|] == spans;
    }

    /** The loop of createTraceRootSpan: remember the trace ids, store a placeholder for every missing id. */
    method AddMissing(refs: seq<Reference>)
      modifies this
      ensures Extends(spanMap, old(spanMap)) && old(repr) <= repr && fresh(repr - old(repr))
      ensures forall p :: p in spanMap <==> p in old(spanMap) || (p != "" && RefCount(refs, p) > 0)
      ensures forall p :: p in spanMap && p !in old(spanMap) ==> IsUnlinked(spanMap[p], p, None) && spanMap[p] in repr
      ensures traceIds == old(traceIds) + TraceIdsOf(refs)
    {
      for n := 0 to |refs|
        invariant Extends(spanMap, old(spanMap)) && old(repr) <= repr && fresh(repr - old(repr))
        invariant forall p :: p in spanMap <==> p in old(spanMap) || (p != "" && RefCount(refs[..n], p) > 0)
        invariant forall p :: p in spanMap && p !in old(spanMap) ==>
          IsUnlinked(spanMap[p], p, None) && spanMap[p] in repr
        invariant traceIds == old(traceIds) + TraceIdsOf(refs[..n])
      {
        hide RefCount;
        RefCountOneMore(refs[..n], refs[n]);
        assert refs[..n + 1] == refs[..n] + [refs[n]];
        traceIds := traceIds + {refs[n].traceId};
        var spanId := refs[n].spanId;
        if spanId != "" && spanId !in spanMap {
          var node := new TreeNode(spanId, None);
          spanMap := spanMap[spanId := node];
          repr := repr + {node};
        }
      }
      assert refs[..|refs|] == refs;
    }

    method CreateTraceRootSpan(refs: seq<Reference>, ghost last: map<Id, Span>, ghost seen: set<Id>,
                               ghost edges: map<Id, seq<Reference>>, ghost cur: Id)
      requires Linked(spanMap, repr, last, seen, edges)
      requires cur in last && last[cur].childOf == refs
      modifies this
      ensures Linked(spanMap, repr, last, seen + {cur}, edges)
      ensures Extends(spanMap, old(spanMap)) && old(repr) <= repr && fresh(repr - old(repr))
      ensures traceIds == old(traceIds) + TraceIdsOf(refs)
    {
      AddMissing(refs);
      forall p ensures p in spanMap <==> IsNode(last, seen + {cur}, p) {
        SeenOneMore(last, seen, cur, p);
      }
      forall p | p in spanMap
        ensures HasKids(spanMap[p].children, p, spanMap, edges) && HasFlag(spanMap[p].isProcessed, p, last, edges)
      {
        if p in old(spanMap) {
          KidsStay(spanMap[p].children, p, old(spanMap), spanMap, edges);
        } else {
          PlaceholderHasNoKids(p, spanMap, last, seen, edges);
        }
      }
    }

    /** Mark the node of cur as processed and push it below the node of q, when there is one. */
    method Push(cur: Id, q: Id)
      requires forall p :: p in spanMap ==> spanMap[p] in repr && spanMap[p].id == p
      requires cur in spanMap
      modifies repr
      ensures spanMap == old(spanMap) && repr == old(repr) && traceIds == old(traceIds)
      ensures forall p :: p in spanMap ==>
        spanMap[p].children
        == if q == p then old(spanMap[p].children) + [spanMap[cur]] else old(spanMap[p].children)
      ensures forall p :: p in spanMap ==>
        spanMap[p].isProcessed == (old(spanMap[p].isProcessed) || (p == cur && q in spanMap))
    {
      if q in spanMap {
        var node, parent := spanMap[cur], spanMap[q];
        node.isProcessed := true;
        parent.children := parent.children + [node];
      }
    }

    /** One reference of the inner loop: when the parent exists, push the node below it. */
    method Adopt(cur: Id, ref: Reference, ghost last: map<Id, Span>, ghost seen: set<Id>,
                 ghost edges: map<Id, seq<Reference>>)
      requires Linked(spanMap, repr, last, seen, edges)
      requires cur in edges && cur in spanMap && EdgesOf(edges[cur := edges[cur] + [ref]], last, seen)
      modifies repr
      ensures spanMap == old(spanMap) && repr == old(repr) && traceIds == old(traceIds)
      ensures Linked(spanMap, repr, last, seen, edges[cur := edges[cur] + [ref]])
    {
      hide HasKids, HasFlag;
      ghost var edges' := edges[cur := edges[cur] + [ref]];
      ParentExists(spanMap, repr, last, seen, edges, cur, ref);
      forall p | p in spanMap
        ensures HasKids(if ref.spanId == p then spanMap[p].children + [spanMap[cur]] else spanMap[p].children,
                        p, spanMap, edges')
        ensures HasFlag(spanMap[p].isProcessed || (p == cur && ref.spanId in spanMap), p, last, edges')
      {
        KidsOneMore(spanMap[p].children, p, spanMap, edges, cur, ref);
        FlagOneMore(spanMap[p].isProcessed, p, last, edges, cur, ref);
      }
      hide EdgesOf, IsNode;
      Push(cur, ref.spanId);
    }

    /** The inner loop over the references of cur. */
    method AdoptAll(cur: Id, refs: seq<Reference>, ghost last: map<Id, Span>, ghost seen: set<Id>,
                    ghost edges: map<Id, seq<Reference>>)
      requires Linked(spanMap, repr, last, seen, edges[cur := []])
      requires cur in spanMap && cur in last && cur in seen && refs == last[cur].childOf
      modifies repr
      ensures spanMap == old(spanMap) && repr == old(repr) && traceIds == old(traceIds)
      ensures Linked(spanMap, repr, last, seen, edges[cur := refs])
    {
      hide HasKids, HasFlag, IsNode;
      assert edges[cur := refs[..0]] == edges[cur := []];
      for i := 0 to |refs|
        invariant spanMap == old(spanMap) && repr == old(repr) && traceIds == old(traceIds)
        invariant Linked(spanMap, repr, last, seen, edges[cur := refs[..i]])
      {
        ghost var now := edges[cur := refs[..i]];
        assert now[cur := now[cur] + [refs[i]]] == edges[cur := refs[..i + 1]] by {
          assert refs[..i + 1] == refs[..i] + [refs[i]];
        }
        RefCountPrefix(refs, i + 1);
        Adopt(cur, refs[i], last, seen, now);
      }
      assert refs[..|refs|] == refs;
    }

    /** One node of the second loop: make its missing parents, then put it below each parent. */
    method LinkNode(cur: Id, ghost last: map<Id, Span>, ghost seen: set<Id>, ghost edges: map<Id, seq<Reference>>)
      requires Linked(spanMap, repr, last, seen, edges) && cur in last && cur !in edges
      modifies this, repr
      ensures Linked(spanMap, repr, last, seen + {cur}, edges[cur := last[cur].childOf])
      ensures old(repr) <= repr && fresh(repr - old(repr))
      ensures traceIds == old(traceIds) + TraceIdsOf(last[cur].childOf)
    {
      assert cur in spanMap && spanMap[cur].span == Some(last[cur]);
      hide *;
      var refs := spanMap[cur].span.value.childOf;
      CreateTraceRootSpan(refs, last, seen, edges, cur);
      StartLinking(spanMap, repr, last, seen + {cur}, edges, cur);
      AdoptAll(cur, refs, last, seen + {cur}, edges);
    }

    /** The second loop, over the spans in any order. */
    method LinkAll(ghost last: map<Id, Span>)
      requires Linked(spanMap, repr, last, {}, map[]) && traceIds == {}
      modifies this, repr
      ensures Linked(spanMap, repr, last, last.Keys, AllEdges(last, last.Keys))
      ensures forall t :: t in traceIds <==> IsTraceId(last, last.Keys, t)
      ensures old(repr) <= repr && fresh(repr - old(repr))
    {
      hide *;
      NothingLinkedYet(spanMap, repr, last);
      var todo := spanMap.Keys;
      ghost var done: set<Id> := {};
      while todo != {}
        invariant todo + done == last.Keys && todo !! done
        invariant Linked(spanMap, repr, last, done, AllEdges(last, done))
        invariant forall t :: t in traceIds <==> IsTraceId(last, done, t)
        invariant old(repr) <= repr && fresh(repr - old(repr))
        decreases todo
      {
        var cur :| cur in todo;
        EdgesOneMore(last, done, cur);
        LinkNode(cur, last, done, AllEdges(last, done));
        TraceIdsOneMore(last, done, cur);
        todo, done := todo - {cur}, done + {cur};
      }
      assert done == last.Keys;
    }

    /** The third loop: what was put below a parent leaves the map. */
    method Prune()
      requires forall p :: p in spanMap ==> spanMap[p] in repr
      modifies this`spanMap
      ensures spanMap == map p | p in old(spanMap) && !old(spanMap)[p].isProcessed :: old(spanMap)[p]
    {
      var todo := spanMap.Keys;
      while todo != {}
        invariant todo <= old(spanMap).Keys
        invariant spanMap == map p | p in old(spanMap) && (p in todo || !old(spanMap)[p].isProcessed) :: old(spanMap)[p]
        decreases todo
      {
        var spanId :| spanId in todo;
        if spanMap[spanId].isProcessed {
          spanMap := spanMap - {spanId};
        }
        todo := todo - {spanId};
      }
    }

    /** Where one remaining node goes: a root once into the span tree, any other one once for every trace id. */
    method Place(spanId: Id) returns (spanTree: seq<TreeNode>, missingSpanTree: seq<TreeNode>)
      requires spanId in spanMap && spanMap[spanId].id == spanId
      ensures forall i :: 0 <= i < |spanTree| ==> spanTree[i] == spanMap[spanId]
      ensures forall i :: 0 <= i < |missingSpanTree| ==> missingSpanTree[i] == spanMap[spanId]
      ensures forall c :: Occurs(spanTree, c) == if c == spanId then TreeCopies(spanMap[spanId], traceIds) else 0
      ensures forall c ::
        Occurs(missingSpanTree, c) == if c == spanId then MissingCopies(spanMap[spanId], traceIds) else 0
    {
      var node := spanMap[spanId];
      spanTree, missingSpanTree := [], [];
      if IsRoot(node) {
        OccursOneMore([], node);
        spanTree := spanTree + [node];
        return;
      }
      var todo := traceIds;
      while todo != {}
        invariant todo <= traceIds
        invariant forall i :: 0 <= i < |spanTree| ==> spanTree[i] == node
        invariant forall i :: 0 <= i < |missingSpanTree| ==> missingSpanTree[i] == node
        invariant forall c :: Occurs(spanTree, c) == if c == spanId then |Matching(traceIds - todo, spanId)| else 0
        invariant forall c ::
          Occurs(missingSpanTree, c) ==
          if c == spanId then |traceIds - todo| - |Matching(traceIds - todo, spanId)| else 0
        decreases todo
      {
        var traceId :| traceId in todo;
        MatchingOneMore(traceIds - todo, traceId, spanId);
        assert traceIds - (todo - {traceId}) == traceIds - todo + {traceId};
        if Includes(traceId, spanId) {
          OccursOneMore(spanTree, node);
          spanTree := spanTree + [node];
        } else {
          OccursOneMore(missingSpanTree, node);
          missingSpanTree := missingSpanTree + [node];
        }
        todo := todo - {traceId};
      }
      assert traceIds - todo == traceIds;
    }

    /** The last loop, over the remaining nodes in any order. */
    method Partition() returns (spanTree: seq<TreeNode>, missingSpanTree: seq<TreeNode>)
      requires forall p :: p in spanMap ==> spanMap[p].id == p
      ensures AllStored(spanTree, spanMap) && AllStored(missingSpanTree, spanMap)
      ensures forall c :: Occurs(spanTree, c) == if c in spanMap then TreeCopies(spanMap[c], traceIds) else 0
      ensures forall c :: Occurs(missingSpanTree, c) == if c in spanMap then MissingCopies(spanMap[c], traceIds) else 0
    {
      hide TreeCopies, MissingCopies;
      spanTree, missingSpanTree := [], [];
      var todo := spanMap.Keys;
      while todo != {}
        invariant todo <= spanMap.Keys && AllStored(spanTree, spanMap) && AllStored(missingSpanTree, spanMap)
        invariant forall c ::
          Occurs(spanTree, c) == if c in spanMap && c !in todo then TreeCopies(spanMap[c], traceIds) else 0
        invariant forall c ::
          Occurs(missingSpanTree, c) == if c in spanMap && c !in todo then MissingCopies(spanMap[c], traceIds) else 0
        decreases todo
      {
        var spanId :| spanId in todo;
        var tree, missing := Place(spanId);
        forall c
          ensures Occurs(spanTree + tree, c) == Occurs(spanTree, c) + Occurs(tree, c)
          ensures Occurs(missingSpanTree + missing, c) == Occurs(missingSpanTree, c) + Occurs(missing, c)
        {
          OccursConcat(spanTree, tree, c);
          OccursConcat(missingSpanTree, missing, c);
        }
        spanTree, missingSpanTree := spanTree + tree, missingSpanTree + missing;
        todo := todo - {spanId};
      }
    }
  }

  ghost predicate AllStored(s: seq<TreeNode>, m: map<Id, TreeNode>) {
    forall i :: 0 <= i < |s| ==> s[i].id in m && m[s[i].id] == s[i]
  }

  lemma {:induction false} OccursConcat(a: seq<TreeNode>, b: seq<TreeNode>, c: Id)
    ensures Occurs(a + b, c) == Occurs(a, c) + Occurs(b, c)
  {
    if b == [] {
      assert a + b == a;
    } else {
      assert (a + b)[..|a + b| - 1] == a + b[..|b| - 1];
      OccursConcat(a, b[..|b| - 1], c);
    }
  }

  /** The arena after a run: every node with its children. */
  ghost predicate IsArena(nodes: map<Id, TreeNode>, repr: set<TreeNode>, spans: seq<Span>)
    reads repr
  {
    var last := LastSpans(spans);
    Linked(nodes, repr, last, last.Keys, AllEdges(last, last.Keys))
  }

  /** The nodes without a parent: placeholders, and spans none of whose references names an existing id. */
  ghost predicate IsTop(nodes: map<Id, TreeNode>, last: map<Id, Span>, c: Id) {
    c in nodes && !(c in last && HasParent(last, last[c].childOf))
  }

  /** spanToTreeUtil; `nodes` holds every node created, also those that no returned tree reaches. */
  method SpanToTreeUtil(spans: seq<Span>)
    returns (spanTree: seq<TreeNode>, missingSpanTree: seq<TreeNode>,
             ghost nodes: map<Id, TreeNode>, ghost repr: set<TreeNode>, ghost traceIds: set<string>)
    ensures fresh(repr) && IsArena(nodes, repr, spans)
    ensures forall t :: t in traceIds <==> IsTraceId(LastSpans(spans), LastSpans(spans).Keys, t)
    ensures AllStored(spanTree, nodes) && AllStored(missingSpanTree, nodes)
    ensures forall c ::
      Occurs(spanTree, c) == if IsTop(nodes, LastSpans(spans), c) then TreeCopies(nodes[c], traceIds) else 0
    ensures forall c ::
      Occurs(missingSpanTree, c) == if IsTop(nodes, LastSpans(spans), c) then MissingCopies(nodes[c], traceIds) else 0
  {
    hide HasKids, HasFlag, Keyed, EdgesOf, Occurs, TreeCopies, MissingCopies, HasParent, LastSpans, AllEdges, IsTraceId,
         IsTop;
    ghost var last := LastSpans(spans);
    var builder := new TreeBuilder(spans);
    builder.LinkAll(last);
    nodes, repr, traceIds := builder.spanMap, builder.repr, builder.traceIds;
    FlagsSayTops(nodes, repr, last);
    builder.Prune();
    spanTree, missingSpanTree := builder.Partition();
  }

  lemma FlagsSayTops(nodes: map<Id, TreeNode>, repr: set<TreeNode>, last: map<Id, Span>)
    requires Linked(nodes, repr, last, last.Keys, AllEdges(last, last.Keys))
    ensures forall p :: p in nodes ==> nodes[p] in repr && nodes[p].id == p
    ensures forall p :: IsTop(nodes, last, p) <==> p in nodes && !nodes[p].isProcessed
  {
  }
}
