/** frontend/src/utils/getSpanTreeMetadata.ts: walk the forest once, colouring it and summing it up. */
module SpanTreeMetadata {
  import opened Wrappers
  import opened SpanGraph
  import S = SpanToTree

  /** The captured variables of `traverse`; None stands for the initial plus or minus infinity. */
  datatype Summary = Summary(globalStart: Option<real>, globalEnd: Option<real>, totalSpans: nat, levels: nat)

  function EndOf(span: S.Span): real {
    span.startTime + span.duration / 1000000.0
  }

  function MinWith(a: Option<real>, b: real): Option<real> {
    if a.Some? && a.value <= b then a else Some(b)
  }

  function MaxWith(a: Option<real>, b: real): Option<real> {
    if a.Some? && a.value >= b then a else Some(b)
  }

  /** What visiting one node does to the captured variables. */
  function Visited(s: Summary, span: Option<S.Span>, level: nat): Summary {
    Summary(
      if span.Some? then MinWith(s.globalStart, span.value.startTime) else s.globalStart,
      if span.Some? then MaxWith(s.globalEnd, EndOf(span.value)) else s.globalEnd,
      s.totalSpans + 1,
      if s.levels >= level then s.levels else level)
  }

  type SpanOf = map<Id, Option<S.Span>>

  function SpanAt(info: SpanOf, id: Id): Option<S.Span> {
    if id in info then info[id] else None
  }

  ghost function Fold(s: Summary, w: seq<Visit>, info: SpanOf): Summary {
    if w == [] then s
    else Visited(Fold(s, w[..|w| - 1], info), SpanAt(info, w[|w| - 1].id), w[|w| - 1].level)
  }

  lemma {:induction false} FoldConcat(s: Summary, a: seq<Visit>, b: seq<Visit>, info: SpanOf)
    ensures Fold(s, a + b, info) == Fold(Fold(s, a, info), b, info)
  {
    if b == [] {
      assert a + b == a;
    } else {
      assert (a + b)[..|a + b| - 1] == a + b[..|b| - 1];
      FoldConcat(s, a, b[..|b| - 1], info);
    }
  }

  const ERROR_COLOUR := "#d32f2f"

  /** The colour of a node; None is undefined, the value of a service without a colour. */
  function Colour(span: Option<S.Span>, colours: map<string, string>): Option<string> {
    var serviceName := if span.Some? then span.value.serviceName else "";
    if span.Some? && span.value.hasError then Some(ERROR_COLOUR)
    else if serviceName in colours then Some(colours[serviceName])
    else None
  }

  ghost predicate Visits(w: seq<Visit>, id: Id) {
    exists i :: 0 <= i < |w| && w[i].id == id
  }

  lemma VisitsConcat(a: seq<Visit>, b: seq<Visit>)
    ensures forall id :: Visits(a + b, id) <==> Visits(a, id) || Visits(b, id)
  {
    assert forall i :: 0 <= i < |b| ==> (a + b)[|a| + i] == b[i];
    assert forall i :: 0 <= i < |a| ==> (a + b)[i] == a[i];
  }

  /** kids lists the ids of the children of every node object. */
  ghost predicate Mirrors(nodes: map<Id, S.TreeNode>, repr: set<S.TreeNode>, kids: map<Id, seq<Id>>)
    reads repr`children
  {
    && nodes.Keys == kids.Keys
    && (forall p :: p in nodes ==> nodes[p] in repr && nodes[p].id == p && |nodes[p].children| == |kids[p]|)
    && (forall p, i :: p in nodes && 0 <= i < |kids[p]| ==>
          kids[p][i] in nodes && nodes[p].children[i] == nodes[kids[p][i]])
  }

  ghost function InfoOf(nodes: map<Id, S.TreeNode>): SpanOf {
    map p | p in nodes :: nodes[p].span
  }

  /** The nodes of w have got their colour, the others have kept theirs. */
  twostate predicate Coloured(nodes: map<Id, S.TreeNode>, repr: set<S.TreeNode>, w: seq<Visit>,
                              colours: map<string, string>)
    reads repr
  {
    forall p :: p in nodes && nodes[p] in repr ==>
      nodes[p].serviceColour
      == if Visits(w, p) then Colour(nodes[p].span, colours) else old(nodes[p].serviceColour)
  }

  class Traversal {
    var globalStart: Option<real>
    var globalEnd: Option<real>
    var totalSpans: nat
    var levels: nat

    ghost function Sum(): Summary reads this {
      Summary(globalStart, globalEnd, totalSpans, levels)
    }

    constructor ()
      ensures Sum() == Summary(None, None, 0, 1)
    {
      globalStart, globalEnd, totalSpans, levels := None, None, 0, 1;
    }

    /** The part of traverse before the recursion. */
    method Enter(node: S.TreeNode, level: nat, colours: map<string, string>)
      modifies this, node`serviceColour
      ensures Sum() == Visited(old(Sum()), node.span, level)
      ensures node.serviceColour == Colour(node.span, colours)
      // an error shows whatever the service; a placeholder has the empty service name
      ensures node.span.Some? && node.span.value.hasError ==> node.serviceColour == Some("#d32f2f")
      ensures !(node.span.Some? && node.span.value.hasError) ==>
        var service := if node.span.Some? then node.span.value.serviceName else "";
        && (service in colours ==> node.serviceColour == Some(colours[service]))
        && (service !in colours ==> node.serviceColour == None)
    {
      totalSpans := totalSpans + 1;
      levels := if levels >= level then levels else level;
      if node.span.Some? {
        var endTime := node.span.value.startTime + node.span.value.duration / 1000000.0;
        globalStart := MinWith(globalStart, node.span.value.startTime);
        globalEnd := MaxWith(globalEnd, endTime);
      }
      node.serviceColour := Colour(node.span, colours);
    }

    /** traverse: visit the node, colour it, then visit its children one level down; it nests at most n calls. */
    method Traverse(node: S.TreeNode, level: nat, colours: map<string, string>, ghost nodes: map<Id, S.TreeNode>,
                    ghost repr: set<S.TreeNode>, ghost kids: map<Id, seq<Id>>, ghost n: nat)
      requires Mirrors(nodes, repr, kids) && EndsWithin(kids, node.id, n)
      requires node.id in nodes && nodes[node.id] == node
      modifies this, repr`serviceColour
      ensures Sum() == Fold(old(Sum()), Walk(kids, node.id, level, n), InfoOf(nodes))
      ensures Coloured(nodes, repr, Walk(kids, node.id, level, n), colours)
      decreases n, 0
    {
      hide EndsWithin, AllEndWithin, Walk, WalkAll, Fold, Mirrors, Visits, Visited, Colour;
      NodeFacts(nodes, repr, kids, node, level, n);
      ghost var v, info := Visit(node.id, level), InfoOf(nodes);
      ghost var more := WalkAll(kids, IdsOf(node.children), level + 1, n - 1);
      FoldOne(Sum(), v, info);
      FoldConcat(Sum(), [v], more, info);
      VisitsConcat([v], more);
      Enter(node, level, colours);
      TraverseAll(node.children, level + 1, colours, nodes, repr, kids, n - 1);
    }

    /** forEach over a list of nodes of one level: traverse one after the other. */
    method TraverseAll(trees: seq<S.TreeNode>, level: nat, colours: map<string, string>,
                       ghost nodes: map<Id, S.TreeNode>, ghost repr: set<S.TreeNode>, ghost kids: map<Id, seq<Id>>,
                       ghost n: nat)
      requires Mirrors(nodes, repr, kids) && AllEndWithin(kids, IdsOf(trees), n)
      requires S.AllStored(trees, nodes)
      modifies this, repr`serviceColour
      ensures Sum() == Fold(old(Sum()), WalkAll(kids, IdsOf(trees), level, n), InfoOf(nodes))
      ensures Coloured(nodes, repr, WalkAll(kids, IdsOf(trees), level, n), colours)
      decreases n, 1
    {
      hide EndsWithin, Walk, WalkAll, Fold, Mirrors, Visits, Colour, InfoOf;
      ghost var cs, w, info := IdsOf(trees), [], InfoOf(nodes);
      StartList(kids, level, n, Sum(), info);
      for i := 0 to |trees|
        invariant AllEndWithin(kids, cs[..i], n) && w == WalkAll(kids, cs[..i], level, n)
        invariant Sum() == Fold(old(Sum()), w, info)
        invariant Coloured(nodes, repr, w, colours)
      {
        assert cs[i] in cs;
        Traverse(trees[i], level, colours, nodes, repr, kids, n);
        ghost var more := Walk(kids, cs[i], level, n);
        assert cs[..i + 1] == cs[..i] + [cs[i]];
        WalkAllOne(kids, cs[i], level, n);
        WalkAllConcat(kids, cs[..i], [cs[i]], level, n);
        FoldConcat(old(Sum()), w, more, info);
        VisitsConcat(w, more);
        w := w + more;
      }
      assert cs[..|cs|] == cs;
    }
  }

  lemma FoldOne(s: Summary, v: Visit, info: SpanOf)
    ensures Fold(s, [v], info) == Visited(s, SpanAt(info, v.id), v.level)
    ensures forall p :: Visits([v], p) <==> p == v.id
  {
    assert [v][..0] == [];
    assert [v][0] == v;
  }

  lemma StartList(kids: map<Id, seq<Id>>, level: nat, n: nat, s: Summary, info: SpanOf)
    ensures AllEndWithin(kids, [], n) && WalkAll(kids, [], level, n) == [] && Fold(s, [], info) == s
    ensures forall p :: !Visits([], p)
  {
  }

  /** What a node object tells about the walk from it. */
  lemma NodeFacts(nodes: map<Id, S.TreeNode>, repr: set<S.TreeNode>, kids: map<Id, seq<Id>>, node: S.TreeNode,
                  level: nat, n: nat)
    requires Mirrors(nodes, repr, kids) && EndsWithin(kids, node.id, n)
    requires node.id in nodes && nodes[node.id] == node
    ensures n > 0 && forall p :: p in nodes ==> nodes[p] in repr && nodes[p].id == p
    ensures S.AllStored(node.children, nodes) && AllEndWithin(kids, IdsOf(node.children), n - 1)
    ensures Walk(kids, node.id, level, n)
      == [Visit(node.id, level)] + WalkAll(kids, IdsOf(node.children), level + 1, n - 1)
  {
    var cs := kids[node.id];
    forall i | 0 <= i < |node.children|
      ensures var c := node.children[i]; c.id == cs[i] && c.id in nodes && nodes[c.id] == c
    {
      assert cs[i] in nodes;
    }
    assert IdsOf(node.children) == cs;
  }

  function IdsOf(trees: seq<S.TreeNode>): (ids: seq<Id>)
    ensures |ids| == |trees| && forall i :: 0 <= i < |trees| ==> ids[i] == trees[i].id
  {
    seq(|trees|, i requires 0 <= i < |trees| => trees[i].id)
  }
}
