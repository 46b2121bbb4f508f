/** Directed cycles and topological orders over the execution edges of a graph. */
module Cycles {
  import opened Ir
  import opened Walks

  predicate IsExecution(e: Edge) {
    e.edgeType == DataEdge || e.edgeType == ControlEdge || e.edgeType == DependencyEdge
  }

  /** The targets of the execution edges that leave `u`, in edge order. */
  function Successors(edges: seq<Edge>, u: string): seq<string> {
    if edges == [] then []
    else
      var last := edges[|edges| - 1];
      Successors(edges[..|edges| - 1], u)
      + (if IsExecution(last) && last.source == u then [last.target] else [])
  }

  ghost function Links(edges: seq<Edge>): set<Link> {
    set e | e in edges && IsExecution(e) :: (e.source, e.target)
  }

  /** A non-empty closed walk. */
  ghost predicate IsCycle(edges: seq<Edge>, walk: seq<string>) {
    |walk| >= 2 && walk[0] == walk[|walk| - 1] && IsWalk(Links(edges), walk)
  }

  ghost predicate HasCycle(edges: seq<Edge>) {
    exists walk :: IsCycle(edges, walk)
  }

  /** Every link leads from its start to an earlier place in `order`, so reading `order`
      backwards is a topological order. */
  ghost predicate ReverseTopological(links: set<Link>, order: seq<string>) {
    forall i | 0 <= i < |order| :: forall b | (order[i], b) in links :: b in order[..i]
  }

  ghost predicate SourcesPresent(edges: seq<Edge>, ids: set<string>) {
    forall e | e in edges && IsExecution(e) :: e.source in ids
  }

  // ----- The same on the edges themselves -----

  ghost predicate Orders(e: Edge) { e.edgeType.Value() in {"DATA", "CONTROL", "DEPENDENCY"} }

  /** Data, control and dependency edges of the graph, each starting where the one before it ends
      and the first where the last ends. */
  ghost predicate ClosedChain(edges: seq<Edge>, chain: seq<Edge>) {
    && chain != [] && (forall e | e in chain :: e in edges && Orders(e))
    && (forall i | 0 <= i < |chain| - 1 :: chain[i].target == chain[i + 1].source)
    && chain[|chain| - 1].target == chain[0].source
  }

  /** The target of every such edge has an earlier place than its source. */
  ghost predicate TargetsFirst(edges: seq<Edge>, order: seq<string>) {
    forall e | e in edges && Orders(e) ::
      exists i, j :: 0 <= i < j < |order| && order[i] == e.target && order[j] == e.source
  }

  lemma OrdersIffExecution(e: Edge)
    ensures Orders(e) <==> IsExecution(e)
  {
  }

  lemma LinkIsEdge(edges: seq<Edge>, l: Link) returns (e: Edge)
    requires l in Links(edges)
    ensures e in edges && Orders(e) && e.source == l.0 && e.target == l.1
  {
    e :| e in edges && IsExecution(e) && (e.source, e.target) == l;
    OrdersIffExecution(e);
  }

  lemma {:induction false} WalkIsChain(edges: seq<Edge>, walk: seq<string>) returns (chain: seq<Edge>)
    requires |walk| >= 2 && IsWalk(Links(edges), walk)
    ensures |chain| == |walk| - 1
    ensures forall i | 0 <= i < |chain| ::
              chain[i] in edges && Orders(chain[i]) && chain[i].source == walk[i] && chain[i].target == walk[i + 1]
  {
    var last := |walk| - 2;
    var e := LinkIsEdge(edges, (walk[last], walk[last + 1]));
    chain := [e];
    if last > 0 {
      var front := WalkIsChain(edges, walk[..|walk| - 1]);
      chain := front + chain;
    }
  }

  lemma HasCycleIffClosedChain(edges: seq<Edge>)
    ensures HasCycle(edges) <==> exists chain :: ClosedChain(edges, chain)
  {
    hide Orders;
    if walk :| IsCycle(edges, walk) {
      var chain := WalkIsChain(edges, walk);
      assert ClosedChain(edges, chain);
    }
    if chain: seq<Edge> :| ClosedChain(edges, chain) {
      var walk := seq(|chain| + 1, i requires 0 <= i <= |chain| =>
        if i == |chain| then chain[0].source else chain[i].source);
      forall i | 0 <= i < |walk| - 1 ensures (walk[i], walk[i + 1]) in Links(edges) {
        OrdersIffExecution(chain[i]);
        assert chain[i] in chain && walk[i + 1] == chain[i].target;
      }
      assert IsCycle(edges, walk);
    }
  }

  lemma TopologicalPutsTargetsFirst(edges: seq<Edge>, order: seq<string>)
    requires ReverseTopological(Links(edges), order)
    requires forall e | e in edges && IsExecution(e) :: e.source in order
    ensures TargetsFirst(edges, order)
  {
    forall e | e in edges && Orders(e)
      ensures exists i, j :: 0 <= i < j < |order| && order[i] == e.target && order[j] == e.source
    {
      OrdersIffExecution(e);
      var j :| 0 <= j < |order| && order[j] == e.source;
      assert (order[j], e.target) in Links(edges);
      var i :| 0 <= i < j && order[..j][i] == e.target;
      assert order[i] == e.target;
    }
  }

  lemma {:induction false} SuccessorsAreLinks(edges: seq<Edge>, a: string, b: string)
    ensures b in Successors(edges, a) <==> (a, b) in Links(edges)
  {
    if edges != [] {
      var front, last := edges[..|edges| - 1], edges[|edges| - 1];
      assert edges == front + [last];
      SuccessorsAreLinks(front, a, b);
      assert Links(edges) == Links(front) + Links([last]);
    }
  }

  lemma {:induction false} WalkGoesDown(links: set<Link>, order: seq<string>, walk: seq<string>, i: nat)
    returns (j: nat)
    requires ReverseTopological(links, order) && IsWalk(links, walk)
    requires |walk| >= 1 && i < |order| && order[i] == walk[0]
    ensures j < |order| && order[j] == walk[|walk| - 1]
    ensures j <= i && (|walk| >= 2 ==> j < i)
    decreases |walk|
  {
    if |walk| == 1 {
      j := i;
    } else {
      WalkTail(links, walk);
      assert walk[1] in order[..i];
      var k :| 0 <= k < i && order[k] == walk[1];
      j := WalkGoesDown(links, order, walk[1..], k);
    }
  }

  lemma {:induction false} FirstOccurrence(order: seq<string>, x: string) returns (i: nat)
    requires x in order
    ensures i < |order| && order[i] == x && x !in order[..i]
  {
    var front := order[..|order| - 1];
    if x in front {
      i := FirstOccurrence(front, x);
      assert front[..i] == order[..i];
    } else {
      i := |order| - 1;
    }
  }

  /** A reverse topological order of all sources rules out every cycle. */
  lemma OrderedMeansAcyclic(edges: seq<Edge>, order: seq<string>)
    requires ReverseTopological(Links(edges), order)
    requires forall e | e in edges && IsExecution(e) :: e.source in order
    ensures !HasCycle(edges)
  {
    forall walk | IsCycle(edges, walk) ensures false {
      WalkTail(Links(edges), walk);
      var i := FirstOccurrence(order, walk[0]);
      var j := WalkGoesDown(Links(edges), order, walk, i);
    }
  }

  // ----- How single edits move cycles -----

  lemma FewerEdgesFewerCycles(edges: seq<Edge>, more: seq<Edge>)
    requires forall e | e in edges :: e in more
    requires !HasCycle(more)
    ensures !HasCycle(edges)
  {
    assert Links(edges) <= Links(more);
    forall walk | IsCycle(edges, walk) ensures false {
      assert IsCycle(more, walk);
    }
  }

  /** A cycle is a link whose end reaches its start. */
  lemma CycleIffLinkReachesBack(edges: seq<Edge>)
    ensures HasCycle(edges) <==> exists l :: l in Links(edges) && Reaches(Links(edges), l.1, l.0)
  {
    var links := Links(edges);
    if HasCycle(edges) {
      var walk :| IsCycle(edges, walk);
      WalkTail(links, walk);
      assert Leads(links, walk[1..], walk[1], walk[0]);
      assert (walk[0], walk[1]) in links;
    }
    if l :| l in links && Reaches(links, l.1, l.0) {
      var back :| Leads(links, back, l.1, l.0);
      assert Leads(links, [l.0, l.1], l.0, l.1);
      WalkConcat(links, [l.0, l.1], back, l.0, l.1, l.0);
      assert IsCycle(edges, [l.0, l.1] + back[1..]);
    }
  }

  /** Adding an execution edge to an acyclic graph closes a cycle exactly when its target
      already reaches its source. */
  lemma NewEdgeClosesCycle(edges: seq<Edge>, e: Edge)
    requires !HasCycle(edges) && IsExecution(e)
    ensures HasCycle(edges + [e]) <==> Reaches(Links(edges), e.target, e.source)
  {
    var links, more := Links(edges), Links(edges + [e]);
    assert more == links + {(e.source, e.target)};
    CycleIffLinkReachesBack(edges);
    CycleIffLinkReachesBack(edges + [e]);
    NewLink(links, e.source, e.target, e.target, e.source);
    if Reaches(links, e.target, e.source) {
      assert (e.source, e.target) in more;
    }
    if l :| l in more && Reaches(more, l.1, l.0) {
      NewLink(links, e.source, e.target, l.1, l.0);
      if l in links {
        assert !Reaches(links, l.1, l.0);
        LinkReaches(links, l.0, l.1);
        ReachesTransitive(links, e.target, l.0, l.1);
        ReachesTransitive(links, e.target, l.1, e.source);
      }
    }
  }
}
