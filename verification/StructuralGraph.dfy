/** The mutable structural graph: authoring operations and the projection to an
    executable DAG, whose depth-first search decides whether execution edges are cyclic. */
module StructuralGraph {
  import opened Wrappers
  import opened Ir
  import opened Json
  import opened Cycles
  import opened Walks
  import Sorting

  datatype GraphError = UnitExists | UnitNotFound | EdgeSourceMissing

  const CYCLE_WARNING :=
      "Structural Graph contains cycles in execution edges; executable projection pruned or linearized."

  predicate Touches(e: Edge, uid: string) { e.source == uid || e.target == uid }

  predicate Matches(e: Edge, source: string, target: string, edgeType: Option<EdgeType>, sourcePort: Option<string>,
      targetPort: Option<string>) {
    && e.source == source
    && e.target == target
    && (edgeType.Some? ==> e.edgeType == edgeType.value)
    && (sourcePort.Some? ==> e.sourcePort == sourcePort)
    && (targetPort.Some? ==> e.targetPort == targetPort)
  }

  /** The edges that satisfy `keep`, in order. */
  function Filter(edges: seq<Edge>, keep: Edge -> bool): (r: seq<Edge>)
    ensures forall e :: e in r <==> e in edges && keep(e)
  {
    if edges == [] then []
    else
      var last := edges[|edges| - 1];
      assert edges == edges[..|edges| - 1] + [last];
      Filter(edges[..|edges| - 1], keep) + (if keep(last) then [last] else [])
  }

  /** No edge dangles. */
  ghost predicate EndpointsPresent(units: map<string, Unit>, edges: seq<Edge>) {
    forall e | e in edges :: e.source in units && e.target in units
  }

  class StructuralGraph {
    var graphId: string
    var version: GraphVersion
    /** Unit identifiers in insertion order. */
    var unitIds: seq<string>
    var units: map<string, Unit>
    var edges: seq<Edge>
    var metadata: Json

    ghost predicate Valid()
      reads this
    {
      && Sorting.NoDuplicates(unitIds)
      && (forall id :: id in unitIds <==> id in units)
    }

    /** Every unit is stored under its own identifier. The authoring operations keep this, but
        the dictionary can be written past them. */
    ghost predicate KeysMatch()
      reads this
    {
      forall id | id in units :: units[id].unitId == id
    }

    /** The graph up to insertion order. */
    ghost function View(): Graph
      reads this
    {
      Graph(graphId, version, units, edges, metadata)
    }

    constructor (graphId: string, version: GraphVersion, metadata: Json)
      ensures Valid() && KeysMatch()
      ensures View() == Graph(graphId, version, map[], [], metadata)
      ensures unitIds == []
    {
      this.graphId, this.version, this.metadata := graphId, version, metadata;
      unitIds, units, edges := [], map[], [];
    }

    method AddUnit(unit: Unit) returns (r: Result<(), GraphError>)
      requires Valid()
      modifies this
      ensures Valid() && (old(KeysMatch()) ==> KeysMatch())
      ensures r.Err? <==> unit.unitId in old(units)
      ensures r.Err? ==> View() == old(View()) && unitIds == old(unitIds)
      ensures r.Ok? ==>
                && View() == old(View()).(units := old(units)[unit.unitId := unit])
                && unitIds == old(unitIds) + [unit.unitId]
    {
      if unit.unitId in units { return Err(UnitExists); }
      units := units[unit.unitId := unit];
      unitIds := unitIds + [unit.unitId];
      r := Ok(());
    }

    method RemoveUnit(uid: string) returns (r: Result<(), GraphError>)
      requires Valid()
      modifies this
      ensures Valid() && (old(KeysMatch()) ==> KeysMatch())
      ensures r.Err? <==> uid !in old(units)
      ensures r.Err? ==> View() == old(View()) && unitIds == old(unitIds)
      ensures r.Ok? ==>
                && View() == old(View()).(units := old(units) - {uid},
                                          edges := Filter(old(edges), e => !Touches(e, uid)))
                && unitIds == Without(old(unitIds), uid)
      ensures EndpointsPresent(old(units), old(edges)) ==> EndpointsPresent(units, edges)
    {
      if uid !in units { return Err(UnitNotFound); }
      WithoutSpec(unitIds, uid);
      units := units - {uid};
      unitIds := Without(unitIds, uid);
      edges := Filter(edges, e => !Touches(e, uid));
      r := Ok(());
    }

    /** Authoring may leave edges dangling. */
    method AddEdge(edge: Edge)
      requires Valid()
      modifies this`edges
      ensures Valid()
      ensures edges == old(edges) + [edge]
      ensures EndpointsPresent(units, old(edges)) ==>
                (EndpointsPresent(units, edges) <==> edge.source in units && edge.target in units)
    {
      edges := edges + [edge];
      assert edge in edges;
    }

    method RemoveEdge(source: string, target: string, edgeType: Option<EdgeType>, sourcePort: Option<string>,
        targetPort: Option<string>)
      requires Valid()
      modifies this`edges
      ensures Valid()
      ensures edges == Filter(old(edges), e => !Matches(e, source, target, edgeType, sourcePort, targetPort))
      ensures EndpointsPresent(units, old(edges)) ==> EndpointsPresent(units, edges)
      ensures !HasCycle(old(edges)) ==> !HasCycle(edges)
    {
      var keep := e => !Matches(e, source, target, edgeType, sourcePort, targetPort);
      var newEdges := [];
      for i := 0 to |edges|
        invariant newEdges == Filter(edges[..i], keep)
      {
        assert edges[..i + 1][..i] == edges[..i];
        if keep(edges[i]) { newEdges := newEdges + [edges[i]]; }
      }
      assert edges[..|edges|] == edges;
      if !HasCycle(edges) { FewerEdgesFewerCycles(newEdges, edges); }
      edges := newEdges;
    }

    /** Warns exactly when execution edges are cyclic; without a warning the units have a
        topological order. A missing edge source makes the projection fail. */
    method ProjectToExecutableDag() returns (r: Result<seq<string>, GraphError>, ghost order: seq<string>)
      requires Valid()
      ensures r.Err? <==> exists e :: e in edges && Orders(e) && e.source !in units
      ensures r.Ok? ==> (r.value == [CYCLE_WARNING] <==> exists chain :: ClosedChain(edges, chain))
      ensures r.Ok? ==> (r.value == [] ==> TargetsFirst(edges, order))
      ensures r.Ok? ==>
                && r.value == (if HasCycle(edges) then [CYCLE_WARNING] else [])
                && (r.value == [] ==> ReverseTopological(Links(edges), order)
                                      && Sorting.NoDuplicates(order)
                                      && forall id | id in units :: id in order)
    {
      order := [];
      HasCycleIffClosedChain(edges);
      forall e | e in edges ensures Orders(e) <==> IsExecution(e) { OrdersIffExecution(e); }
      hide Orders;
      hide ClosedChain;
      var built := BuildAdjacency();
      if built.Err? { return Err(EdgeSourceMissing), []; }
      var search := new CycleSearch(built.value, edges, units.Keys);
      var cyclic := search.SearchFrom(unitIds);
      if cyclic { return Ok([CYCLE_WARNING]), []; }
      order := search.finished;
      OrderedMeansAcyclic(edges, order);
      TopologicalPutsTargetsFirst(edges, order);
      r := Ok([]);
    }

    method BuildAdjacency() returns (r: Result<map<string, seq<string>>, GraphError>)
      requires Valid()
      ensures r.Err? <==> !SourcesPresent(edges, units.Keys)
      ensures r.Ok? ==> r.value.Keys == units.Keys && forall id | id in units :: r.value[id] == Successors(edges, id)
    {
      var adj: map<string, seq<string>> := map id | id in units :: [];
      for i := 0 to |edges|
        invariant adj.Keys == units.Keys
        invariant SourcesPresent(edges[..i], units.Keys)
        invariant forall id | id in units :: adj[id] == Successors(edges[..i], id)
      {
        var e := edges[i];
        assert edges[..i + 1] == edges[..i] + [e];
        assert edges[..i + 1][..i] == edges[..i];
        if IsExecution(e) {
          if e.source !in adj {
            assert e in edges;
            return Err(EdgeSourceMissing);
          }
          adj := adj[e.source := adj[e.source] + [e.target]];
        }
      }
      assert edges[..|edges|] == edges;
      r := Ok(adj);
    }
  }

  function Without(ids: seq<string>, uid: string): seq<string> {
    if ids == [] then [] else (if ids[0] == uid then [] else [ids[0]]) + Without(ids[1..], uid)
  }

  lemma {:induction false} WithoutSpec(ids: seq<string>, uid: string)
    requires Sorting.NoDuplicates(ids)
    ensures Sorting.NoDuplicates(Without(ids, uid))
    ensures forall x :: x in Without(ids, uid) <==> x in ids && x != uid
  {
    if ids != [] {
      WithoutSpec(ids[1..], uid);
      assert ids == [ids[0]] + ids[1..];
      assert ids[0] !in ids[1..];
    }
  }

  ghost function Elements(s: seq<string>): set<string> { set x | x in s }

  /** The shared state of the recursive search. */
  class CycleSearch {
    const adj: map<string, seq<string>>
    var visited: set<string>
    var recStack: set<string>

    ghost const edges: seq<Edge>
    ghost const universe: set<string>
    /** The recursion stack as a walk, outermost call first. */
    ghost var path: seq<string>
    /** Completed vertices, in order of completion. */
    ghost var finished: seq<string>

    ghost predicate Valid()
      reads this
    {
      && (forall u :: Next(u) == Successors(edges, u))
      && (forall e | e in edges :: e.target in universe)
      && visited <= universe
      && Elements(path) == recStack
      && Sorting.NoDuplicates(path)
      && IsWalk(Links(edges), path)
      && recStack <= visited
      && Elements(finished) == visited - recStack
      && Sorting.NoDuplicates(finished)
      && ReverseTopological(Links(edges), finished)
    }

    function Next(u: string): seq<string> { if u in adj then adj[u] else [] }

    constructor (adj: map<string, seq<string>>, ghost edges: seq<Edge>, ghost ids: set<string>)
      requires adj.Keys == ids && SourcesPresent(edges, ids)
      requires forall id | id in ids :: adj[id] == Successors(edges, id)
      ensures Valid() && path == [] && this.edges == edges
      ensures universe == ids + set e | e in edges :: e.target
    {
      this.adj, this.edges := adj, edges;
      universe := ids + set e | e in edges :: e.target;
      visited, recStack, path, finished := {}, {}, [], [];
      new;
      forall u ensures Next(u) == Successors(edges, u) {
        if u !in adj && Successors(edges, u) != [] {
          SuccessorsAreLinks(edges, u, Successors(edges, u)[0]);
        }
      }
    }

    /** Searches from every vertex not yet visited, until a cycle shows up. */
    method SearchFrom(ids: seq<string>) returns (cyclic: bool)
      requires Valid() && path == [] && forall id | id in ids :: id in universe
      modifies this
      ensures cyclic ==> HasCycle(edges)
      ensures !cyclic ==>
                && ReverseTopological(Links(edges), finished) && Sorting.NoDuplicates(finished)
                && forall id | id in ids :: id in finished
    {
      hide HasCycle;
      hide ReverseTopological;
      hide Valid;
      for i := 0 to |ids|
        invariant Valid() && path == []
        invariant forall k | 0 <= k < i :: ids[k] in finished
      {
        VisitedCovers(this);
        if ids[i] !in visited {
          var found := Dfs(ids[i]);
          if found { return true; }
        } else {
          assert ids[i] in Elements(finished);
        }
      }
      VisitedCovers(this);
      cyclic := false;
    }

    /** Searches from an unvisited vertex that extends the current path. */
    method Dfs(u: string) returns (cyclic: bool)
      requires Valid() && u !in visited && u in universe
      requires path != [] ==> (path[|path| - 1], u) in Links(edges)
      modifies this
      ensures cyclic ==> HasCycle(edges)
      ensures !cyclic ==>
                && Valid() && path == old(path)
                && old(visited) <= visited
                && old(finished) <= finished
                && u in finished
      decreases universe - visited
    {
      hide Valid;
      hide HasCycle;
      hide Links;
      hide IsWalk;
      hide ReverseTopological;
      hide Sorting.NoDuplicates;
      hide Successors;
      Enter(u);
      var next := Next(u);
      for i := 0 to |next|
        invariant Valid() && path == old(path) + [u]
        invariant old(visited) + {u} <= visited
        invariant old(finished) <= finished
        invariant forall k | 0 <= k < i :: next[k] in finished
      {
        var v := next[i];
        SuccessorKnown(this, u, v);
        VisitedCovers(this);
        if v !in visited {
          var inner := Dfs(v);
          if inner { return true; }
        } else if v in recStack {
          BackEdgeClosesCycle(edges, path, v);
          return true;
        } else {
          assert v in Elements(finished);
        }
      }
      Leave(u);
      cyclic := false;
    }

    method Enter(u: string)
      requires Valid() && u !in visited && u in universe
      requires path != [] ==> (path[|path| - 1], u) in Links(edges)
      modifies this
      ensures Valid()
      ensures path == old(path) + [u] && finished == old(finished)
      ensures visited == old(visited) + {u}
    {
      PathExtends(edges, path, u);
      visited := visited + {u};
      recStack := recStack + {u};
      path := path + [u];
    }

    method Leave(u: string)
      requires Valid() && path != [] && path[|path| - 1] == u
      requires forall v | v in Next(u) :: v in finished
      modifies this
      ensures Valid()
      ensures path == old(path)[..|old(path)| - 1] && finished == old(finished) + [u]
      ensures visited == old(visited)
    {
      assert u in Elements(path);
      assert u !in Elements(finished);
      FinishVertex(edges, finished, u, Next(u));
      recStack := recStack - {u};
      path := path[..|path| - 1];
      finished := finished + [u];
    }
  }

  lemma VisitedCovers(search: CycleSearch)
    requires search.Valid()
    ensures search.visited == Elements(search.finished) + Elements(search.path)
    ensures search.recStack == Elements(search.path) && IsWalk(Links(search.edges), search.path)
    ensures search.visited <= search.universe
    ensures ReverseTopological(Links(search.edges), search.finished) && Sorting.NoDuplicates(search.finished)
  {
  }

  lemma SuccessorKnown(search: CycleSearch, u: string, v: string)
    requires search.Valid() && v in search.Next(u)
    ensures v in search.universe && (u, v) in Links(search.edges)
  {
    SuccessorsAreLinks(search.edges, u, v);
  }

  lemma PathExtends(edges: seq<Edge>, path: seq<string>, u: string)
    requires IsWalk(Links(edges), path)
    requires path != [] ==> (path[|path| - 1], u) in Links(edges)
    ensures IsWalk(Links(edges), path + [u])
  {
  }

  /** An edge back into the recursion stack closes a cycle. */
  lemma BackEdgeClosesCycle(edges: seq<Edge>, path: seq<string>, v: string)
    requires IsWalk(Links(edges), path) && path != [] && v in path
    requires (path[|path| - 1], v) in Links(edges)
    ensures HasCycle(edges)
  {
    var k :| 0 <= k < |path| && path[k] == v;
    var walk := path[k..] + [v];
    forall i | 0 <= i < |walk| - 1 ensures (walk[i], walk[i + 1]) in Links(edges) {
      if k + i < |path| - 1 { assert (path[k + i], path[k + i + 1]) in Links(edges); }
    }
    assert IsCycle(edges, walk);
  }

  /** A vertex whose successors are all finished can be finished. */
  lemma FinishVertex(edges: seq<Edge>, finished: seq<string>, u: string, next: seq<string>)
    requires ReverseTopological(Links(edges), finished) && Sorting.NoDuplicates(finished)
    requires u !in finished && next == Successors(edges, u)
    requires forall v | v in next :: v in finished
    ensures ReverseTopological(Links(edges), finished + [u]) && Sorting.NoDuplicates(finished + [u])
    ensures Elements(finished + [u]) == Elements(finished) + {u}
  {
    var longer := finished + [u];
    forall i, b | 0 <= i < |longer| && (longer[i], b) in Links(edges) ensures b in longer[..i] {
      SuccessorsAreLinks(edges, longer[i], b);
      if i < |finished| {
        assert longer[..i] == finished[..i];
      } else {
        assert longer[..i] == finished;
      }
    }
  }
}
