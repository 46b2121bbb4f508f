/** What a graph that passes the validator can rely on in the other operations. */
module WellFormedGraphs {
  import opened Wrappers
  import opened Ir
  import opened Cycles
  import opened Validator
  import Documents
  import RoundTrips
  import SG = StructuralGraph

  /** A graph that passes the validator prints the same document whatever the insertion order of
      its edges: declared ports have names, so a missing port is never taken for one. */
  lemma WellFormedIsOrderFree(g: Graph)
    requires g.Valid() && WellFormed(g.units, g.edges)
    ensures RoundTrips.OrderFree(g)
  {
    RoundTrips.OrderFreeIffKeysDistinguish(g);
    hide RoundTrips.OrderFree;
    forall e, f | e in g.edges && f in g.edges && Documents.EdgeLeq(e, f) && Documents.EdgeLeq(f, e) ensures e == f {
      EqualKeysEqualEdges(g, e, f);
    }
  }

  lemma EqualKeysEqualEdges(g: Graph, e: Edge, f: Edge)
    requires g.Valid() && WellFormed(g.units, g.edges) && e in g.edges && f in g.edges
    requires Documents.EdgeLeq(e, f) && Documents.EdgeLeq(f, e)
    ensures e == f
  {
    RoundTrips.SameEdgeKey(e, f);
    hide Documents.EdgeLeq;
    NamedPorts(g, e);
    NamedPorts(g, f);
    var i :| 0 <= i < |g.edges| && g.edges[i] == e;
    var j :| 0 <= j < |g.edges| && g.edges[j] == f;
    assert SameIdentity(e, f) && SameIdentity(f, e);
    hide GovernanceWellFormed;
    hide BindingWellFormed;
    hide UnitWellFormed;
    hide Fits;
  }

  lemma NamedPorts(g: Graph, e: Edge)
    requires g.Valid() && WellFormed(g.units, g.edges) && e in g.edges
    ensures e.sourcePort != Some("") && e.targetPort != Some("")
  {
    var s, t := g.units[e.source], g.units[e.target];
    assert BindingWellFormed(s, t, e);
    PortsHaveNames(s.contract.ports, "");
    PortsHaveNames(t.contract.ports, "");
  }

  lemma {:induction false} PortsHaveNames(ports: seq<PortContract>, portId: string)
    requires forall p | p in ports :: p.Valid()
    ensures FirstPort(ports, portId).Some? ==> Normalized(portId)
  {
    if ports != [] {
      assert ports[0] in ports && ports[0].Valid();
      PortsHaveNames(ports[1..], portId);
    }
  }

  /** Validation settles whether the projection can fail: on a graph that passes the validator it
      answers, with a warning exactly for a cycle. */
  method ValidateThenProject(graph: SG.StructuralGraph)
    returns (v: ValidationResult, p: Result<seq<string>, SG.GraphError>, ghost order: seq<string>)
    requires graph.Valid()
    ensures v.isValid <==> WellFormed(graph.units, graph.edges)
    ensures v.isValid ==> p.Ok?
    ensures p.Ok? ==> (p.value != [] <==> exists chain :: ClosedChain(graph.edges, chain))
  {
    v := ValidateGraph(graph);
    p, order := graph.ProjectToExecutableDag();
    if v.isValid { WellFormedHasSources(graph.units, graph.edges); }
  }

  lemma WellFormedHasSources(units: Units, edges: seq<Edge>)
    requires WellFormed(units, edges)
    ensures SourcesPresent(edges, units.Keys)
  {
  }
}
