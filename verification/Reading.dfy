/** Reading is exact: a document is read as a graph if and only if it is acceptable and says that
    graph. A header adds checks and changes nothing of what is read. */
module Reading {
  import opened Wrappers
  import opened Json
  import opened Ir
  import opened Enums
  import opened Schema
  import opened Documents
  import opened DocumentMeaning
  import RoundTrips
  import Sorting

  // ----- Leaves -----

  lemma {:induction false} StringsSaid(items: seq<Json>, v: seq<string>)
    requires |v| == |items| && forall i | 0 <= i < |v| :: items[i] == Str(v[i])
    ensures ReadStrings(items) == Ok(v)
  {
    if v != [] {
      StringsSaid(items[1..], v[1..]);
      assert v == [v[0]] + v[1..];
    }
  }

  lemma ListSaid(o: Fields, n: Name, v: seq<string>)
    requires ListAt(o, n, v)
    ensures ReadStringList(Get(o, n, Arr([]))) == Ok(v)
  {
    StringsSaid(Get(o, n, Arr([])).items, v);
  }

  lemma SetSaid(o: Fields, n: Name, v: set<string>)
    requires SetAt(o, n, v)
    ensures ReadStringSet(Get(o, n, Arr([]))) == Ok(v)
    ensures ReadStringList(Get(o, n, Arr([]))).Ok?
    ensures forall s :: s in ReadStringList(Get(o, n, Arr([]))).value <==> s in v
  {
    var items := Get(o, n, Arr([])).items;
    assert forall i | 0 <= i < |items| :: items[i] in items;
    var strings := seq(|items|, i requires 0 <= i < |items| => if items[i].Str? then items[i].s else "");
    assert forall i | 0 <= i < |strings| :: items[i] == Str(strings[i]);
    StringsSaid(items, strings);
    forall s ensures s in strings <==> Str(s) in items {
      if Str(s) in items { var i :| 0 <= i < |items| && items[i] == Str(s); assert strings[i] == s; }
    }
    assert (set x | x in strings) == v;
  }

  // ----- Contracts -----

  lemma PortSaid(j: Json, p: PortContract)
    requires p.Valid() && PortSays(j, p)
    ensures ReadPort(j) == Ok(p)
  {
    PortDirectionReadBack(p.direction);
    PortKindReadBack(p.kind);
    PortCardinalityReadBack(p.cardinality);
  }

  lemma {:induction false} PortsSaid(items: seq<Json>, ports: seq<PortContract>)
    requires |ports| == |items| && forall i | 0 <= i < |ports| :: ports[i].Valid() && PortSays(items[i], ports[i])
    ensures ReadPorts(items) == Ok(ports)
  {
    if ports != [] {
      PortSaid(items[0], ports[0]);
      PortsSaid(items[1..], ports[1..]);
      hide ReadPort;
      hide PortSays;
      assert ports == [ports[0]] + ports[1..];
    }
  }

  lemma IdempotencySaid(j: Json, c: IdempotencyContract)
    requires j.Obj? && c.Valid() && IdempotencySays(j.fields, c)
    ensures ReadIdempotency(j) == Ok(c)
  {
    IdempotencyModeReadBack(c.mode);
    IdempotencyScopeReadBack(c.scope);
  }

  lemma SideEffectsSaid(j: Json, c: SideEffectContract)
    requires j.Obj? && c.Valid() && EffectsSay(j.fields, c)
    ensures ReadSideEffects(j) == Ok(c)
  {
    var names := EffectNames(c.effectTypes);
    SideEffectClassReadBack(c.classification);
    IsolationGradeReadBack(c.minimumIsolation);
    SetSaid(j.fields, EFFECT_TYPES, names);
    var list := ReadStringList(Get(j.fields, EFFECT_TYPES, Arr([]))).value;
    RoundTrips.EffectsReadBack(list, c.effectTypes);
    assert (set e | e in c.effectTypes && e.Value() in list) == c.effectTypes;
    hide SetAt;
    hide ReadEffects;
    hide ReadStringList;
  }

  lemma PlacementSaid(j: Json, c: PlacementContract)
    requires j.Obj? && c.Valid() && PlacementSays(j.fields, c)
    ensures ReadPlacement(j) == Ok(c)
  {
    var o := j.fields;
    SetSaid(o, ALLOWED_REGIONS, c.allowedRegions);
    SetSaid(o, ALLOWED_DEVICES, c.allowedDevices);
    SetSaid(o, ALLOWED_RUNTIMES, c.allowedRuntimes);
    SetSaid(o, REQUIRED_CAPABILITIES, c.requiredCapabilities);
    ListSaid(o, PREFERRED_REGIONS, c.preferredRegions);
    ListSaid(o, PREFERRED_DEVICES, c.preferredDevices);
    hide SetAt;
    hide ListAt;
    hide ReadStringSet;
    hide ReadStringList;
    hide PlacementContract.Valid;
  }

  lemma ClassificationSaid(o: Fields, n: Name, c: DataClassification, default: DataClassification)
    requires TextOr(o, n, c.Value(), default.Value())
    ensures AsMember(ParseDataClassification, Get(o, n, Str(default.Value()))) == Ok(c)
  {
    DataClassificationReadBack(c);
    DataClassificationReadBack(default);
  }

  lemma SecuritySaid(j: Json, c: SecurityContract)
    requires j.Obj? && c.Valid() && SecuritySays(j.fields, c)
    ensures ReadSecurity(j) == Ok(c)
  {
    hide SetAt;
    hide ReadStringSet;
    hide SecurityContract.Valid;
    hide AsMember;
    hide TextOr;
    var o := j.fields;
    SetSaid(o, REQUIRED_PERMISSIONS, c.requiredPermissions);
    SetSaid(o, SECURITY_LABELS, c.securityLabels);
    SetSaid(o, ALLOWED_RESIDENCIES, c.allowedResidencies);
    SetSaid(o, ACCEPTED_TRUST_ZONES, c.acceptedTrustZones);
    ClassificationSaid(o, OUTPUT_CLASSIFICATION, c.outputClassification, InternalData);
    ClassificationSaid(o, MAXIMUM_INPUT_CLASSIFICATION, c.maximumInputClassification, RestrictedData);
    assert AsString(Get(o, TRUST_ZONE, Str(""))) == Ok(c.trustZone) by { ZoneSaid(o, c.trustZone); }
    hide ParseDataClassification;
    hide DataClassification.Value;
  }

  lemma ZoneSaid(o: Fields, zone: string)
    requires TextOr(o, TRUST_ZONE, zone, "")
    ensures AsString(Get(o, TRUST_ZONE, Str(""))) == Ok(zone)
  {
  }

  lemma ContractSaid(j: Json, c: UnitContract)
    requires j.Obj? && c.Valid() && ContractSays(j.fields, c)
    ensures ReadContract(j) == Ok(c)
  {
    ContractPartsSaid(j.fields, c);
    hide *;
    var o := j.fields;
    PortsSaid(ItemsAt(o, PORTS), c.ports);
    IdempotencySaid(Get(o, IDEMPOTENCY, Obj(map[])), c.idempotency);
    SideEffectsSaid(Get(o, SIDE_EFFECTS, Obj(map[])), c.sideEffects);
    PlacementSaid(Get(o, PLACEMENT, Obj(map[])), c.placement);
    SecuritySaid(Get(o, SECURITY, Obj(map[])), c.security);
    ContractFromReadParts(o, c);
  }

  /** The fields that are neither parts nor ports, and no unknown one. */
  ghost predicate ContractHeadSays(o: Fields, c: UnitContract) {
    && o.Keys <= CONTRACT_FIELDS && ItemsGiven(o, PORTS)
    && ValueOr(o, INPUT_SCHEMA, c.inputSchema, Obj(map[])) && ValueOr(o, OUTPUT_SCHEMA, c.outputSchema, Obj(map[]))
    && ValueOr(o, PRECONDITIONS, c.preconditions, Arr([])) && ValueOr(o, POSTCONDITIONS, c.postconditions, Arr([]))
    && ValueOr(o, RESOURCE_LIMITS, c.resourceLimits, Obj(map[]))
  }

  lemma ContractPartsSaid(o: Fields, c: UnitContract)
    requires c.Valid() && ContractSays(o, c)
    ensures ContractHeadSays(o, c)
    ensures |c.ports| == |ItemsAt(o, PORTS)|
    ensures forall i | 0 <= i < |c.ports| :: c.ports[i].Valid() && PortSays(ItemsAt(o, PORTS)[i], c.ports[i])
    ensures var p := Get(o, IDEMPOTENCY, Obj(map[]));
            p.Obj? && c.idempotency.Valid() && IdempotencySays(p.fields, c.idempotency)
    ensures var p := Get(o, SIDE_EFFECTS, Obj(map[]));
            p.Obj? && c.sideEffects.Valid() && EffectsSay(p.fields, c.sideEffects)
    ensures var p := Get(o, PLACEMENT, Obj(map[]));
            p.Obj? && c.placement.Valid() && PlacementSays(p.fields, c.placement)
    ensures var p := Get(o, SECURITY, Obj(map[]));
            p.Obj? && c.security.Valid() && SecuritySays(p.fields, c.security)
  {
    hide PortSays;
    hide IdempotencySays;
    hide EffectsSay;
    hide PlacementSays;
    hide SecuritySays;
    hide PortContract.Valid;
    hide IdempotencyContract.Valid;
    hide SideEffectContract.Valid;
    hide PlacementContract.Valid;
    hide SecurityContract.Valid;
  }

  lemma ContractFromReadParts(o: Fields, c: UnitContract)
    requires ContractHeadSays(o, c)
    requires ReadPorts(ItemsAt(o, PORTS)) == Ok(c.ports)
    requires ReadIdempotency(Get(o, IDEMPOTENCY, Obj(map[]))) == Ok(c.idempotency)
    requires ReadSideEffects(Get(o, SIDE_EFFECTS, Obj(map[]))) == Ok(c.sideEffects)
    requires ReadPlacement(Get(o, PLACEMENT, Obj(map[]))) == Ok(c.placement)
    requires ReadSecurity(Get(o, SECURITY, Obj(map[]))) == Ok(c.security)
    ensures ReadContract(Obj(o)) == Ok(c)
  {
    hide ReadPorts;
    hide ReadIdempotency;
    hide ReadSideEffects;
    hide ReadPlacement;
    hide ReadSecurity;
    hide UnitContract.Valid;
  }

  lemma {:induction false} ConstraintsSaid(items: seq<Json>, ks: seq<Constraint>)
    requires |ks| == |items| && forall i | 0 <= i < |ks| :: ConstraintSays(items[i], ks[i])
    ensures ReadConstraints(items) == Ok(ks)
  {
    if ks != [] {
      EnforcementTierReadBack(ks[0].tier);
      assert ReadConstraint(items[0]) == Ok(ks[0]);
      ConstraintsSaid(items[1..], ks[1..]);
      hide ConstraintSays;
      hide ReadConstraint;
      assert ks == [ks[0]] + ks[1..];
    }
  }

  lemma MutationSaid(j: Json, c: MutationContract)
    requires j.Obj? && MutationSays(j.fields, c)
    ensures ReadMutation(j) == Ok(c)
  {
    SetSaid(j.fields, ALLOWED_MUTATIONS, c.allowedMutations);
    hide SetAt;
    hide ReadStringSet;
  }

  // ----- Units and edges -----

  lemma UnitPartsSaid(o: Fields, u: Unit)
    requires u.Valid() && UnitSays(Obj(o), u)
    ensures UnitHeadSays(o, u) && ListAt(o, SUB_UNITS, u.subUnits) && ItemsGiven(o, CONSTRAINTS)
    ensures u.contract.Valid()
    ensures var p := Get(o, CONTRACT, Obj(map[])); p.Obj? && ContractSays(p.fields, u.contract)
    ensures var p := Get(o, MUTATION_CONTRACT, Obj(map[])); p.Obj? && MutationSays(p.fields, u.mutationContract)
    ensures |u.constraints| == |ItemsAt(o, CONSTRAINTS)|
    ensures forall i | 0 <= i < |u.constraints| :: ConstraintSays(ItemsAt(o, CONSTRAINTS)[i], u.constraints[i])
  {
    hide UnitHeadSays;
    hide ListAt;
    hide ContractSays;
    hide MutationSays;
    hide ConstraintSays;
    hide UnitContract.Valid;
  }

  lemma UnitSaid(j: Json, u: Unit)
    requires u.Valid() && UnitSays(j, u)
    ensures ReadUnit(j) == Ok(u)
  {
    assert j.Obj? by { hide ContractSays; hide MutationSays; hide ConstraintSays; hide Unit.Valid; }
    hide *;
    var o := j.fields;
    UnitPartsSaid(o, u);
    ListSaid(o, SUB_UNITS, u.subUnits);
    ContractSaid(Get(o, CONTRACT, Obj(map[])), u.contract);
    MutationSaid(Get(o, MUTATION_CONTRACT, Obj(map[])), u.mutationContract);
    ConstraintsSaid(ItemsAt(o, CONSTRAINTS), u.constraints);
    UnitFromReadParts(o, u);
  }

  lemma UnitFromReadParts(o: Fields, u: Unit)
    requires u.Valid() && UnitHeadSays(o, u) && ItemsGiven(o, CONSTRAINTS)
    requires ReadStringList(Get(o, SUB_UNITS, Arr([]))) == Ok(u.subUnits)
    requires ReadContract(Get(o, CONTRACT, Obj(map[]))) == Ok(u.contract)
    requires ReadMutation(Get(o, MUTATION_CONTRACT, Obj(map[]))) == Ok(u.mutationContract)
    requires ReadConstraints(ItemsAt(o, CONSTRAINTS)) == Ok(u.constraints)
    ensures ReadUnit(Obj(o)) == Ok(u)
  {
    StructureDimensionReadBack(u.structure);
    VisibilityDimensionReadBack(u.visibility);
    LifecycleDimensionReadBack(u.lifecycle);
    hide Unit.Valid;
    hide ReadContract;
    hide ReadMutation;
    hide ReadConstraints;
    hide ReadStringList;
  }

  lemma EdgeSaid(j: Json, e: Edge)
    requires e.Valid() && EdgeSays(j, e)
    ensures ReadEdge(j) == Ok(e)
  {
    EdgeTypeReadBack(e.edgeType);
  }

  lemma {:induction false} EdgesSaid(items: seq<Json>, es: seq<Edge>)
    requires EdgesSay(items, es) && forall e | e in es :: e.Valid()
    ensures ReadEdges(items) == Ok(es)
  {
    hide EdgeSays;
    hide ReadEdge;
    hide Edge.Valid;
    if es != [] {
      var last := |es| - 1;
      assert forall e | e in es[..last] :: e in es;
      EdgesSaid(items[..last], es[..last]);
      EdgeSaid(items[last], es[last]);
      assert es == es[..last] + [es[last]];
    }
  }

  lemma {:induction false} UnitsSaid(ids: seq<string>, units: Fields, us: map<string, Unit>)
    requires Sorting.NoDuplicates(ids)
    requires forall id | id in ids ::
               id in us && Key(id) in units && us[id].unitId == id && us[id].Valid() && UnitSays(units[Key(id)], us[id])
    ensures ReadUnits(ids, units) == Ok(RoundTrips.Restrict(us, ids))
  {
    hide UnitSays;
    hide ReadUnit;
    hide Unit.Valid;
    if ids == [] {
      assert RoundTrips.Restrict(us, ids) == map[];
    } else {
      var front, id := ids[..|ids| - 1], ids[|ids| - 1];
      assert ids == front + [id] && id in ids && id !in front;
      assert forall x | x in front :: x in ids;
      UnitsSaid(front, units, us);
      UnitSaid(units[Key(id)], us[id]);
      RoundTrips.RestrictStep(us, front, id);
      hide *;
      RoundTrips.ReadUnitsStep(front, id, units, RoundTrips.Restrict(us, front), us[id]);
    }
  }

  // ----- Graphs -----

  lemma GraphPartsSaid(o: Fields, g: Graph)
    requires g.Valid() && GraphSays(Obj(o), g)
    ensures GraphHeadSays(o, g) && PartGiven(o, UNITS) && ItemsGiven(o, EDGES)
    ensures EdgesSay(ItemsAt(o, EDGES), g.edges) && forall e | e in g.edges :: e.Valid()
    ensures forall id :: id in g.units <==> id in UnitKeys(PartAt(o, UNITS))
    ensures forall id | id in g.units ::
              && g.units[id].unitId == id && g.units[id].Valid() && Key(id) in PartAt(o, UNITS)
              && UnitSays(PartAt(o, UNITS)[Key(id)], g.units[id])
  {
    hide GraphHeadSays;
    hide UnitSays;
    hide EdgesSay;
    hide Unit.Valid;
    hide Edge.Valid;
  }

  lemma GraphSaid(document: Json, g: Graph)
    requires Acceptable(document) && g.Valid() && GraphSays(document, g)
    ensures ReadGraph(document) == Ok(g)
  {
    assert document.Obj? by { hide UnitAcceptable; hide EdgeAcceptable; hide Graph.Valid; hide GraphSays; }
    assert Normalized(g.graphId);
    hide *;
    var o := document.fields;
    GraphPartsSaid(o, g);
    var ids := UnitKeys(PartAt(o, UNITS));
    UnitsSaid(ids, PartAt(o, UNITS), g.units);
    EdgesSaid(ItemsAt(o, EDGES), g.edges);
    AllRestricted(g.units, ids);
    GraphFromReadParts(o, g);
  }

  lemma AllRestricted(units: map<string, Unit>, ids: seq<string>)
    requires forall id :: id in units <==> id in ids
    ensures RoundTrips.Restrict(units, ids) == units
  {
  }

  lemma GraphFromReadParts(o: Fields, g: Graph)
    requires Acceptable(Obj(o)) && Normalized(g.graphId) && GraphHeadSays(o, g)
    requires PartGiven(o, UNITS) && ItemsGiven(o, EDGES)
    requires ReadUnits(UnitKeys(PartAt(o, UNITS)), PartAt(o, UNITS)) == Ok(g.units)
    requires ReadEdges(ItemsAt(o, EDGES)) == Ok(g.edges)
    ensures ReadGraph(Obj(o)) == Ok(g)
  {
    hide Acceptable;
    hide ReadUnits;
    hide ReadEdges;
    hide UnitKeys;
    hide Normalized;
  }

  /** A document reads as a graph exactly when it is acceptable and says that graph, which keeps
      every constructor's invariant. */
  lemma ReadsIff(document: Json, g: Graph)
    ensures ReadGraph(document) == Ok(g) <==> Acceptable(document) && g.Valid() && GraphSays(document, g)
  {
    hide *;
    if ReadGraph(document) == Ok(g) {
      GraphRead(document);
      ReadMeansAcceptable(document);
    }
    if Acceptable(document) && g.Valid() && GraphSays(document, g) { GraphSaid(document, g); }
  }

  lemma ReadMeansAcceptable(document: Json)
    requires ReadGraph(document).Ok?
    ensures Acceptable(document)
  {
    hide Acceptable;
    hide ReadUnits;
    hide ReadEdges;
    hide UnitKeys;
  }

  // ----- Headers -----

  function WithoutHeader(o: Fields): Fields { o - {SCHEMA_ID, SCHEMA_VERSION, COMPATIBILITY_VERSION} }

  lemma HeaderOnlyChecks(o: Fields)
    requires Acceptable(Obj(o))
    ensures Acceptable(Obj(WithoutHeader(o)))
  {
    var p := WithoutHeader(o);
    assert p.Keys == o.Keys - {SCHEMA_ID, SCHEMA_VERSION, COMPATIBILITY_VERSION};
    assert ReadHeader(p) == Ok(Legacy);
    var h := ReadHeader(o).value;
    if UNITS in p {
      forall k | k in p[UNITS].fields ensures UnitAcceptable(Legacy, k, p[UNITS].fields[k]) {
        assert UnitAcceptable(h, k, o[UNITS].fields[k]);
      }
    }
    if EDGES in p {
      forall e | e in p[EDGES].items ensures EdgeAcceptable(Legacy, e) { assert EdgeAcceptable(h, e); }
    }
    hide UnitAcceptable;
    hide EdgeAcceptable;
  }

  lemma HeaderSaysNothing(o: Fields, g: Graph)
    requires GraphSays(Obj(o), g)
    ensures GraphSays(Obj(WithoutHeader(o)), g)
  {
    hide UnitSays;
    hide EdgesSay;
    HeadSaysNothingNew(o, g);
    hide GraphHeadSays;
  }

  lemma HeadSaysNothingNew(o: Fields, g: Graph)
    ensures GraphHeadSays(WithoutHeader(o), g) <==> GraphHeadSays(o, g)
  {
    hide NaturalOr;
  }

  /** A document from before the headers, with everything else the same, reads as the same graph. */
  lemma HeaderlessReadsAlike(o: Fields)
    requires ReadGraph(Obj(o)).Ok?
    ensures ReadGraph(Obj(WithoutHeader(o))) == ReadGraph(Obj(o))
  {
    hide *;
    var g := ReadGraph(Obj(o)).value;
    ReadsIff(Obj(o), g);
    HeaderOnlyChecks(o);
    HeaderSaysNothing(o, g);
    ReadsIff(Obj(WithoutHeader(o)), g);
  }

  /** Two graphs that a document says are the same graph. */
  lemma SaysOneGraph(document: Json, g: Graph, h: Graph)
    requires Acceptable(document) && g.Valid() && h.Valid() && GraphSays(document, g) && GraphSays(document, h)
    ensures g == h
  {
    hide *;
    GraphSaid(document, g);
    GraphSaid(document, h);
  }
}
