/** What a document says about a graph, field by field and with the values that missing fields of
    older documents take, and the proof that the parser reads exactly that. */
module DocumentMeaning {
  import opened Wrappers
  import opened Json
  import opened Ir
  import opened Enums
  import opened Schema
  import opened Documents
  import RoundTrips
  import Sorting
  import Text

  // ----- Fields -----

  ghost predicate TextAt(o: Fields, n: Name, v: string) { n in o && o[n] == Str(v) }

  ghost predicate TextOr(o: Fields, n: Name, v: string, default: string) {
    if n in o then o[n] == Str(v) else v == default
  }

  ghost predicate NullableAt(o: Fields, n: Name, v: Option<string>) {
    if n in o && o[n] != Null then v.Some? && o[n] == Str(v.value) else v.None?
  }

  ghost predicate FlagOr(o: Fields, n: Name, v: bool, default: bool) {
    if n in o then o[n] == Bool(v) else v == default
  }

  ghost predicate NaturalOr(o: Fields, n: Name, v: nat, default: nat) {
    if n in o then o[n] == Int(v) else v == default
  }

  ghost predicate ValueOr(o: Fields, n: Name, v: Json, default: Json) {
    if n in o then o[n] == v else v == default
  }

  ghost predicate ListAt(o: Fields, n: Name, v: seq<string>) {
    if n in o then o[n].Arr? && |o[n].items| == |v| && forall i | 0 <= i < |v| :: o[n].items[i] == Str(v[i])
    else v == []
  }

  /** The field lists exactly the members, in any order. */
  ghost predicate SetAt(o: Fields, n: Name, v: set<string>) {
    if n in o then o[n].Arr? && (forall x | x in o[n].items :: x.Str?) && (forall s :: s in v <==> Str(s) in o[n].items)
    else v == {}
  }

  /** The part at a field; a missing part says what an empty one says. */
  ghost function PartAt(o: Fields, n: Name): Fields {
    if n in o && o[n].Obj? then o[n].fields else map[]
  }

  ghost predicate PartGiven(o: Fields, n: Name) { n in o ==> o[n].Obj? }

  ghost predicate ItemsGiven(o: Fields, n: Name) { n in o ==> o[n].Arr? }

  ghost function ItemsAt(o: Fields, n: Name): seq<Json> {
    if n in o && o[n].Arr? then o[n].items else []
  }

  // ----- Contracts -----

  ghost predicate PortSays(j: Json, p: PortContract) {
    j.Obj? && var o := j.fields;
    && TextAt(o, PORT_ID, p.portId) && TextAt(o, DIRECTION, p.direction.Value()) && TextAt(o, KIND, p.kind.Value())
    && ValueOr(o, SCHEMA, p.schema, Obj(map[]))
    && TextOr(o, CARDINALITY, p.cardinality.Value(), "EXACTLY_ONE") && TextOr(o, DESCRIPTION, p.description, "")
  }

  ghost predicate IdempotencySays(o: Fields, c: IdempotencyContract) {
    && TextOr(o, MODE, c.mode.Value(), "NONE") && TextOr(o, SCOPE, c.scope.Value(), "TASK")
    && NullableAt(o, KEY_FIELD, c.keyField) && FlagOr(o, PAYLOAD_HASH_REQUIRED, c.payloadHashRequired, true)
  }

  ghost predicate EffectsSay(o: Fields, c: SideEffectContract) {
    && TextOr(o, CLASSIFICATION, c.classification.Value(), "NONE")
    && SetAt(o, EFFECT_TYPES, set e | e in c.effectTypes :: e.Value())
    && NullableAt(o, COMPENSATION_ACTION, c.compensationAction)
    && TextOr(o, MINIMUM_ISOLATION, c.minimumIsolation.Value(), "I0_NONE")
  }

  ghost predicate PlacementSays(o: Fields, c: PlacementContract) {
    && SetAt(o, ALLOWED_REGIONS, c.allowedRegions) && SetAt(o, ALLOWED_DEVICES, c.allowedDevices)
    && SetAt(o, ALLOWED_RUNTIMES, c.allowedRuntimes) && SetAt(o, REQUIRED_CAPABILITIES, c.requiredCapabilities)
    && ListAt(o, PREFERRED_REGIONS, c.preferredRegions) && ListAt(o, PREFERRED_DEVICES, c.preferredDevices)
    && FlagOr(o, REQUIRES_LOCAL_INPUTS, c.requiresLocalInputs, false)
  }

  ghost predicate SecuritySays(o: Fields, c: SecurityContract) {
    && NullableAt(o, TENANT_ID, c.tenantId)
    && SetAt(o, REQUIRED_PERMISSIONS, c.requiredPermissions) && SetAt(o, SECURITY_LABELS, c.securityLabels)
    && TextOr(o, OUTPUT_CLASSIFICATION, c.outputClassification.Value(), "INTERNAL")
    && TextOr(o, MAXIMUM_INPUT_CLASSIFICATION, c.maximumInputClassification.Value(), "RESTRICTED")
    && SetAt(o, ALLOWED_RESIDENCIES, c.allowedResidencies)
    && TextOr(o, TRUST_ZONE, c.trustZone, "") && SetAt(o, ACCEPTED_TRUST_ZONES, c.acceptedTrustZones)
    && FlagOr(o, CONFIDENTIAL_COMPUTE_REQUIRED, c.confidentialComputeRequired, false)
  }

  /** A contract has no field besides these. */
  ghost predicate ContractSays(o: Fields, c: UnitContract) {
    && o.Keys <= CONTRACT_FIELDS && ItemsGiven(o, PORTS)
    && PartGiven(o, IDEMPOTENCY) && PartGiven(o, SIDE_EFFECTS) && PartGiven(o, PLACEMENT) && PartGiven(o, SECURITY)
    && ValueOr(o, INPUT_SCHEMA, c.inputSchema, Obj(map[])) && ValueOr(o, OUTPUT_SCHEMA, c.outputSchema, Obj(map[]))
    && ValueOr(o, PRECONDITIONS, c.preconditions, Arr([])) && ValueOr(o, POSTCONDITIONS, c.postconditions, Arr([]))
    && ValueOr(o, RESOURCE_LIMITS, c.resourceLimits, Obj(map[]))
    && |c.ports| == |ItemsAt(o, PORTS)|
    && (forall i | 0 <= i < |c.ports| :: PortSays(ItemsAt(o, PORTS)[i], c.ports[i]))
    && IdempotencySays(PartAt(o, IDEMPOTENCY), c.idempotency) && EffectsSay(PartAt(o, SIDE_EFFECTS), c.sideEffects)
    && PlacementSays(PartAt(o, PLACEMENT), c.placement) && SecuritySays(PartAt(o, SECURITY), c.security)
  }

  // ----- Units, edges and graphs -----

  ghost predicate ConstraintSays(j: Json, k: Constraint) {
    j.Obj? && var o := j.fields;
    && CONSTRAINT_ID in o && o[CONSTRAINT_ID] == k.constraintId && TextAt(o, TIER, k.tier.Value())
    && EXPRESSION in o && o[EXPRESSION] == k.expression && DESCRIPTION in o && o[DESCRIPTION] == k.description
  }

  ghost predicate MutationSays(o: Fields, c: MutationContract) {
    && SetAt(o, ALLOWED_MUTATIONS, c.allowedMutations)
    && ValueOr(o, MAX_CHILDREN, c.maxChildren, Int(100)) && ValueOr(o, IS_IMMUTABLE, c.isImmutable, Bool(false))
  }

  ghost predicate UnitHeadSays(o: Fields, u: Unit) {
    && TextAt(o, UNIT_ID, u.unitId) && TextAt(o, NAME, u.name) && TextAt(o, STRUCTURE, u.structure.Value())
    && TextAt(o, VISIBILITY, u.visibility.Value()) && TextAt(o, LIFECYCLE, u.lifecycle.Value())
    && ValueOr(o, METADATA, u.metadata, Obj(map[]))
  }

  ghost predicate UnitSays(j: Json, u: Unit) {
    j.Obj? && var o := j.fields;
    && UnitHeadSays(o, u) && ListAt(o, SUB_UNITS, u.subUnits)
    && PartGiven(o, CONTRACT) && PartGiven(o, MUTATION_CONTRACT) && ItemsGiven(o, CONSTRAINTS)
    && ContractSays(PartAt(o, CONTRACT), u.contract) && MutationSays(PartAt(o, MUTATION_CONTRACT), u.mutationContract)
    && |u.constraints| == |ItemsAt(o, CONSTRAINTS)|
    && (forall i | 0 <= i < |u.constraints| :: ConstraintSays(ItemsAt(o, CONSTRAINTS)[i], u.constraints[i]))
  }

  ghost predicate EdgeSays(j: Json, e: Edge) {
    j.Obj? && var o := j.fields;
    && TextAt(o, SOURCE, e.source) && TextAt(o, TARGET, e.target) && TextAt(o, EDGE_TYPE, e.edgeType.Value())
    && ValueOr(o, METADATA, e.metadata, Obj(map[]))
    && NullableAt(o, SOURCE_PORT, e.sourcePort) && NullableAt(o, TARGET_PORT, e.targetPort)
  }

  ghost predicate VersionSays(o: Fields, v: GraphVersion) {
    && NaturalOr(o, MAJOR, v.major, 1) && NaturalOr(o, MINOR, v.minor, 0)
    && NaturalOr(o, PATCH, v.patch, 0) && NaturalOr(o, SEQUENCE, v.sequence, 0)
  }

  ghost predicate GraphHeadSays(o: Fields, g: Graph) {
    && TextAt(o, GRAPH_ID, g.graphId) && PartGiven(o, VERSION) && VersionSays(PartAt(o, VERSION), g.version)
    && ValueOr(o, METADATA, g.metadata, Obj(map[]))
  }

  /** The units with the identifiers among those given, each as the document says it. */
  ghost predicate UnitsSay(ids: seq<string>, units: Fields, us: map<string, Unit>) {
    && (forall id :: id in us <==> id in ids)
    && (forall id | id in us :: Key(id) in units && UnitSays(units[Key(id)], us[id]))
  }

  ghost predicate EdgesSay(items: seq<Json>, es: seq<Edge>) {
    |es| == |items| && forall i | 0 <= i < |es| :: EdgeSays(items[i], es[i])
  }

  /** The graph has exactly the units, edges and header of the document. */
  ghost predicate GraphSays(document: Json, g: Graph) {
    document.Obj? && var o := document.fields;
    && GraphHeadSays(o, g) && PartGiven(o, UNITS) && ItemsGiven(o, EDGES)
    && (forall id :: id in g.units <==> Key(id) in PartAt(o, UNITS))
    && (forall id | id in g.units :: Key(id) in PartAt(o, UNITS) && UnitSays(PartAt(o, UNITS)[Key(id)], g.units[id]))
    && EdgesSay(ItemsAt(o, EDGES), g.edges)
  }

  // ----- The parser reads what the document says -----

  lemma {:induction false} ReadStringsSay(items: seq<Json>)
    requires ReadStrings(items).Ok?
    ensures var v := ReadStrings(items).value;
            |v| == |items| && forall i | 0 <= i < |v| :: items[i] == Str(v[i])
  {
    if items != [] { ReadStringsSay(items[1..]); }
  }

  lemma ListRead(o: Fields, n: Name)
    requires ReadStringList(Get(o, n, Arr([]))).Ok?
    ensures ListAt(o, n, ReadStringList(Get(o, n, Arr([]))).value)
  {
    ReadStringsSay(Get(o, n, Arr([])).items);
  }

  lemma SetRead(o: Fields, n: Name)
    requires ReadStringSet(Get(o, n, Arr([]))).Ok?
    ensures SetAt(o, n, ReadStringSet(Get(o, n, Arr([]))).value)
  {
    var items := Get(o, n, Arr([])).items;
    ReadStringsSay(items);
    var v := ReadStrings(items).value;
    assert forall i | 0 <= i < |v| :: items[i] == Str(v[i]) && v[i] in v;
    forall s ensures s in v <==> Str(s) in items {
      if Str(s) in items { var i :| 0 <= i < |items| && items[i] == Str(s); }
      if s in v { var i :| 0 <= i < |v| && v[i] == s; assert items[i] in items; }
    }
  }

  lemma PortRead(j: Json)
    requires ReadPort(j).Ok?
    ensures PortSays(j, ReadPort(j).value)
  {
  }

  lemma {:induction false} PortsRead(items: seq<Json>)
    requires ReadPorts(items).Ok?
    ensures var ports := ReadPorts(items).value;
            |ports| == |items| && forall i | 0 <= i < |ports| :: PortSays(items[i], ports[i])
  {
    if items != [] {
      PortRead(items[0]);
      PortsRead(items[1..]);
      hide PortSays;
      hide ReadPort;
    }
  }

  lemma IdempotencyRead(j: Json)
    requires ReadIdempotency(j).Ok?
    ensures j.Obj? && IdempotencySays(j.fields, ReadIdempotency(j).value)
  {
  }

  lemma {:induction false} EffectsOfNames(names: seq<string>)
    requires ReadEffects(names).Ok?
    ensures (set e | e in ReadEffects(names).value :: e.Value()) == set s | s in names
  {
    if names != [] {
      EffectsOfNames(names[1..]);
      var head, rest := ParseEffectType(names[0]).value, ReadEffects(names[1..]).value;
      assert ReadEffects(names).value == {head} + rest && head.Value() == names[0];
      assert names == [names[0]] + names[1..];
      var before, after := set e | e in rest :: e.Value(), set e | e in {head} + rest :: e.Value();
      assert after == {names[0]} + before;
    }
  }

  lemma SideEffectsRead(j: Json)
    requires ReadSideEffects(j).Ok?
    ensures j.Obj? && EffectsSay(j.fields, ReadSideEffects(j).value)
  {
    var o := j.fields;
    var names := ReadStringList(Get(o, EFFECT_TYPES, Arr([]))).value;
    EffectsOfNames(names);
    SetRead(o, EFFECT_TYPES);
    hide SetAt;
    hide ReadEffects;
    hide ReadStrings;
  }

  lemma PlacementRead(j: Json)
    requires ReadPlacement(j).Ok?
    ensures j.Obj? && PlacementSays(j.fields, ReadPlacement(j).value)
  {
    var o := j.fields;
    SetRead(o, ALLOWED_REGIONS);
    SetRead(o, ALLOWED_DEVICES);
    SetRead(o, ALLOWED_RUNTIMES);
    SetRead(o, REQUIRED_CAPABILITIES);
    ListRead(o, PREFERRED_REGIONS);
    ListRead(o, PREFERRED_DEVICES);
    hide SetAt;
    hide ListAt;
    hide ReadStringSet;
    hide ReadStringList;
  }

  lemma SecurityRead(j: Json)
    requires ReadSecurity(j).Ok?
    ensures j.Obj? && SecuritySays(j.fields, ReadSecurity(j).value)
  {
    var o := j.fields;
    SetRead(o, REQUIRED_PERMISSIONS);
    SetRead(o, SECURITY_LABELS);
    SetRead(o, ALLOWED_RESIDENCIES);
    SetRead(o, ACCEPTED_TRUST_ZONES);
    hide SetAt;
    hide ReadStringSet;
  }

  lemma ContractParts(j: Json)
    requires ReadContract(j).Ok?
    ensures j.Obj? && var o, c := j.fields, ReadContract(j).value;
            && o.Keys <= CONTRACT_FIELDS
            && Get(o, PORTS, Arr([])).Arr? && ReadPorts(Get(o, PORTS, Arr([])).items) == Ok(c.ports)
            && ReadIdempotency(Get(o, IDEMPOTENCY, Obj(map[]))) == Ok(c.idempotency)
            && ReadSideEffects(Get(o, SIDE_EFFECTS, Obj(map[]))) == Ok(c.sideEffects)
            && ReadPlacement(Get(o, PLACEMENT, Obj(map[]))) == Ok(c.placement)
            && ReadSecurity(Get(o, SECURITY, Obj(map[]))) == Ok(c.security)
            && ValueOr(o, INPUT_SCHEMA, c.inputSchema, Obj(map[]))
            && ValueOr(o, OUTPUT_SCHEMA, c.outputSchema, Obj(map[]))
            && ValueOr(o, PRECONDITIONS, c.preconditions, Arr([]))
            && ValueOr(o, POSTCONDITIONS, c.postconditions, Arr([]))
            && ValueOr(o, RESOURCE_LIMITS, c.resourceLimits, Obj(map[]))
  {
    hide ReadPorts;
    hide ReadIdempotency;
    hide ReadSideEffects;
    hide ReadPlacement;
    hide ReadSecurity;
    hide UnitContract.Valid;
    hide PortContract.Valid;
    hide IdempotencyContract.Valid;
    hide SideEffectContract.Valid;
    hide PlacementContract.Valid;
    hide SecurityContract.Valid;
  }

  lemma ContractRead(j: Json)
    requires ReadContract(j).Ok?
    ensures j.Obj? && ContractSays(j.fields, ReadContract(j).value)
  {
    hide *;
    ContractParts(j);
    var o := j.fields;
    PortsRead(Get(o, PORTS, Arr([])).items);
    IdempotencyRead(Get(o, IDEMPOTENCY, Obj(map[])));
    SideEffectsRead(Get(o, SIDE_EFFECTS, Obj(map[])));
    PlacementRead(Get(o, PLACEMENT, Obj(map[])));
    SecurityRead(Get(o, SECURITY, Obj(map[])));
    ContractFromParts(j.fields, ReadContract(j).value);
  }

  lemma ContractFromParts(o: Fields, c: UnitContract)
    requires o.Keys <= CONTRACT_FIELDS
    requires Get(o, PORTS, Arr([])).Arr? && |c.ports| == |Get(o, PORTS, Arr([])).items|
    requires forall i | 0 <= i < |c.ports| :: PortSays(Get(o, PORTS, Arr([])).items[i], c.ports[i])
    requires var p := Get(o, IDEMPOTENCY, Obj(map[])); p.Obj? && IdempotencySays(p.fields, c.idempotency)
    requires var p := Get(o, SIDE_EFFECTS, Obj(map[])); p.Obj? && EffectsSay(p.fields, c.sideEffects)
    requires var p := Get(o, PLACEMENT, Obj(map[])); p.Obj? && PlacementSays(p.fields, c.placement)
    requires var p := Get(o, SECURITY, Obj(map[])); p.Obj? && SecuritySays(p.fields, c.security)
    requires ValueOr(o, INPUT_SCHEMA, c.inputSchema, Obj(map[]))
    requires ValueOr(o, OUTPUT_SCHEMA, c.outputSchema, Obj(map[]))
    requires ValueOr(o, PRECONDITIONS, c.preconditions, Arr([]))
    requires ValueOr(o, POSTCONDITIONS, c.postconditions, Arr([]))
    requires ValueOr(o, RESOURCE_LIMITS, c.resourceLimits, Obj(map[]))
    ensures ContractSays(o, c)
  {
    hide PortSays;
    hide IdempotencySays;
    hide EffectsSay;
    hide PlacementSays;
    hide SecuritySays;
  }

  lemma {:induction false} ConstraintsRead(items: seq<Json>)
    requires ReadConstraints(items).Ok?
    ensures var ks := ReadConstraints(items).value;
            |ks| == |items| && forall i | 0 <= i < |ks| :: ConstraintSays(items[i], ks[i])
  {
    if items != [] {
      assert ConstraintSays(items[0], ReadConstraint(items[0]).value);
      ConstraintsRead(items[1..]);
      hide ConstraintSays;
      hide ReadConstraint;
    }
  }

  lemma MutationRead(j: Json)
    requires ReadMutation(j).Ok?
    ensures j.Obj? && MutationSays(j.fields, ReadMutation(j).value)
  {
    SetRead(j.fields, ALLOWED_MUTATIONS);
    hide SetAt;
    hide ReadStringSet;
  }

  lemma UnitParts(j: Json)
    requires ReadUnit(j).Ok?
    ensures j.Obj? && var o, u := j.fields, ReadUnit(j).value;
            && ReadStringList(Get(o, SUB_UNITS, Arr([]))) == Ok(u.subUnits)
            && ReadContract(Get(o, CONTRACT, Obj(map[]))) == Ok(u.contract)
            && ReadMutation(Get(o, MUTATION_CONTRACT, Obj(map[]))) == Ok(u.mutationContract)
            && Get(o, CONSTRAINTS, Arr([])).Arr?
            && ReadConstraints(Get(o, CONSTRAINTS, Arr([])).items) == Ok(u.constraints)
            && UnitHeadSays(o, u)
  {
    hide ReadContract;
    hide ReadMutation;
    hide ReadConstraints;
    hide ReadStringList;
    hide Unit.Valid;
  }

  lemma UnitRead(j: Json)
    requires ReadUnit(j).Ok?
    ensures UnitSays(j, ReadUnit(j).value)
  {
    hide *;
    UnitParts(j);
    var o := j.fields;
    ListRead(o, SUB_UNITS);
    ContractRead(Get(o, CONTRACT, Obj(map[])));
    MutationRead(Get(o, MUTATION_CONTRACT, Obj(map[])));
    ConstraintsRead(Get(o, CONSTRAINTS, Arr([])).items);
    UnitFromParts(o, ReadUnit(j).value);
  }

  lemma UnitFromParts(o: Fields, u: Unit)
    requires UnitHeadSays(o, u) && ListAt(o, SUB_UNITS, u.subUnits)
    requires var p := Get(o, CONTRACT, Obj(map[])); p.Obj? && ContractSays(p.fields, u.contract)
    requires var p := Get(o, MUTATION_CONTRACT, Obj(map[])); p.Obj? && MutationSays(p.fields, u.mutationContract)
    requires Get(o, CONSTRAINTS, Arr([])).Arr? && |u.constraints| == |Get(o, CONSTRAINTS, Arr([])).items|
    requires forall i | 0 <= i < |u.constraints| ::
               ConstraintSays(Get(o, CONSTRAINTS, Arr([])).items[i], u.constraints[i])
    ensures UnitSays(Obj(o), u)
  {
    hide UnitHeadSays;
    hide ListAt;
    hide ContractSays;
    hide MutationSays;
    hide ConstraintSays;
  }

  lemma EdgeRead(j: Json)
    requires ReadEdge(j).Ok?
    ensures EdgeSays(j, ReadEdge(j).value)
  {
  }

  lemma {:induction false} EdgesRead(items: seq<Json>)
    requires ReadEdges(items).Ok?
    ensures EdgesSay(items, ReadEdges(items).value)
  {
    hide EdgeSays;
    hide ReadEdge;
    if items != [] {
      var front, last := items[..|items| - 1], items[|items| - 1];
      EdgesRead(front);
      EdgeRead(last);
      OneMoreEdge(front, last, ReadEdges(front).value, ReadEdge(last).value);
      assert front + [last] == items;
      hide EdgesSay;
    }
  }

  lemma OneMoreEdge(items: seq<Json>, item: Json, es: seq<Edge>, e: Edge)
    requires EdgesSay(items, es) && EdgeSays(item, e)
    ensures EdgesSay(items + [item], es + [e])
  {
    hide EdgeSays;
  }

  /** The units of the document, each stored under its own identifier. */
  ghost predicate KeyedByIdentifier(ids: seq<string>, units: Fields) {
    forall id | id in ids :: Key(id) in units && units[Key(id)].Obj? && TextAt(units[Key(id)].fields, UNIT_ID, id)
  }

  lemma OneMoreUnit(front: seq<string>, last: string, units: Fields, us: map<string, Unit>, u: Unit)
    requires UnitsSay(front, units, us) && Key(last) in units && UnitSays(units[Key(last)], u) && last !in us
    ensures UnitsSay(front + [last], units, us[last := u])
  {
    hide UnitSays;
  }

  /** Units keep the keys of the document, because an acceptable one stores each under its own
      identifier. */
  lemma {:induction false} UnitsRead(ids: seq<string>, units: Fields)
    requires KeyedByIdentifier(ids, units)
    requires ReadUnits(ids, units).Ok?
    ensures UnitsSay(ids, units, ReadUnits(ids, units).value)
  {
    hide UnitsSay;
    hide ReadUnit;
    if ids == [] {
      NoUnits(units);
    } else {
      var front, last := ids[..|ids| - 1], ids[|ids| - 1];
      assert ids == front + [last];
      LastUnit(front, last, units);
      UnitsRead(front, units);
      hide *;
      UnitRead(units[Key(last)]);
      OneMoreUnit(front, last, units, ReadUnits(front, units).value, ReadUnit(units[Key(last)]).value);
    }
  }

  lemma NoUnits(units: Fields)
    ensures UnitsSay([], units, map[])
  {
  }

  /** One step of the reader, with the key of the last unit for its identifier. */
  lemma LastUnit(front: seq<string>, last: string, units: Fields)
    requires KeyedByIdentifier(front + [last], units) && ReadUnits(front + [last], units).Ok?
    ensures KeyedByIdentifier(front, units) && ReadUnits(front, units).Ok?
    ensures Key(last) in units && ReadUnit(units[Key(last)]).Ok? && last !in ReadUnits(front, units).value
    ensures ReadUnits(front + [last], units).value
            == ReadUnits(front, units).value[last := ReadUnit(units[Key(last)]).value]
  {
    var ids := front + [last];
    assert last in ids && forall id | id in front :: id in ids;
    assert ids[..|ids| - 1] == front && ids[|ids| - 1] == last;
    assert ReadUnit(units[Key(last)]).Ok? by { hide ReadUnit; }
    assert ReadUnit(units[Key(last)]).value.unitId == last by { IdentifierRead(units[Key(last)]); hide ReadUnit; }
    hide ReadUnit;
  }

  lemma IdentifierRead(j: Json)
    requires ReadUnit(j).Ok?
    ensures j.Obj? && TextAt(j.fields, UNIT_ID, ReadUnit(j).value.unitId)
  {
    hide ReadContract;
    hide ReadMutation;
    hide ReadConstraints;
    hide ReadStrings;
    hide Unit.Valid;
  }

  lemma AcceptableMeansKeyed(o: Fields)
    requires Acceptable(Obj(o))
    ensures KeyedByIdentifier(UnitKeys(PartAt(o, UNITS)), PartAt(o, UNITS))
  {
    hide EdgeAcceptable;
    var units := PartAt(o, UNITS);
    forall id | id in UnitKeys(units)
      ensures Key(id) in units && units[Key(id)].Obj? && TextAt(units[Key(id)].fields, UNIT_ID, id)
    {
      assert UnitAcceptable(ReadHeader(o).value, Key(id), units[Key(id)]);
    }
  }

  lemma GraphParts(o: Fields)
    requires ReadGraph(Obj(o)).Ok?
    ensures var g := ReadGraph(Obj(o)).value;
            && Acceptable(Obj(o)) && PartGiven(o, UNITS) && ItemsGiven(o, EDGES)
            && GraphHeadSays(o, g)
            && ReadUnits(UnitKeys(PartAt(o, UNITS)), PartAt(o, UNITS)) == Ok(g.units)
            && ReadEdges(ItemsAt(o, EDGES)) == Ok(g.edges)
  {
    hide ReadUnits;
    hide ReadEdges;
    hide UnitKeys;
    hide UnitAcceptable;
    hide EdgeAcceptable;
    hide Unit.Valid;
    hide Edge.Valid;
  }

  /** Whatever document reads as a graph, the graph is what the document says. */
  lemma GraphRead(document: Json)
    requires ReadGraph(document).Ok?
    ensures GraphSays(document, ReadGraph(document).value)
  {
    hide *;
    ReadMeansObject(document);
    var o := document.fields;
    GraphParts(o);
    AcceptableMeansKeyed(o);
    UnitsRead(UnitKeys(PartAt(o, UNITS)), PartAt(o, UNITS));
    EdgesRead(ItemsAt(o, EDGES));
    GraphFromParts(o, ReadGraph(document).value);
  }

  lemma ReadMeansObject(document: Json)
    requires ReadGraph(document).Ok?
    ensures document.Obj?
  {
    hide ReadUnits;
    hide ReadEdges;
    hide UnitKeys;
  }

  lemma GraphFromParts(o: Fields, g: Graph)
    requires GraphHeadSays(o, g) && UnitsSay(UnitKeys(PartAt(o, UNITS)), PartAt(o, UNITS), g.units)
    requires PartGiven(o, UNITS) && ItemsGiven(o, EDGES) && EdgesSay(ItemsAt(o, EDGES), g.edges)
    ensures GraphSays(Obj(o), g)
  {
    hide GraphHeadSays;
    hide UnitSays;
    hide EdgesSay;
    hide UnitKeys;
  }

  // ----- The order of what is printed -----

  ghost function PortText(p: Option<string>): string { if p.Some? then p.value else "" }

  /** The edges go by source, then target, kind, source port and target port, a missing port
      counting as the empty text. */
  ghost predicate EdgeNotAfter(e: Edge, f: Edge) {
    if e.source != f.source then Text.StringLeq(e.source, f.source)
    else if e.target != f.target then Text.StringLeq(e.target, f.target)
    else if e.edgeType.Value() != f.edgeType.Value() then Text.StringLeq(e.edgeType.Value(), f.edgeType.Value())
    else if PortText(e.sourcePort) != PortText(f.sourcePort)
        then Text.StringLeq(PortText(e.sourcePort), PortText(f.sourcePort))
    else Text.StringLeq(PortText(e.targetPort), PortText(f.targetPort))
  }

  ghost predicate EdgesInOrder(es: seq<Edge>) { forall i, j | 0 <= i < j < |es| :: EdgeNotAfter(es[i], es[j]) }

  lemma KeyOrderIsFieldByField(e: Edge, f: Edge)
    requires EdgeLeq(e, f)
    ensures EdgeNotAfter(e, f)
  {
    var a, b := EdgeKey(e), EdgeKey(f);
    assert a[1..][1..] == a[2..] && a[2..][1..] == a[3..] && a[3..][1..] == a[4..] && a[4..][1..] == [];
    assert b[1..][1..] == b[2..] && b[2..][1..] == b[3..] && b[3..][1..] == b[4..] && b[4..][1..] == [];
    Text.StringLeqTotal(a[4], a[4]);
    hide Text.StringLeq;
    assert Text.TupleLeq(a, b);
    if a[0] == b[0] {
      assert Text.TupleLeq(a[1..], b[1..]);
      if a[1] == b[1] {
        assert Text.TupleLeq(a[2..], b[2..]);
        if a[2] == b[2] {
          assert Text.TupleLeq(a[3..], b[3..]);
          if a[3] == b[3] { assert Text.TupleLeq(a[4..], b[4..]); }
        }
      }
    }
  }

  /** The printed set is an ascending list without repetition. */
  ghost predicate AscendingAt(o: Fields, n: Name) {
    && n in o && o[n].Arr? && (forall x | x in o[n].items :: x.Str?)
    && forall i, j | 0 <= i < j < |o[n].items| ::
         Text.StringLeq(o[n].items[i].s, o[n].items[j].s) && o[n].items[i] != o[n].items[j]
  }

  ghost predicate SetsAscend(unit: Fields) {
    var contract := PartAt(unit, CONTRACT);
    var effects, placement := PartAt(contract, SIDE_EFFECTS), PartAt(contract, PLACEMENT);
    var security, mutation := PartAt(contract, SECURITY), PartAt(unit, MUTATION_CONTRACT);
    && AscendingAt(effects, EFFECT_TYPES)
    && AscendingAt(placement, ALLOWED_REGIONS) && AscendingAt(placement, ALLOWED_DEVICES)
    && AscendingAt(placement, ALLOWED_RUNTIMES) && AscendingAt(placement, REQUIRED_CAPABILITIES)
    && AscendingAt(security, REQUIRED_PERMISSIONS) && AscendingAt(security, SECURITY_LABELS)
    && AscendingAt(security, ALLOWED_RESIDENCIES) && AscendingAt(security, ACCEPTED_TRUST_ZONES)
    && AscendingAt(mutation, ALLOWED_MUTATIONS)
  }

  lemma SortedArrayAscends(o: Fields, n: Name, s: set<string>)
    requires n in o && o[n] == SortedArray(s)
    ensures AscendingAt(o, n)
  {
    Text.SortedStringsSorted(s);
    hide Text.SortedStrings;
  }

  lemma PartsOfUnit(u: Unit)
    ensures var o := UnitDocument(u).fields;
            && PartAt(PartAt(o, CONTRACT), SIDE_EFFECTS) == EffectsDocument(u.contract.sideEffects).fields
            && PartAt(PartAt(o, CONTRACT), PLACEMENT) == PlacementDocument(u.contract.placement).fields
            && PartAt(PartAt(o, CONTRACT), SECURITY) == SecurityDocument(u.contract.security).fields
            && PartAt(o, MUTATION_CONTRACT) == MutationDocument(u.mutationContract).fields
  {
    hide EffectNames;
    hide SortedArray;
    hide PortDocuments;
    hide ConstraintDocuments;
    hide Strings;
    var o := UnitDocument(u).fields;
    assert o[CONTRACT] == ContractDocument(u.contract) && o[MUTATION_CONTRACT] == MutationDocument(u.mutationContract);
    hide UnitDocument;
    var c := ContractDocument(u.contract).fields;
    assert c[SIDE_EFFECTS] == EffectsDocument(u.contract.sideEffects);
    assert c[PLACEMENT] == PlacementDocument(u.contract.placement);
    assert c[SECURITY] == SecurityDocument(u.contract.security);
  }

  lemma UnitSetsAscend(u: Unit)
    ensures SetsAscend(UnitDocument(u).fields)
  {
    PartsOfUnit(u);
    hide UnitDocument;
    hide SortedArray;
    var c := u.contract;
    SortedArrayAscends(EffectsDocument(c.sideEffects).fields, EFFECT_TYPES, EffectNames(c.sideEffects.effectTypes));
    var p := PlacementDocument(c.placement).fields;
    SortedArrayAscends(p, ALLOWED_REGIONS, c.placement.allowedRegions);
    SortedArrayAscends(p, ALLOWED_DEVICES, c.placement.allowedDevices);
    SortedArrayAscends(p, ALLOWED_RUNTIMES, c.placement.allowedRuntimes);
    SortedArrayAscends(p, REQUIRED_CAPABILITIES, c.placement.requiredCapabilities);
    var s := SecurityDocument(c.security).fields;
    SortedArrayAscends(s, REQUIRED_PERMISSIONS, c.security.requiredPermissions);
    SortedArrayAscends(s, SECURITY_LABELS, c.security.securityLabels);
    SortedArrayAscends(s, ALLOWED_RESIDENCIES, c.security.allowedResidencies);
    SortedArrayAscends(s, ACCEPTED_TRUST_ZONES, c.security.acceptedTrustZones);
    SortedArrayAscends(MutationDocument(u.mutationContract).fields, ALLOWED_MUTATIONS,
                       u.mutationContract.allowedMutations);
    hide AscendingAt;
  }

  /** Equal keys keep their insertion order. */
  lemma CanonicalEdges(g: Graph)
    ensures var es := RoundTrips.Canonical(g).edges;
            && multiset(es) == multiset(g.edges) && EdgesInOrder(es)
            && forall k: Edge :: Sorting.SameKey(k, es, EdgeLeq) == Sorting.SameKey(k, g.edges, EdgeLeq)
  {
    RoundTrips.EdgeOrder();
    Sorting.SortSorts(g.edges, EdgeLeq);
    var es := SortEdges(g.edges);
    forall i, j | 0 <= i < j < |es| ensures EdgeNotAfter(es[i], es[j]) { KeyOrderIsFieldByField(es[i], es[j]); }
    forall k: Edge ensures Sorting.SameKey(k, es, EdgeLeq) == Sorting.SameKey(k, g.edges, EdgeLeq) {
      Sorting.SortStable(k, g.edges, EdgeLeq);
    }
  }

  lemma PrintedSetsAscend(g: Graph)
    ensures var units := PartAt(GraphDocument(g).fields, UNITS);
            forall n | n in units :: units[n].Obj? && SetsAscend(units[n].fields)
  {
    var units := PartAt(GraphDocument(g).fields, UNITS);
    UnitsOfDocument(g);
    hide *;
    forall n | n in units ensures units[n].Obj? && SetsAscend(units[n].fields) {
      var id := n.text;
      ObjectOfUnit(g.units[id]);
      UnitSetsAscend(g.units[id]);
    }
  }

  lemma ObjectOfUnit(u: Unit)
    ensures UnitDocument(u).Obj?
  {
  }

  lemma UnitsOfDocument(g: Graph)
    ensures GraphDocument(g).Obj? && PartAt(GraphDocument(g).fields, UNITS) == UnitDocuments(g.units)
    ensures forall n | n in UnitDocuments(g.units) :: n.Key? && n.text in g.units
    ensures forall id | id in g.units ::
              Key(id) in UnitDocuments(g.units) && UnitDocuments(g.units)[Key(id)] == UnitDocument(g.units[id])
  {
    hide EdgeDocuments;
    hide SortEdges;
    hide UnitDocument;
    hide VersionDocument;
  }

  /** Whatever a valid graph prints says that graph, with its edges in sorted order. */
  lemma PrintedSaysGraph(g: Graph)
    requires g.Valid()
    ensures GraphSays(GraphDocument(g), RoundTrips.Canonical(g))
  {
    hide *;
    RoundTrips.PrintThenParse(g);
    GraphRead(GraphDocument(g));
  }
}
