/** The printer and the parser of graph documents as functions, and the theorems that they
    undo each other. */
module Documents {
  import opened Wrappers
  import opened Json
  import opened Ir
  import opened Enums
  import opened Schema
  import Sorting
  import Text

  // ----- Printing -----

  function Nullable(s: Option<string>): Json { if s.None? then Null else Str(s.value) }

  function Strings(s: seq<string>): seq<Json> { seq(|s|, i requires 0 <= i < |s| => Str(s[i])) }

  function SortedArray(s: set<string>): Json { Arr(Strings(Text.SortedStrings(s))) }

  function EffectNames(s: set<EffectType>): set<string> { set e | e in s :: e.Value() }

  function PortDocument(p: PortContract): Json {
    Obj(map[
      PORT_ID := Str(p.portId),
      DIRECTION := Str(p.direction.Value()),
      KIND := Str(p.kind.Value()),
      SCHEMA := p.schema,
      CARDINALITY := Str(p.cardinality.Value()),
      DESCRIPTION := Str(p.description)])
  }

  function IdempotencyDocument(c: IdempotencyContract): Json {
    Obj(map[
      MODE := Str(c.mode.Value()),
      SCOPE := Str(c.scope.Value()),
      KEY_FIELD := Nullable(c.keyField),
      PAYLOAD_HASH_REQUIRED := Bool(c.payloadHashRequired)])
  }

  function EffectsDocument(c: SideEffectContract): Json {
    Obj(map[
      CLASSIFICATION := Str(c.classification.Value()),
      EFFECT_TYPES := SortedArray(EffectNames(c.effectTypes)),
      COMPENSATION_ACTION := Nullable(c.compensationAction),
      MINIMUM_ISOLATION := Str(c.minimumIsolation.Value())])
  }

  function PlacementDocument(c: PlacementContract): Json {
    Obj(map[
      ALLOWED_REGIONS := SortedArray(c.allowedRegions),
      ALLOWED_DEVICES := SortedArray(c.allowedDevices),
      ALLOWED_RUNTIMES := SortedArray(c.allowedRuntimes),
      REQUIRED_CAPABILITIES := SortedArray(c.requiredCapabilities),
      PREFERRED_REGIONS := Arr(Strings(c.preferredRegions)),
      PREFERRED_DEVICES := Arr(Strings(c.preferredDevices)),
      REQUIRES_LOCAL_INPUTS := Bool(c.requiresLocalInputs)])
  }

  function SecurityDocument(c: SecurityContract): Json {
    Obj(map[
      TENANT_ID := Nullable(c.tenantId),
      REQUIRED_PERMISSIONS := SortedArray(c.requiredPermissions),
      SECURITY_LABELS := SortedArray(c.securityLabels),
      OUTPUT_CLASSIFICATION := Str(c.outputClassification.Value()),
      MAXIMUM_INPUT_CLASSIFICATION := Str(c.maximumInputClassification.Value()),
      ALLOWED_RESIDENCIES := SortedArray(c.allowedResidencies),
      TRUST_ZONE := Str(c.trustZone),
      ACCEPTED_TRUST_ZONES := SortedArray(c.acceptedTrustZones),
      CONFIDENTIAL_COMPUTE_REQUIRED := Bool(c.confidentialComputeRequired)])
  }

  function PortDocuments(ports: seq<PortContract>): seq<Json> {
    seq(|ports|, i requires 0 <= i < |ports| => PortDocument(ports[i]))
  }

  function ContractDocument(c: UnitContract): Json {
    Obj(map[
      INPUT_SCHEMA := c.inputSchema,
      OUTPUT_SCHEMA := c.outputSchema,
      PRECONDITIONS := c.preconditions,
      POSTCONDITIONS := c.postconditions,
      RESOURCE_LIMITS := c.resourceLimits,
      PORTS := Arr(PortDocuments(c.ports)),
      IDEMPOTENCY := IdempotencyDocument(c.idempotency),
      SIDE_EFFECTS := EffectsDocument(c.sideEffects),
      PLACEMENT := PlacementDocument(c.placement),
      SECURITY := SecurityDocument(c.security)])
  }

  function MutationDocument(c: MutationContract): Json {
    Obj(map[
      ALLOWED_MUTATIONS := SortedArray(c.allowedMutations),
      MAX_CHILDREN := c.maxChildren,
      IS_IMMUTABLE := c.isImmutable])
  }

  function ConstraintDocument(c: Constraint): Json {
    Obj(map[
      CONSTRAINT_ID := c.constraintId,
      TIER := Str(c.tier.Value()),
      EXPRESSION := c.expression,
      DESCRIPTION := c.description])
  }

  function ConstraintDocuments(cs: seq<Constraint>): seq<Json> {
    seq(|cs|, i requires 0 <= i < |cs| => ConstraintDocument(cs[i]))
  }

  function UnitDocument(u: Unit): Json {
    Obj(map[
      UNIT_ID := Str(u.unitId),
      NAME := Str(u.name),
      STRUCTURE := Str(u.structure.Value()),
      VISIBILITY := Str(u.visibility.Value()),
      LIFECYCLE := Str(u.lifecycle.Value()),
      CONTRACT := ContractDocument(u.contract),
      MUTATION_CONTRACT := MutationDocument(u.mutationContract),
      CONSTRAINTS := Arr(ConstraintDocuments(u.constraints)),
      METADATA := u.metadata,
      SUB_UNITS := Arr(Strings(u.subUnits))])
  }

  function EdgeDocument(e: Edge): Json {
    Obj(map[
      SOURCE := Str(e.source),
      TARGET := Str(e.target),
      EDGE_TYPE := Str(e.edgeType.Value()),
      METADATA := e.metadata,
      SOURCE_PORT := Nullable(e.sourcePort),
      TARGET_PORT := Nullable(e.targetPort)])
  }

  function EdgeDocuments(es: seq<Edge>): seq<Json> {
    seq(|es|, i requires 0 <= i < |es| => EdgeDocument(es[i]))
  }

  function VersionDocument(v: GraphVersion): Json {
    Obj(map[MAJOR := Int(v.major), MINOR := Int(v.minor), PATCH := Int(v.patch), SEQUENCE := Int(v.sequence)])
  }

  function UnitDocuments(units: map<string, Unit>): Fields {
    map id | id in units :: Key(id) := UnitDocument(units[id])
  }

  /** The edge sort key; a missing port sorts like an empty one. */
  function EdgeKey(e: Edge): seq<string> {
    [e.source, e.target, e.edgeType.Value(),
     if e.sourcePort.None? then "" else e.sourcePort.value,
     if e.targetPort.None? then "" else e.targetPort.value]
  }

  predicate EdgeLeq(e: Edge, f: Edge) { Text.TupleLeq(EdgeKey(e), EdgeKey(f)) }

  function SortEdges(edges: seq<Edge>): seq<Edge> { Sorting.Sort(edges, EdgeLeq) }

  function GraphDocument(g: Graph): Json {
    Obj(map[
      SCHEMA_ID := Str(SCHEMA_TEXT),
      SCHEMA_VERSION := Str(LATEST_VERSION),
      COMPATIBILITY_VERSION := Str(COMPATIBILITY_TEXT),
      GRAPH_ID := Str(g.graphId),
      VERSION := VersionDocument(g.version),
      UNITS := Obj(UnitDocuments(g.units)),
      EDGES := Arr(EdgeDocuments(SortEdges(g.edges))),
      METADATA := g.metadata])
  }

  // ----- Parsing -----

  function Get(o: Fields, n: Name, default: Json): Json { if n in o then o[n] else default }

  function Required(o: Fields, n: Name): Parsed<Json> { if n in o then Ok(o[n]) else Err(InvalidDocument) }

  function AsString(j: Json): Parsed<string> { if j.Str? then Ok(j.s) else Err(InvalidDocument) }

  function AsBool(j: Json): Parsed<bool> { if j.Bool? then Ok(j.b) else Err(InvalidDocument) }

  function AsFields(j: Json): Parsed<Fields> { if j.Obj? then Ok(j.fields) else Err(InvalidDocument) }

  function AsItems(j: Json): Parsed<seq<Json>> { if j.Arr? then Ok(j.items) else Err(InvalidDocument) }

  function AsNullable(j: Json): Parsed<Option<string>> {
    if j.Null? then Ok(None) else if j.Str? then Ok(Some(j.s)) else Err(InvalidDocument)
  }

  function AsNatural(j: Json): Parsed<nat> {
    if j.Int? && j.i >= 0 then Ok(j.i) else Err(InvalidDocument)
  }

  function AsMember<E>(parse: string -> Option<E>, j: Json): Parsed<E> {
    if j.Str? && parse(j.s).Some? then Ok(parse(j.s).value) else Err(InvalidDocument)
  }

  function ReadStrings(items: seq<Json>): Parsed<seq<string>> {
    if items == [] then Ok([])
    else
      var head :- AsString(items[0]);
      var tail :- ReadStrings(items[1..]);
      Ok([head] + tail)
  }

  function ReadStringList(j: Json): Parsed<seq<string>> {
    var items :- AsItems(j);
    ReadStrings(items)
  }

  function ReadStringSet(j: Json): Parsed<set<string>> {
    var strings :- ReadStringList(j);
    Ok(set x | x in strings)
  }

  function ReadEffects(names: seq<string>): Parsed<set<EffectType>> {
    if names == [] then Ok({})
    else
      var head :- AsMember(ParseEffectType, Str(names[0]));
      var tail :- ReadEffects(names[1..]);
      Ok({head} + tail)
  }

  function ReadPort(j: Json): (r: Parsed<PortContract>)
    ensures r.Ok? ==> r.value.Valid()
  {
    var o :- AsFields(j);
    var portId :- Required(o, PORT_ID);
    var id :- AsString(portId);
    var direction :- Required(o, DIRECTION);
    var d :- AsMember(ParsePortDirection, direction);
    var kind :- Required(o, KIND);
    var k :- AsMember(ParsePortKind, kind);
    var c :- AsMember(ParsePortCardinality, Get(o, CARDINALITY, Str(ExactlyOne.Value())));
    var text :- AsString(Get(o, DESCRIPTION, Str("")));
    var port := PortContract(id, d, k, Get(o, SCHEMA, Obj(map[])), c, text);
    if port.Valid() then Ok(port) else Err(InvalidDocument)
  }

  function ReadPorts(items: seq<Json>): (r: Parsed<seq<PortContract>>)
    ensures r.Ok? ==> forall p | p in r.value :: p.Valid()
  {
    if items == [] then Ok([])
    else
      var head :- ReadPort(items[0]);
      var tail :- ReadPorts(items[1..]);
      Ok([head] + tail)
  }

  function ReadIdempotency(j: Json): (r: Parsed<IdempotencyContract>)
    ensures r.Ok? ==> r.value.Valid()
  {
    var o :- AsFields(j);
    var mode :- AsMember(ParseIdempotencyMode, Get(o, MODE, Str(NoIdempotency.Value())));
    var scope :- AsMember(ParseIdempotencyScope, Get(o, SCOPE, Str(TaskScope.Value())));
    var key :- AsNullable(Get(o, KEY_FIELD, Null));
    var required :- AsBool(Get(o, PAYLOAD_HASH_REQUIRED, Bool(true)));
    var c := IdempotencyContract(mode, scope, key, required);
    if c.Valid() then Ok(c) else Err(InvalidDocument)
  }

  function ReadSideEffects(j: Json): (r: Parsed<SideEffectContract>)
    ensures r.Ok? ==> r.value.Valid()
  {
    var o :- AsFields(j);
    var classification :- AsMember(ParseSideEffectClass, Get(o, CLASSIFICATION, Str(NoEffect.Value())));
    var names :- ReadStringList(Get(o, EFFECT_TYPES, Arr([])));
    var effects :- ReadEffects(names);
    var compensation :- AsNullable(Get(o, COMPENSATION_ACTION, Null));
    var isolation :- AsMember(ParseIsolationGrade, Get(o, MINIMUM_ISOLATION, Str(I0None.Value())));
    var c := SideEffectContract(classification, effects, compensation, isolation);
    if c.Valid() then Ok(c) else Err(InvalidDocument)
  }

  function ReadPlacement(j: Json): (r: Parsed<PlacementContract>)
    ensures r.Ok? ==> r.value.Valid()
  {
    var o :- AsFields(j);
    var regions :- ReadStringSet(Get(o, ALLOWED_REGIONS, Arr([])));
    var devices :- ReadStringSet(Get(o, ALLOWED_DEVICES, Arr([])));
    var runtimes :- ReadStringSet(Get(o, ALLOWED_RUNTIMES, Arr([])));
    var capabilities :- ReadStringSet(Get(o, REQUIRED_CAPABILITIES, Arr([])));
    var preferredRegions :- ReadStringList(Get(o, PREFERRED_REGIONS, Arr([])));
    var preferredDevices :- ReadStringList(Get(o, PREFERRED_DEVICES, Arr([])));
    var local :- AsBool(Get(o, REQUIRES_LOCAL_INPUTS, Bool(false)));
    var c := PlacementContract(regions, devices, runtimes, capabilities, preferredRegions, preferredDevices, local);
    if c.Valid() then Ok(c) else Err(InvalidDocument)
  }

  function ReadSecurity(j: Json): (r: Parsed<SecurityContract>)
    ensures r.Ok? ==> r.value.Valid()
  {
    var o :- AsFields(j);
    var tenant :- AsNullable(Get(o, TENANT_ID, Null));
    var permissions :- ReadStringSet(Get(o, REQUIRED_PERMISSIONS, Arr([])));
    var labels :- ReadStringSet(Get(o, SECURITY_LABELS, Arr([])));
    var output :- AsMember(ParseDataClassification, Get(o, OUTPUT_CLASSIFICATION, Str(InternalData.Value())));
    var maximum :- AsMember(ParseDataClassification, Get(o, MAXIMUM_INPUT_CLASSIFICATION, Str(RestrictedData.Value())));
    var residencies :- ReadStringSet(Get(o, ALLOWED_RESIDENCIES, Arr([])));
    var zone :- AsString(Get(o, TRUST_ZONE, Str("")));
    var zones :- ReadStringSet(Get(o, ACCEPTED_TRUST_ZONES, Arr([])));
    var confidential :- AsBool(Get(o, CONFIDENTIAL_COMPUTE_REQUIRED, Bool(false)));
    var c := SecurityContract(tenant, permissions, labels, output, maximum, residencies, zone, zones, confidential);
    if c.Valid() then Ok(c) else Err(InvalidDocument)
  }

  const CONTRACT_FIELDS := {
    INPUT_SCHEMA, OUTPUT_SCHEMA, PRECONDITIONS, POSTCONDITIONS, RESOURCE_LIMITS,
    PORTS, IDEMPOTENCY, SIDE_EFFECTS, PLACEMENT, SECURITY }

  /** A contract field the constructor does not know is an error. */
  function ReadContract(j: Json): (r: Parsed<UnitContract>)
    ensures r.Ok? ==> r.value.Valid()
  {
    var o :- AsFields(j);
    if !(o.Keys <= CONTRACT_FIELDS) then Err(InvalidDocument)
    else
      var items :- AsItems(Get(o, PORTS, Arr([])));
      var ports :- ReadPorts(items);
      var idempotency :- ReadIdempotency(Get(o, IDEMPOTENCY, Obj(map[])));
      var effects :- ReadSideEffects(Get(o, SIDE_EFFECTS, Obj(map[])));
      var placement :- ReadPlacement(Get(o, PLACEMENT, Obj(map[])));
      var security :- ReadSecurity(Get(o, SECURITY, Obj(map[])));
      Ok(UnitContract(
        Get(o, INPUT_SCHEMA, Obj(map[])), Get(o, OUTPUT_SCHEMA, Obj(map[])),
        Get(o, PRECONDITIONS, Arr([])), Get(o, POSTCONDITIONS, Arr([])), Get(o, RESOURCE_LIMITS, Obj(map[])),
        ports, idempotency, effects, placement, security))
  }

  function ReadMutation(j: Json): Parsed<MutationContract> {
    var o :- AsFields(j);
    var allowed :- ReadStringSet(Get(o, ALLOWED_MUTATIONS, Arr([])));
    Ok(MutationContract(allowed, Get(o, MAX_CHILDREN, Int(100)), Get(o, IS_IMMUTABLE, Bool(false))))
  }

  function ReadConstraint(j: Json): Parsed<Constraint> {
    var o :- AsFields(j);
    var id :- Required(o, CONSTRAINT_ID);
    var tier :- Required(o, TIER);
    var t :- AsMember(ParseEnforcementTier, tier);
    var expression :- Required(o, EXPRESSION);
    var description :- Required(o, DESCRIPTION);
    Ok(Constraint(id, t, expression, description))
  }

  function ReadConstraints(items: seq<Json>): Parsed<seq<Constraint>> {
    if items == [] then Ok([])
    else
      var head :- ReadConstraint(items[0]);
      var tail :- ReadConstraints(items[1..]);
      Ok([head] + tail)
  }

  function ReadUnit(j: Json): (r: Parsed<Unit>)
    ensures r.Ok? ==> r.value.Valid()
  {
    var o :- AsFields(j);
    var id :- Required(o, UNIT_ID);
    var unitId :- AsString(id);
    var n :- Required(o, NAME);
    var name :- AsString(n);
    var s :- Required(o, STRUCTURE);
    var structure :- AsMember(ParseStructureDimension, s);
    var v :- Required(o, VISIBILITY);
    var visibility :- AsMember(ParseVisibilityDimension, v);
    var l :- Required(o, LIFECYCLE);
    var lifecycle :- AsMember(ParseLifecycleDimension, l);
    var subUnits :- ReadStringList(Get(o, SUB_UNITS, Arr([])));
    var contract :- ReadContract(Get(o, CONTRACT, Obj(map[])));
    var mutation :- ReadMutation(Get(o, MUTATION_CONTRACT, Obj(map[])));
    var items :- AsItems(Get(o, CONSTRAINTS, Arr([])));
    var constraints :- ReadConstraints(items);
    var u := Unit(unitId, name, structure, visibility, lifecycle, contract, mutation, constraints,
                  Get(o, METADATA, Obj(map[])), subUnits);
    if u.Valid() then Ok(u) else Err(InvalidDocument)
  }

  function ReadEdge(j: Json): (r: Parsed<Edge>)
    ensures r.Ok? ==> r.value.Valid()
  {
    var o :- AsFields(j);
    var s :- Required(o, SOURCE);
    var source :- AsString(s);
    var t :- Required(o, TARGET);
    var target :- AsString(t);
    var k :- Required(o, EDGE_TYPE);
    var edgeType :- AsMember(ParseEdgeType, k);
    var sourcePort :- AsNullable(Get(o, SOURCE_PORT, Null));
    var targetPort :- AsNullable(Get(o, TARGET_PORT, Null));
    var e := Edge(source, target, edgeType, Get(o, METADATA, Obj(map[])), sourcePort, targetPort);
    if e.Valid() then Ok(e) else Err(InvalidDocument)
  }

  function ReadEdges(items: seq<Json>): (r: Parsed<seq<Edge>>)
    ensures r.Ok? ==> |r.value| == |items| && forall e | e in r.value :: e.Valid()
  {
    if items == [] then Ok([])
    else
      var last := |items| - 1;
      var front :- ReadEdges(items[..last]);
      var e :- ReadEdge(items[last]);
      Ok(front + [e])
  }

  function ReadVersion(j: Json): Parsed<GraphVersion> {
    var o :- AsFields(j);
    var major :- AsNatural(Get(o, MAJOR, Int(1)));
    var minor :- AsNatural(Get(o, MINOR, Int(0)));
    var patch :- AsNatural(Get(o, PATCH, Int(0)));
    var sequence :- AsNatural(Get(o, SEQUENCE, Int(0)));
    Ok(GraphVersion(major, minor, patch, sequence))
  }

  /** The unit identifiers of a document, in the order the printer writes them. */
  function UnitKeys(units: Fields): (r: seq<string>)
    ensures forall id :: id in r <==> Key(id) in units
    ensures Sorting.NoDuplicates(r)
  {
    Text.SortedStrings(set n | n in units && n.Key? :: n.text)
  }

  /** Units keyed by their own identifier; a repeated identifier is an error. */
  function ReadUnits(ids: seq<string>, units: Fields): (r: Parsed<map<string, Unit>>)
    requires forall id | id in ids :: Key(id) in units
    ensures r.Ok? ==> forall id | id in r.value :: r.value[id].unitId == id && r.value[id].Valid()
  {
    if ids == [] then Ok(map[])
    else
      var last := |ids| - 1;
      assert ids[last] in ids && forall id | id in ids[..last] :: id in ids;
      var front :- ReadUnits(ids[..last], units);
      var u :- ReadUnit(units[Key(ids[last])]);
      if u.unitId in front then Err(InvalidDocument) else Ok(front[u.unitId := u])
  }

  function ReadGraph(document: Json): (r: Parsed<Graph>)
    ensures r.Ok? ==> r.value.Valid()
  {
    if !Acceptable(document) then Err(InvalidDocument)
    else
      var o := document.fields;
      var version :- ReadVersion(Get(o, VERSION, Obj(map[])));
      var unitFields :- AsFields(Get(o, UNITS, Obj(map[])));
      var units :- ReadUnits(UnitKeys(unitFields), unitFields);
      var items :- AsItems(Get(o, EDGES, Arr([])));
      var edges :- ReadEdges(items);
      if !Normalized(o[GRAPH_ID].s) then Err(InvalidDocument)
      else Ok(Graph(o[GRAPH_ID].s, version, units, edges, Get(o, METADATA, Obj(map[]))))
  }
}
