/** The printer and the parser undo each other, printed documents are always accepted, and
    printing forgets insertion order exactly when edge keys tell edges apart. */
module RoundTrips {
  import opened Wrappers
  import opened Json
  import opened Ir
  import opened Enums
  import opened Schema
  import opened Documents
  import Sorting
  import Text

  // ----- Leaves -----

  lemma {:induction false} StringsReadBack(s: seq<string>)
    ensures ReadStrings(Strings(s)) == Ok(s)
  {
    if s != [] {
      StringsReadBack(s[1..]);
      assert Strings(s)[1..] == Strings(s[1..]);
      assert [s[0]] + s[1..] == s;
    }
  }

  lemma SetReadsBack(s: set<string>)
    ensures ReadStringSet(SortedArray(s)) == Ok(s)
  {
    StringsReadBack(Text.SortedStrings(s));
    assert (set x | x in Text.SortedStrings(s)) == s;
  }

  lemma ListReadsBack(s: seq<string>)
    ensures ReadStringList(Arr(Strings(s))) == Ok(s)
  {
    StringsReadBack(s);
  }

  lemma {:induction false} EffectsReadBack(names: seq<string>, effects: set<EffectType>)
    requires forall n | n in names :: n in EffectNames(effects)
    ensures var r := ReadEffects(names);
            r.Ok? && r.value == set e | e in effects && e.Value() in names
  {
    if names != [] {
      assert names[0] in names;
      forall n | n in names[1..] ensures n in EffectNames(effects) { assert n in names; }
      EffectsReadBack(names[1..], effects);
      var e :| e in effects && e.Value() == names[0];
      EffectTypeReadBack(e);
      forall f | f in effects ensures f.Value() in names <==> f == e || f.Value() in names[1..] {
        EffectTypeReadBack(f);
      }
      assert (set f | f in effects && f.Value() in names)
          == {e} + set f | f in effects && f.Value() in names[1..];
    }
  }

  lemma EffectSetReadsBack(effects: set<EffectType>)
    ensures ReadStringList(SortedArray(EffectNames(effects))) == Ok(Text.SortedStrings(EffectNames(effects)))
    ensures ReadEffects(Text.SortedStrings(EffectNames(effects))) == Ok(effects)
  {
    var names := Text.SortedStrings(EffectNames(effects));
    ListReadsBack(names);
    EffectsReadBack(names, effects);
    assert (set e | e in effects && e.Value() in names) == effects;
  }

  // ----- Contracts -----

  lemma PortReadsBack(p: PortContract)
    requires p.Valid()
    ensures ReadPort(PortDocument(p)) == Ok(p)
  {
    PortDirectionReadBack(p.direction);
    PortKindReadBack(p.kind);
    PortCardinalityReadBack(p.cardinality);
  }

  lemma {:induction false} PortsReadBack(ports: seq<PortContract>)
    requires forall p | p in ports :: p.Valid()
    ensures ReadPorts(PortDocuments(ports)) == Ok(ports)
  {
    if ports != [] {
      var head, tail := ports[0], ports[1..];
      assert head.Valid() && forall p | p in tail :: p.Valid();
      assert PortDocuments(ports) == [PortDocument(head)] + PortDocuments(tail);
      PortReadsBack(head);
      PortsReadBack(tail);
      hide ReadPort;
      hide PortDocument;
      hide PortContract.Valid;
      assert [head] + tail == ports;
    }
  }

  lemma IdempotencyReadsBack(c: IdempotencyContract)
    requires c.Valid()
    ensures ReadIdempotency(IdempotencyDocument(c)) == Ok(c)
  {
    IdempotencyModeReadBack(c.mode);
    IdempotencyScopeReadBack(c.scope);
  }

  lemma SideEffectsReadBack(c: SideEffectContract)
    requires c.Valid()
    ensures ReadSideEffects(EffectsDocument(c)) == Ok(c)
  {
    SideEffectClassReadBack(c.classification);
    IsolationGradeReadBack(c.minimumIsolation);
    EffectSetReadsBack(c.effectTypes);
  }

  lemma PlacementReadsBack(c: PlacementContract)
    requires c.Valid()
    ensures ReadPlacement(PlacementDocument(c)) == Ok(c)
  {
    SetReadsBack(c.allowedRegions);
    SetReadsBack(c.allowedDevices);
    SetReadsBack(c.allowedRuntimes);
    SetReadsBack(c.requiredCapabilities);
    ListReadsBack(c.preferredRegions);
    ListReadsBack(c.preferredDevices);
    hide ReadStringSet;
    hide ReadStringList;
    hide SortedArray;
    hide Strings;
  }

  lemma SecurityReadsBack(c: SecurityContract)
    requires c.Valid()
    ensures ReadSecurity(SecurityDocument(c)) == Ok(c)
  {
    SetReadsBack(c.requiredPermissions);
    SetReadsBack(c.securityLabels);
    SetReadsBack(c.allowedResidencies);
    SetReadsBack(c.acceptedTrustZones);
    DataClassificationReadBack(c.outputClassification);
    DataClassificationReadBack(c.maximumInputClassification);
    hide ReadStringSet;
    hide SortedArray;
  }

  lemma ContractReadsBack(c: UnitContract)
    requires c.Valid()
    ensures ReadContract(ContractDocument(c)) == Ok(c)
  {
    assert forall p | p in c.ports :: p.Valid();
    assert c.idempotency.Valid() && c.sideEffects.Valid() && c.placement.Valid() && c.security.Valid();
    hide *;
    PortsReadBack(c.ports);
    IdempotencyReadsBack(c.idempotency);
    SideEffectsReadBack(c.sideEffects);
    PlacementReadsBack(c.placement);
    SecurityReadsBack(c.security);
    ContractFromParts(c);
  }

  lemma ContractFromParts(c: UnitContract)
    requires ReadPorts(PortDocuments(c.ports)) == Ok(c.ports)
    requires ReadIdempotency(IdempotencyDocument(c.idempotency)) == Ok(c.idempotency)
    requires ReadSideEffects(EffectsDocument(c.sideEffects)) == Ok(c.sideEffects)
    requires ReadPlacement(PlacementDocument(c.placement)) == Ok(c.placement)
    requires ReadSecurity(SecurityDocument(c.security)) == Ok(c.security)
    ensures ReadContract(ContractDocument(c)) == Ok(c)
  {
    hide ReadPorts;
    hide ReadIdempotency;
    hide ReadSideEffects;
    hide ReadPlacement;
    hide ReadSecurity;
    hide PortDocuments;
    hide IdempotencyDocument;
    hide EffectsDocument;
    hide PlacementDocument;
    hide SecurityDocument;
    assert ContractDocument(c).fields.Keys == CONTRACT_FIELDS;
  }

  lemma {:induction false} ConstraintsReadBack(cs: seq<Constraint>)
    ensures ReadConstraints(ConstraintDocuments(cs)) == Ok(cs)
  {
    if cs != [] {
      EnforcementTierReadBack(cs[0].tier);
      assert ReadConstraint(ConstraintDocument(cs[0])) == Ok(cs[0]);
      ConstraintsReadBack(cs[1..]);
      assert ConstraintDocuments(cs)[1..] == ConstraintDocuments(cs[1..]);
      assert [cs[0]] + cs[1..] == cs;
    }
  }

  lemma MutationReadsBack(c: MutationContract)
    ensures ReadMutation(MutationDocument(c)) == Ok(c)
  {
    SetReadsBack(c.allowedMutations);
    hide ReadStringSet;
    hide SortedArray;
  }

  // ----- Units and edges -----

  lemma UnitReadsBack(u: Unit)
    requires u.Valid()
    ensures ReadUnit(UnitDocument(u)) == Ok(u)
  {
    assert u.contract.Valid();
    ListReadsBack(u.subUnits);
    ContractReadsBack(u.contract);
    MutationReadsBack(u.mutationContract);
    ConstraintsReadBack(u.constraints);
    hide *;
    UnitFromParts(u);
  }

  lemma UnitFromParts(u: Unit)
    requires u.Valid()
    requires ReadStringList(Arr(Strings(u.subUnits))) == Ok(u.subUnits)
    requires ReadContract(ContractDocument(u.contract)) == Ok(u.contract)
    requires ReadMutation(MutationDocument(u.mutationContract)) == Ok(u.mutationContract)
    requires ReadConstraints(ConstraintDocuments(u.constraints)) == Ok(u.constraints)
    ensures ReadUnit(UnitDocument(u)) == Ok(u)
  {
    StructureDimensionReadBack(u.structure);
    VisibilityDimensionReadBack(u.visibility);
    LifecycleDimensionReadBack(u.lifecycle);
    hide Unit.Valid;
    hide ReadContract;
    hide ContractDocument;
    hide ReadMutation;
    hide MutationDocument;
    hide ReadConstraints;
    hide ConstraintDocuments;
    hide ReadStringList;
    hide Strings;
    hide ParseStructureDimension;
    hide ParseVisibilityDimension;
    hide ParseLifecycleDimension;
    hide StructureDimension.Value;
    hide VisibilityDimension.Value;
    hide LifecycleDimension.Value;
  }

  lemma EdgeReadsBack(e: Edge)
    requires e.Valid()
    ensures ReadEdge(EdgeDocument(e)) == Ok(e)
  {
    EdgeTypeReadBack(e.edgeType);
  }

  lemma {:induction false} EdgesReadBack(es: seq<Edge>)
    requires forall e | e in es :: e.Valid()
    ensures ReadEdges(EdgeDocuments(es)) == Ok(es)
  {
    if es != [] {
      var last := |es| - 1;
      EdgesReadBack(es[..last]);
      EdgeReadsBack(es[last]);
      hide ReadEdge;
      hide EdgeDocument;
      hide Edge.Valid;
      assert EdgeDocuments(es)[..last] == EdgeDocuments(es[..last]);
      assert es[..last] + [es[last]] == es;
    }
  }

  /** The part of a unit map that a list of identifiers names. */
  function Restrict(units: map<string, Unit>, ids: seq<string>): map<string, Unit> {
    map id | id in units && id in ids :: units[id]
  }

  lemma RestrictStep(units: map<string, Unit>, front: seq<string>, id: string)
    requires id in units && id !in front
    ensures Restrict(units, front + [id]) == Restrict(units, front)[id := units[id]]
    ensures id !in Restrict(units, front)
  {
  }

  lemma ReadUnitsStep(front: seq<string>, id: string, fields: Fields, read: map<string, Unit>, u: Unit)
    requires forall x | x in front + [id] :: Key(x) in fields
    requires forall x | x in front :: Key(x) in fields
    requires ReadUnits(front, fields) == Ok(read)
    requires Key(id) in fields && ReadUnit(fields[Key(id)]) == Ok(u)
    requires u.unitId == id && id !in read
    ensures ReadUnits(front + [id], fields) == Ok(read[id := u])
  {
    hide ReadUnit;
    assert (front + [id])[..|front|] == front && (front + [id])[|front|] == id;
  }

  lemma UnitDocumentsAt(units: map<string, Unit>)
    ensures forall id | id in units ::
              Key(id) in UnitDocuments(units) && UnitDocuments(units)[Key(id)] == UnitDocument(units[id])
  {
    hide UnitDocument;
  }

  lemma {:induction false} UnitsReadBack(ids: seq<string>, units: map<string, Unit>)
    requires Sorting.NoDuplicates(ids)
    requires forall id | id in ids :: id in units && units[id].unitId == id && units[id].Valid()
    ensures forall id | id in ids :: Key(id) in UnitDocuments(units)
    ensures ReadUnits(ids, UnitDocuments(units)) == Ok(Restrict(units, ids))
  {
    UnitDocumentsAt(units);
    hide UnitDocuments;
    hide UnitDocument;
    hide ReadUnit;
    hide Unit.Valid;
    if ids == [] {
      assert Restrict(units, ids) == map[];
    } else {
      var last := |ids| - 1;
      var front, id := ids[..last], ids[last];
      assert ids == front + [id];
      assert id in ids && forall x | x in front :: x in ids;
      assert id !in front;
      UnitsReadBack(front, units);
      UnitReadsBack(units[id]);
      RestrictStep(units, front, id);
      hide Restrict;
      hide ReadUnits;
      ReadUnitsStep(front, id, UnitDocuments(units), Restrict(units, front), units[id]);
    }
  }

  // ----- Printed documents are accepted -----

  lemma StringArrayAccepted(o: Fields, n: Name, s: seq<string>)
    requires n in o && o[n] == Arr(Strings(s))
    requires Sorting.NoDuplicates(s) && forall x | x in s :: !Blank(x)
    ensures StringArray(o, n)
  {
    var items := o[n].items;
    forall x | x in items ensures x.Str? && !Blank(x.s) {
      var i :| 0 <= i < |items| && items[i] == x;
      assert s[i] in s;
    }
  }

  lemma SortedArrayAccepted(o: Fields, n: Name, s: set<string>)
    requires n in o && o[n] == SortedArray(s) && NoBlanks(s)
    ensures StringArray(o, n)
  {
    StringArrayAccepted(o, n, Text.SortedStrings(s));
  }

  lemma PortAccepted(p: PortContract)
    requires p.Valid()
    ensures PortAcceptable(PortDocument(p))
  {
    PortDirectionReadBack(p.direction);
    PortKindReadBack(p.kind);
    PortCardinalityReadBack(p.cardinality);
  }

  lemma IdempotencyAccepted(c: IdempotencyContract)
    requires c.Valid()
    ensures IdempotencyAcceptable(IdempotencyDocument(c).fields)
  {
    IdempotencyModeReadBack(c.mode);
    IdempotencyScopeReadBack(c.scope);
  }

  lemma EffectNameNotBlank(e: EffectType)
    ensures !Blank(e.Value())
  {
    assert !IsSpace(e.Value()[0]);
  }

  lemma EffectsAccepted(c: SideEffectContract)
    requires c.Valid()
    ensures EffectsAcceptable(EffectsDocument(c).fields)
  {
    EffectArrayAccepted(EffectsDocument(c).fields, c.effectTypes);
    SideEffectClassReadBack(c.classification);
    IsolationGradeReadBack(c.minimumIsolation);
    hide SortedArray;
    hide StringArray;
  }

  lemma EffectArrayAccepted(o: Fields, effects: set<EffectType>)
    requires EFFECT_TYPES in o && o[EFFECT_TYPES] == SortedArray(EffectNames(effects))
    ensures StringArray(o, EFFECT_TYPES)
    ensures forall x | x in o[EFFECT_TYPES].items :: ParseEffectType(x.s).Some?
  {
    var names := EffectNames(effects);
    forall n | n in names ensures !Blank(n) && ParseEffectType(n).Some? {
      var e :| e in effects && e.Value() == n;
      EffectTypeReadBack(e);
      EffectNameNotBlank(e);
    }
    hide Blank;
    hide ParseEffectType;
    hide EffectNames;
    SortedArrayAccepted(o, EFFECT_TYPES, names);
    forall x | x in o[EFFECT_TYPES].items ensures ParseEffectType(x.s).Some? {
      var items := o[EFFECT_TYPES].items;
      var i :| 0 <= i < |items| && items[i] == x;
      assert Text.SortedStrings(names)[i] in names;
    }
  }

  lemma PlacementAccepted(c: PlacementContract)
    requires c.Valid()
    ensures PlacementAcceptable(PlacementDocument(c).fields)
  {
    var o := PlacementDocument(c).fields;
    SortedArrayAccepted(o, ALLOWED_REGIONS, c.allowedRegions);
    SortedArrayAccepted(o, ALLOWED_DEVICES, c.allowedDevices);
    SortedArrayAccepted(o, ALLOWED_RUNTIMES, c.allowedRuntimes);
    SortedArrayAccepted(o, REQUIRED_CAPABILITIES, c.requiredCapabilities);
    StringArrayAccepted(o, PREFERRED_REGIONS, c.preferredRegions);
    StringArrayAccepted(o, PREFERRED_DEVICES, c.preferredDevices);
  }

  lemma SecurityFields(c: SecurityContract)
    requires c.Valid()
    ensures var o := SecurityDocument(c).fields;
            && TENANT_ID in o && o[TENANT_ID] == Nullable(c.tenantId) && NullableString(o, TENANT_ID)
            && REQUIRED_PERMISSIONS in o && o[REQUIRED_PERMISSIONS] == SortedArray(c.requiredPermissions)
            && SECURITY_LABELS in o && o[SECURITY_LABELS] == SortedArray(c.securityLabels)
            && OUTPUT_CLASSIFICATION in o && o[OUTPUT_CLASSIFICATION] == Str(c.outputClassification.Value())
            && MAXIMUM_INPUT_CLASSIFICATION in o && o[MAXIMUM_INPUT_CLASSIFICATION]
                == Str(c.maximumInputClassification.Value())
            && ALLOWED_RESIDENCIES in o && o[ALLOWED_RESIDENCIES] == SortedArray(c.allowedResidencies)
            && TRUST_ZONE in o && o[TRUST_ZONE] == Str(c.trustZone)
            && ACCEPTED_TRUST_ZONES in o && o[ACCEPTED_TRUST_ZONES] == SortedArray(c.acceptedTrustZones)
            && CONFIDENTIAL_COMPUTE_REQUIRED in o && o[CONFIDENTIAL_COMPUTE_REQUIRED]
                == Bool(c.confidentialComputeRequired)
    ensures NoBlanks(c.requiredPermissions) && NoBlanks(c.securityLabels)
            && NoBlanks(c.allowedResidencies) && NoBlanks(c.acceptedTrustZones)
  {
    hide SortedArray;
    hide DataClassification.Value;
  }

  lemma SecurityAccepted(c: SecurityContract)
    requires c.Valid()
    ensures SecurityAcceptable(SecurityDocument(c).fields)
  {
    var o := SecurityDocument(c).fields;
    SecurityFields(c);
    hide SecurityDocument;
    hide SecurityContract.Valid;
    hide DataClassification.Value;
    hide ParseDataClassification;
    hide StringArray;
    hide SortedArray;
    SortedArrayAccepted(o, REQUIRED_PERMISSIONS, c.requiredPermissions);
    SortedArrayAccepted(o, SECURITY_LABELS, c.securityLabels);
    SortedArrayAccepted(o, ALLOWED_RESIDENCIES, c.allowedResidencies);
    SortedArrayAccepted(o, ACCEPTED_TRUST_ZONES, c.acceptedTrustZones);
    DataClassificationReadBack(c.outputClassification);
    DataClassificationReadBack(c.maximumInputClassification);
  }

  lemma GovernanceAccepted(c: UnitContract)
    requires c.Valid()
    ensures GovernanceAcceptable(ContractDocument(c).fields)
  {
    assert c.idempotency.Valid() && c.sideEffects.Valid() && c.placement.Valid() && c.security.Valid();
    ContractFields(c);
    hide *;
    IdempotencyAccepted(c.idempotency);
    EffectsAccepted(c.sideEffects);
    PlacementAccepted(c.placement);
    SecurityAccepted(c.security);
    GovernanceFromParts(ContractDocument(c).fields, c);
  }

  lemma GovernanceFromParts(o: Fields, c: UnitContract)
    requires IDEMPOTENCY in o && o[IDEMPOTENCY] == IdempotencyDocument(c.idempotency)
    requires SIDE_EFFECTS in o && o[SIDE_EFFECTS] == EffectsDocument(c.sideEffects)
    requires PLACEMENT in o && o[PLACEMENT] == PlacementDocument(c.placement)
    requires SECURITY in o && o[SECURITY] == SecurityDocument(c.security)
    requires IdempotencyAcceptable(IdempotencyDocument(c.idempotency).fields)
    requires EffectsAcceptable(EffectsDocument(c.sideEffects).fields)
    requires PlacementAcceptable(PlacementDocument(c.placement).fields)
    requires SecurityAcceptable(SecurityDocument(c.security).fields)
    ensures GovernanceAcceptable(o)
  {
    hide IdempotencyAcceptable;
    hide EffectsAcceptable;
    hide PlacementAcceptable;
    hide SecurityAcceptable;
  }

  lemma ContractFields(c: UnitContract)
    ensures ContractDocument(c).Obj?
    ensures var o := ContractDocument(c).fields;
            && IDEMPOTENCY in o && o[IDEMPOTENCY] == IdempotencyDocument(c.idempotency)
            && SIDE_EFFECTS in o && o[SIDE_EFFECTS] == EffectsDocument(c.sideEffects)
            && PLACEMENT in o && o[PLACEMENT] == PlacementDocument(c.placement)
            && SECURITY in o && o[SECURITY] == SecurityDocument(c.security)
            && PORTS in o && o[PORTS] == Arr(PortDocuments(c.ports))
  {
    hide IdempotencyDocument;
    hide EffectsDocument;
    hide PlacementDocument;
    hide SecurityDocument;
    hide PortDocuments;
  }

  lemma PortsAccepted(ports: seq<PortContract>)
    requires forall p | p in ports :: p.Valid()
    ensures forall j | j in PortDocuments(ports) :: PortAcceptable(j)
  {
    forall j | j in PortDocuments(ports) ensures PortAcceptable(j) {
      var i :| 0 <= i < |ports| && PortDocuments(ports)[i] == j;
      PortAccepted(ports[i]);
    }
  }

  lemma UnitAccepted(u: Unit)
    requires u.Valid()
    ensures UnitAcceptable(V130, Key(u.unitId), UnitDocument(u))
  {
    assert u.contract.Valid() && forall p | p in u.contract.ports :: p.Valid();
    GovernanceAccepted(u.contract);
    PortsAccepted(u.contract.ports);
    ContractFields(u.contract);
    hide *;
    UnitFields(u);
    UnitFromFields(u);
  }

  lemma UnitFields(u: Unit)
    ensures UnitDocument(u).Obj?
    ensures var o := UnitDocument(u).fields;
            && UNIT_ID in o && o[UNIT_ID] == Str(u.unitId)
            && NAME in o && o[NAME] == Str(u.name)
            && HasString(o, STRUCTURE) && HasString(o, VISIBILITY) && HasString(o, LIFECYCLE)
            && CONTRACT in o && o[CONTRACT] == ContractDocument(u.contract)
  {
    hide ContractDocument;
    hide MutationDocument;
    hide ConstraintDocuments;
  }

  lemma UnitFromFields(u: Unit)
    requires UnitDocument(u).Obj?
    requires var o := UnitDocument(u).fields;
             && UNIT_ID in o && o[UNIT_ID] == Str(u.unitId)
             && NAME in o && o[NAME] == Str(u.name)
             && HasString(o, STRUCTURE) && HasString(o, VISIBILITY) && HasString(o, LIFECYCLE)
             && CONTRACT in o && o[CONTRACT] == ContractDocument(u.contract)
    requires ContractDocument(u.contract).Obj?
    requires var o := ContractDocument(u.contract).fields;
             && PORTS in o && o[PORTS] == Arr(PortDocuments(u.contract.ports))
             && GovernanceAcceptable(o)
    requires forall j | j in PortDocuments(u.contract.ports) :: PortAcceptable(j)
    ensures UnitAcceptable(V130, Key(u.unitId), UnitDocument(u))
  {
    hide UnitDocument;
    hide ContractDocument;
    hide PortDocuments;
    hide PortAcceptable;
    hide GovernanceAcceptable;
  }

  lemma UnitsAccepted(units: map<string, Unit>)
    requires forall id | id in units :: units[id].unitId == id && units[id].Valid()
    ensures forall k | k in UnitDocuments(units) :: UnitAcceptable(V130, k, UnitDocuments(units)[k])
  {
    hide UnitAcceptable;
    hide Unit.Valid;
    forall k | k in UnitDocuments(units) ensures UnitAcceptable(V130, k, UnitDocuments(units)[k]) {
      UnitAccepted(units[k.text]);
    }
  }

  lemma EdgesAccepted(es: seq<Edge>)
    ensures forall j | j in EdgeDocuments(es) :: EdgeAcceptable(V130, j)
  {
    forall j | j in EdgeDocuments(es) ensures EdgeAcceptable(V130, j) {
      var i :| 0 <= i < |es| && EdgeDocuments(es)[i] == j;
      assert j == EdgeDocument(es[i]);
    }
  }

  /** Whatever the printer writes passes the acceptance predicate. */
  lemma PrintedIsAccepted(g: Graph)
    requires g.Valid()
    ensures Acceptable(GraphDocument(g))
  {
    UnitsAccepted(g.units);
    EdgesAccepted(SortEdges(g.edges));
    GraphFields(g);
    hide GraphDocument;
    hide UnitAcceptable;
    hide EdgeAcceptable;
    hide UnitDocuments;
    hide EdgeDocuments;
    hide SortEdges;
    hide Graph.Valid;
    hide Normalized;
  }

  lemma GraphFields(g: Graph)
    requires g.Valid()
    ensures GraphDocument(g).Obj? && Normalized(g.graphId) && g.graphId != "" && g.metadata.Obj?
    ensures var o := GraphDocument(g).fields;
            && ReadHeader(o) == Ok(V130)
            && GRAPH_ID in o && o[GRAPH_ID] == Str(g.graphId)
            && VERSION in o && o[VERSION].Obj? && VersionAcceptable(o[VERSION].fields)
            && ReadVersion(o[VERSION]) == Ok(g.version)
            && UNITS in o && o[UNITS] == Obj(UnitDocuments(g.units))
            && EDGES in o && o[EDGES] == Arr(EdgeDocuments(SortEdges(g.edges)))
            && METADATA in o && o[METADATA] == g.metadata
  {
    hide UnitDocuments;
    hide EdgeDocuments;
    hide SortEdges;
    hide Unit.Valid;
  }

  // ----- The round trips -----

  function Canonical(g: Graph): Graph { g.(edges := SortEdges(g.edges)) }

  lemma UnitKeysOfDocuments(units: map<string, Unit>)
    ensures forall id :: id in UnitKeys(UnitDocuments(units)) <==> id in units
    ensures Restrict(units, UnitKeys(UnitDocuments(units))) == units
  {
    hide UnitDocument;
    forall id ensures id in UnitKeys(UnitDocuments(units)) <==> id in units {
      assert Key(id) in UnitDocuments(units) <==> id in units;
    }
  }

  lemma UnitsRoundTrip(units: map<string, Unit>)
    requires forall id | id in units :: units[id].unitId == id && units[id].Valid()
    ensures ReadUnits(UnitKeys(UnitDocuments(units)), UnitDocuments(units)) == Ok(units)
  {
    UnitKeysOfDocuments(units);
    hide Unit.Valid;
    hide UnitKeys;
    hide UnitDocuments;
    hide ReadUnits;
    hide Restrict;
    UnitsReadBack(UnitKeys(UnitDocuments(units)), units);
  }

  lemma SortedEdgesRoundTrip(edges: seq<Edge>)
    requires forall e | e in edges :: e.Valid()
    ensures ReadEdges(EdgeDocuments(SortEdges(edges))) == Ok(SortEdges(edges))
  {
    Sorting.SameElements(edges, SortEdges(edges));
    EdgesReadBack(SortEdges(edges));
  }

  /** Parsing a printed graph gives the graph back, with its edges in sorted order. */
  lemma PrintThenParse(g: Graph)
    requires g.Valid()
    ensures ReadGraph(GraphDocument(g)) == Ok(Canonical(g))
  {
    PrintedIsAccepted(g);
    GraphFields(g);
    SortedEdgesRoundTrip(g.edges);
    UnitsRoundTrip(g.units);
    hide GraphDocument;
    hide ReadVersion;
    hide VersionAcceptable;
    hide ReadHeader;
    hide Acceptable;
    hide ReadUnits;
    hide ReadEdges;
    hide UnitDocuments;
    hide EdgeDocuments;
    hide UnitKeys;
    hide SortEdges;
    hide Graph.Valid;
    hide Normalized;
  }

  lemma EdgeOrder()
    ensures Sorting.TotalPreorder(EdgeLeq)
  {
    forall e, f ensures EdgeLeq(e, f) || EdgeLeq(f, e) { Text.TupleLeqTotal(EdgeKey(e), EdgeKey(f)); }
    forall e, f, g | EdgeLeq(e, f) && EdgeLeq(f, g) ensures EdgeLeq(e, g) {
      Text.TupleLeqTransitive(EdgeKey(e), EdgeKey(f), EdgeKey(g));
    }
  }

  /** Printing what was parsed from a printed graph gives the same document. */
  lemma ReprintIsStable(g: Graph)
    ensures GraphDocument(Canonical(g)) == GraphDocument(g)
  {
    EdgeOrder();
    Sorting.SortIdempotent(g.edges, EdgeLeq);
  }

  /** Any accepted document settles after one trip: what it parses to prints to a document
      that parses to the same canonical graph and prints again unchanged. */
  lemma ParseThenPrint(document: Json)
    requires ReadGraph(document).Ok?
    ensures var g := ReadGraph(document).value;
            && Acceptable(GraphDocument(g))
            && ReadGraph(GraphDocument(g)) == Ok(Canonical(g))
            && GraphDocument(Canonical(g)) == GraphDocument(g)
  {
    var g := ReadGraph(document).value;
    PrintedIsAccepted(g);
    PrintThenParse(g);
    ReprintIsStable(g);
  }

  // ----- Insertion order -----

  lemma {:induction false} EdgeDocumentsInjective(es: seq<Edge>, fs: seq<Edge>)
    requires EdgeDocuments(es) == EdgeDocuments(fs)
    ensures es == fs
  {
    assert |EdgeDocuments(es)| == |es| && |EdgeDocuments(fs)| == |fs|;
    forall i | 0 <= i < |es| ensures es[i] == fs[i] {
      assert EdgeDocument(es[i]) == EdgeDocuments(es)[i] == EdgeDocuments(fs)[i] == EdgeDocument(fs[i]);
      EdgeDocumentInjective(es[i], fs[i]);
    }
  }

  lemma EdgeDocumentInjective(e: Edge, f: Edge)
    requires EdgeDocument(e) == EdgeDocument(f)
    ensures e == f
  {
    var a, b := EdgeDocument(e).fields, EdgeDocument(f).fields;
    assert a[SOURCE] == b[SOURCE] && a[TARGET] == b[TARGET] && a[METADATA] == b[METADATA];
    assert a[EDGE_TYPE] == b[EDGE_TYPE];
    assert a[SOURCE_PORT] == b[SOURCE_PORT] && a[TARGET_PORT] == b[TARGET_PORT];
    EdgeTypeReadBack(e.edgeType);
    EdgeTypeReadBack(f.edgeType);
  }

  /** Two edges share a sort key exactly when they agree on ends and kind and their ports
      differ at most by being missing or empty. */
  lemma SameEdgeKey(e: Edge, f: Edge)
    ensures EdgeLeq(e, f) && EdgeLeq(f, e) <==>
              && e.source == f.source && e.target == f.target && e.edgeType == f.edgeType
              && (e.sourcePort == f.sourcePort || (e.sourcePort in {None, Some("")}
                  && f.sourcePort in {None, Some("")}))
              && (e.targetPort == f.targetPort || (e.targetPort in {None, Some("")}
                  && f.targetPort in {None, Some("")}))
  {
    var a, b := EdgeKey(e), EdgeKey(f);
    Text.TupleLeqTotal(a, b);
    assert a == b ==> a[0] == b[0] && a[1] == b[1] && a[2] == b[2] && a[3] == b[3] && a[4] == b[4];
    EdgeTypeReadBack(e.edgeType);
    EdgeTypeReadBack(f.edgeType);
  }

  /** All insertion orders of the edges print alike. */
  ghost predicate OrderFree(g: Graph) {
    forall p: seq<Edge> | multiset(p) == multiset(g.edges) :: GraphDocument(g.(edges := p)) == GraphDocument(g)
  }

  /** Printing forgets the insertion order of edges exactly when edges with equal sort keys
      are equal. */
  lemma OrderFreeIffKeysDistinguish(g: Graph)
    ensures OrderFree(g) <==> Sorting.KeysDistinguish(g.edges, EdgeLeq)
  {
    EdgeOrder();
    if Sorting.KeysDistinguish(g.edges, EdgeLeq) {
      forall p: seq<Edge> | multiset(p) == multiset(g.edges)
        ensures GraphDocument(g.(edges := p)) == GraphDocument(g)
      {
        Sorting.SortOrderIndependent(g.edges, p, EdgeLeq);
      }
    }
    if OrderFree(g) {
      forall e, f | e in g.edges && f in g.edges && EdgeLeq(e, f) && EdgeLeq(f, e) ensures e == f {
        EqualKeysPrintAlike(g, e, f);
      }
    }
  }

  lemma EqualKeysPrintAlike(g: Graph, e: Edge, f: Edge)
    requires OrderFree(g) && e in g.edges && f in g.edges && EdgeLeq(e, f) && EdgeLeq(f, e)
    ensures e == f
  {
    EdgeOrder();
    var p, q := MoveToFront(g.edges, e), MoveToFront(g.edges, f);
    assert GraphDocument(g.(edges := p)) == GraphDocument(g.(edges := q));
    var a, b := GraphDocument(g.(edges := p)).fields, GraphDocument(g.(edges := q)).fields;
    assert a[EDGES] == b[EDGES];
    EdgeDocumentsInjective(SortEdges(p), SortEdges(q));
    Sorting.SortStable(e, p, EdgeLeq);
    Sorting.SortStable(e, q, EdgeLeq);
    assert EdgeLeq(e, e);
    assert Sorting.SameKey(e, p, EdgeLeq)[0] == e;
    assert Sorting.SameKey(e, q, EdgeLeq)[0] == f;
  }

  function MoveToFront(es: seq<Edge>, e: Edge): (r: seq<Edge>)
    requires e in es
    ensures multiset(r) == multiset(es) && r[0] == e
  {
    if es[0] == e then es
    else
      assert es == [es[0]] + es[1..];
      var rest := MoveToFront(es[1..], e);
      assert rest == [e] + rest[1..];
      [e] + ([es[0]] + rest[1..])
  }

  /** The key conflates a missing port with an empty one, so two such edges print in
      insertion order. */
  lemma MissingPortSortsLikeEmpty(g: Graph, e: Edge)
    requires e.sourcePort == None && e in g.edges && e.(sourcePort := Some("")) in g.edges
    ensures !OrderFree(g)
  {
    OrderFreeIffKeysDistinguish(g);
    SameEdgeKey(e, e.(sourcePort := Some("")));
  }
}
