/** The graph validator: four passes that append errors, proved to report each error code
    exactly when the rule behind it is broken. */
module Validator {
  import opened Wrappers
  import opened Ir
  import opened Json
  import SG = StructuralGraph

  datatype Code =
    | UnitDimension | PortIdDuplicate | EffectIdempotencyRequired | IrreversibleDuplicationControl
    | EdgeDuplicate | EdgeSourceMissing | EdgeTargetMissing
    | PortBindingIncomplete | PortBindingRequired | PortMissing | PortDirectionWrong | PortKindWrong | SchemaMismatch
    | TenantMismatch | ClassificationDowngrade | ResidencyConflict | TrustZoneDenied | LocalityConflict
    | PortCardinalityWrong
    | ConstraintEmpty

  datatype ValidationError = ValidationError(tier: EnforcementTier, code: Code, targetId: string)

  datatype ValidationResult = ValidationResult(isValid: bool, errors: seq<ValidationError>,
      warnings: seq<ValidationError>)

  ghost predicate Reports(errors: seq<ValidationError>, e: ValidationError) { e in errors }

  /** An error of the invariant tier about the given unit or edge. */
  predicate About(e: ValidationError, targetId: string) { e.tier == InvariantTier && e.targetId == targetId }

  type Units = map<string, Unit>

  // ----- The rules -----

  predicate UnitFault(u: Unit, c: Code) {
    var effects, mode := u.contract.sideEffects.classification, u.contract.idempotency.mode;
    match c
    case UnitDimension => u.structure == Primitive && u.subUnits != []
    case PortIdDuplicate => !u.contract.UniquePorts()
    case EffectIdempotencyRequired => effects != NoEffect && mode == NoIdempotency
    case IrreversibleDuplicationControl => effects == Irreversible && mode != KeyRequired && mode != AtMostOnce
    case _ => false
  }

  predicate SameIdentity(e: Edge, f: Edge) {
    && e.source == f.source && e.sourcePort == f.sourcePort
    && e.target == f.target && e.targetPort == f.targetPort
    && e.edgeType == f.edgeType
  }

  /** Faults of an edge between two present units. */
  predicate ContractFault(s: Unit, t: Unit, e: Edge, c: Code) {
    match c
    case PortBindingIncomplete => e.sourcePort.None? != e.targetPort.None?
    case PortBindingRequired =>
      e.sourcePort.None? && e.targetPort.None? && (s.contract.ports != [] || t.contract.ports != [])
    case _ =>
      && e.sourcePort.Some? && e.targetPort.Some?
      && PortPairFault(s.contract.Port(e.sourcePort.value), t.contract.Port(e.targetPort.value), e.edgeType, c)
  }

  predicate PortPairFault(p: Option<PortContract>, q: Option<PortContract>, kind: EdgeType, c: Code) {
    if p.None? || q.None? then c == PortMissing
    else
      match c
      case PortDirectionWrong => p.value.direction != Output || q.value.direction != Input
      case PortKindWrong => p.value.kind.Value() != kind.Value() || q.value.kind.Value() != kind.Value()
      case SchemaMismatch => p.value.schema != q.value.schema
      case _ => false
  }

  predicate Conflict(a: set<string>, b: set<string>) { a != {} && b != {} && a !! b }

  predicate GovernanceFault(s: Unit, t: Unit, e: Edge, c: Code) {
    var from, to := s.contract.security, t.contract.security;
    var here, there := s.contract.placement, t.contract.placement;
    match c
    case TenantMismatch => from.tenantId.Some? && to.tenantId.Some? && from.tenantId != to.tenantId
    case ClassificationDowngrade =>
      && (e.edgeType == DataEdge || e.edgeType == StateEdge || e.edgeType == ResourceEdge)
      && from.outputClassification.Rank() > to.maximumInputClassification.Rank()
    case ResidencyConflict => Conflict(from.allowedResidencies, to.allowedResidencies)
    case TrustZoneDenied =>
      from.trustZone != "" && to.acceptedTrustZones != {} && from.trustZone !in to.acceptedTrustZones
    case LocalityConflict => there.requiresLocalInputs && LocalityFault(here, there)
    case _ => false
  }

  predicate LocalityFault(here: PlacementContract, there: PlacementContract) {
    || Conflict(here.allowedRegions, there.allowedRegions)
    || Conflict(here.allowedDevices, there.allowedDevices)
    || Conflict(here.allowedRuntimes, there.allowedRuntimes)
  }

  predicate OneEdgeFault(units: Units, e: Edge, repeated: bool, c: Code) {
    match c
    case EdgeDuplicate => repeated
    case EdgeSourceMissing => e.source !in units
    case EdgeTargetMissing => e.target !in units
    case _ =>
      && e.source in units && e.target in units
      && (ContractFault(units[e.source], units[e.target], e, c)
          || GovernanceFault(units[e.source], units[e.target], e, c))
  }

  ghost predicate Repeats(edges: seq<Edge>, i: int)
    requires 0 <= i < |edges|
  {
    exists j | 0 <= j < i :: SameIdentity(edges[j], edges[i])
  }

  function EdgeName(e: Edge): string { e.source + "->" + e.target }

  /** A missing end is blamed on the missing unit, everything else on the edge. */
  function Blamed(e: Edge, c: Code): string {
    match c
    case EdgeSourceMissing => e.source
    case EdgeTargetMissing => e.target
    case _ => EdgeName(e)
  }

  /** Faults of the edge at position `i`, given all edges before it. */
  ghost predicate EdgeFault(units: Units, edges: seq<Edge>, i: int, c: Code, targetId: string) {
    0 <= i < |edges| && OneEdgeFault(units, edges[i], Repeats(edges, i), c) && targetId == Blamed(edges[i], c)
  }

  /** The number of edge ends bound to a port; a self-loop on one port counts twice. */
  ghost function Degree(edges: seq<Edge>, uid: string, portId: string): nat {
    |Leaving(edges, uid, portId)| + |Entering(edges, uid, portId)|
  }

  ghost function Leaving(edges: seq<Edge>, uid: string, portId: string): set<int> {
    set i | 0 <= i < |edges| && edges[i].source == uid && edges[i].sourcePort == Some(portId)
  }

  ghost function Entering(edges: seq<Edge>, uid: string, portId: string): set<int> {
    set i | 0 <= i < |edges| && edges[i].target == uid && edges[i].targetPort == Some(portId)
  }

  predicate OutOfBounds(port: PortContract, count: nat) {
    || count < port.cardinality.Minimum()
    || (port.cardinality.Maximum().Some? && count > port.cardinality.Maximum().value)
  }

  ghost predicate CardinalityFault(u: Unit, uid: string, edges: seq<Edge>) {
    exists p | p in u.contract.ports :: OutOfBounds(p, Degree(edges, uid, p.portId))
  }

  predicate EmptyConstraint(u: Unit, tier: EnforcementTier) {
    exists k | k in u.constraints :: k.tier == tier && !Truthy(k.expression)
  }

  /** The graph breaks the rule with code `c` at the unit or edge `x`. */
  ghost predicate Violated(units: Units, edges: seq<Edge>, c: Code, x: string) {
    || (x in units && UnitFault(units[x], c))
    || (exists i :: EdgeFault(units, edges, i, c, x))
    || (c == PortCardinalityWrong && x in units && CardinalityFault(units[x], x, edges))
    || (c == ConstraintEmpty && x in units && EmptyConstraint(units[x], InvariantTier))
  }

  // ----- Well-formedness, stated independently of error codes -----

  ghost predicate UnitWellFormed(u: Unit) {
    && (u.structure == Primitive ==> u.subUnits == [])
    && u.contract.UniquePorts()
    && (u.contract.sideEffects.classification != NoEffect ==> u.contract.idempotency.mode != NoIdempotency)
    && (u.contract.sideEffects.classification == Irreversible ==>
          u.contract.idempotency.mode in {KeyRequired, AtMostOnce})
    && (forall k | k in u.constraints && k.tier == InvariantTier :: Truthy(k.expression))
  }

  /** Either neither end names a port and both units are untyped, or both ends name declared
      ports that run from output to input, carry the edge's kind, and agree on the schema. */
  ghost predicate BindingWellFormed(s: Unit, t: Unit, e: Edge) {
    || (e.sourcePort.None? && e.targetPort.None? && s.contract.ports == [] && t.contract.ports == [])
    || (&& e.sourcePort.Some? && e.targetPort.Some?
        && var p, q := s.contract.Port(e.sourcePort.value), t.contract.Port(e.targetPort.value);
           && p.Some? && q.Some?
           && p.value.direction == Output && q.value.direction == Input
           && p.value.kind.Value() == e.edgeType.Value() == q.value.kind.Value()
           && p.value.schema == q.value.schema)
  }

  ghost predicate Compatible(a: set<string>, b: set<string>) {
    a == {} || b == {} || exists x :: x in a && x in b
  }

  /** Public below internal below confidential below restricted. */
  ghost predicate NoMoreSecret(a: DataClassification, b: DataClassification) {
    a == b || a == PublicData || b == RestrictedData || (a == InternalData && b == ConfidentialData)
  }

  ghost predicate Fits(cardinality: PortCardinality, count: nat) {
    match cardinality
    case ExactlyOne => count == 1
    case ZeroOrOne => count == 0 || count == 1
    case OneOrMore => count != 0
    case ZeroOrMore => true
  }

  ghost predicate GovernanceWellFormed(s: Unit, t: Unit, e: Edge) {
    var from, to := s.contract.security, t.contract.security;
    && (from.tenantId.None? || to.tenantId.None? || from.tenantId == to.tenantId)
    && (e.edgeType in {ControlEdge, DependencyEdge}
        || NoMoreSecret(from.outputClassification, to.maximumInputClassification))
    && Compatible(from.allowedResidencies, to.allowedResidencies)
    && (from.trustZone == "" || to.acceptedTrustZones == {} || from.trustZone in to.acceptedTrustZones)
    && (t.contract.placement.requiresLocalInputs ==>
          && Compatible(s.contract.placement.allowedRegions, t.contract.placement.allowedRegions)
          && Compatible(s.contract.placement.allowedDevices, t.contract.placement.allowedDevices)
          && Compatible(s.contract.placement.allowedRuntimes, t.contract.placement.allowedRuntimes))
  }

  ghost predicate WellFormed(units: Units, edges: seq<Edge>) {
    && (forall id | id in units :: UnitWellFormed(units[id]))
    && (forall e | e in edges :: e.source in units && e.target in units)
    && (forall i, j | 0 <= i < j < |edges| :: !SameIdentity(edges[i], edges[j]))
    && (forall e | e in edges ::
          && BindingWellFormed(units[e.source], units[e.target], e)
          && GovernanceWellFormed(units[e.source], units[e.target], e))
    && (forall id | id in units :: forall p | p in units[id].contract.ports ::
          Fits(p.cardinality, Degree(edges, id, p.portId)))
  }

  lemma FitsIffWithinBounds(port: PortContract, count: nat)
    ensures Fits(port.cardinality, count) <==> !OutOfBounds(port, count)
  {
  }

  lemma BindingIffNoContractFault(s: Unit, t: Unit, e: Edge)
    ensures BindingWellFormed(s, t, e) <==> forall c :: !ContractFault(s, t, e, c)
  {
    if !BindingWellFormed(s, t, e) {
      assert || ContractFault(s, t, e, PortBindingIncomplete) || ContractFault(s, t, e, PortBindingRequired)
             || ContractFault(s, t, e, PortMissing) || ContractFault(s, t, e, PortDirectionWrong)
             || ContractFault(s, t, e, PortKindWrong) || ContractFault(s, t, e, SchemaMismatch);
    }
  }

  lemma CompatibleIffNoConflict(a: set<string>, b: set<string>)
    ensures Compatible(a, b) <==> !Conflict(a, b)
  {
  }

  lemma GovernanceIffNoFault(s: Unit, t: Unit, e: Edge)
    ensures GovernanceWellFormed(s, t, e) <==> forall c :: !GovernanceFault(s, t, e, c)
  {
    var p, q := s.contract.placement, t.contract.placement;
    CompatibleIffNoConflict(s.contract.security.allowedResidencies, t.contract.security.allowedResidencies);
    CompatibleIffNoConflict(p.allowedRegions, q.allowedRegions);
    CompatibleIffNoConflict(p.allowedDevices, q.allowedDevices);
    CompatibleIffNoConflict(p.allowedRuntimes, q.allowedRuntimes);
    hide Conflict;
    hide Compatible;
    if !GovernanceWellFormed(s, t, e) {
      assert || GovernanceFault(s, t, e, TenantMismatch) || GovernanceFault(s, t, e, ClassificationDowngrade)
             || GovernanceFault(s, t, e, ResidencyConflict) || GovernanceFault(s, t, e, TrustZoneDenied)
             || GovernanceFault(s, t, e, LocalityConflict);
    }
  }

  lemma UnitIffNoFault(u: Unit)
    ensures UnitWellFormed(u) <==> (forall c :: !UnitFault(u, c)) && !EmptyConstraint(u, InvariantTier)
  {
    if !UnitWellFormed(u) {
      assert || UnitFault(u, UnitDimension) || UnitFault(u, PortIdDuplicate)
             || UnitFault(u, EffectIdempotencyRequired) || UnitFault(u, IrreversibleDuplicationControl)
             || EmptyConstraint(u, InvariantTier);
    }
  }

  /** A graph is well-formed exactly when no rule is broken. */
  lemma WellFormedIffNothingViolated(units: Units, edges: seq<Edge>)
    ensures WellFormed(units, edges) <==> forall c, x :: !Violated(units, edges, c, x)
  {
    if WellFormed(units, edges) {
      forall c, x ensures !Violated(units, edges, c, x) { WellFormedMeansNotViolated(units, edges, c, x); }
    }
    if forall c, x :: !Violated(units, edges, c, x) {
      NotViolatedMeansWellFormed(units, edges);
    }
  }

  lemma WellFormedMeansNotViolated(units: Units, edges: seq<Edge>, c: Code, x: string)
    requires WellFormed(units, edges)
    ensures !Violated(units, edges, c, x)
  {
    hide UnitFault;
    hide UnitWellFormed;
    hide EmptyConstraint;
    hide OneEdgeFault;
    hide BindingWellFormed;
    hide GovernanceWellFormed;
    hide Fits;
    hide OutOfBounds;
    hide Degree;
    hide SameIdentity;
    hide Blamed;
    if x in units {
      UnitIffNoFault(units[x]);
      forall p | p in units[x].contract.ports ensures !OutOfBounds(p, Degree(edges, x, p.portId)) {
        FitsIffWithinBounds(p, Degree(edges, x, p.portId));
      }
    }
    forall i | 0 <= i < |edges| ensures !EdgeFault(units, edges, i, c, x) {
      assert edges[i] in edges;
      SoundEdge(units, edges[i], c);
    }
  }

  lemma SoundEdge(units: Units, e: Edge, c: Code)
    requires e.source in units && e.target in units
    requires BindingWellFormed(units[e.source], units[e.target], e)
    requires GovernanceWellFormed(units[e.source], units[e.target], e)
    ensures !OneEdgeFault(units, e, false, c)
  {
    BindingIffNoContractFault(units[e.source], units[e.target], e);
    GovernanceIffNoFault(units[e.source], units[e.target], e);
    hide ContractFault;
    hide GovernanceFault;
    hide BindingWellFormed;
    hide GovernanceWellFormed;
  }

  lemma NotViolatedMeansWellFormed(units: Units, edges: seq<Edge>)
    requires forall c, x :: !Violated(units, edges, c, x)
    ensures WellFormed(units, edges)
  {
    forall id | id in units ensures UnitWellFormed(units[id]) {
      UnitIffNoFault(units[id]);
      assert forall c :: !Violated(units, edges, c, id) ==> !UnitFault(units[id], c);
      assert !Violated(units, edges, ConstraintEmpty, id);
    }
    forall i | 0 <= i < |edges|
      ensures edges[i].source in units && edges[i].target in units && !Repeats(edges, i)
      ensures BindingWellFormed(units[edges[i].source], units[edges[i].target], edges[i])
      ensures GovernanceWellFormed(units[edges[i].source], units[edges[i].target], edges[i])
    {
      NoFaultAt(units, edges, i);
      FaultlessEdge(units, edges[i], Repeats(edges, i));
      hide *;
    }
    NoneRepeats(edges);
    forall id | id in units
      ensures forall p | p in units[id].contract.ports :: Fits(p.cardinality, Degree(edges, id, p.portId))
    {
      assert !Violated(units, edges, PortCardinalityWrong, id);
      assert !CardinalityFault(units[id], id, edges);
      forall p | p in units[id].contract.ports ensures Fits(p.cardinality, Degree(edges, id, p.portId)) {
        FitsIffWithinBounds(p, Degree(edges, id, p.portId));
      }
    }
  }

  lemma NoFaultAt(units: Units, edges: seq<Edge>, i: nat)
    requires i < |edges| && forall c, x :: !Violated(units, edges, c, x)
    ensures forall c :: !OneEdgeFault(units, edges[i], Repeats(edges, i), c)
  {
    hide OneEdgeFault;
    hide Repeats;
    forall c ensures !OneEdgeFault(units, edges[i], Repeats(edges, i), c) {
      assert !Violated(units, edges, c, Blamed(edges[i], c));
      assert !EdgeFault(units, edges, i, c, Blamed(edges[i], c));
    }
  }

  lemma NoneRepeats(edges: seq<Edge>)
    requires forall i | 0 <= i < |edges| :: !Repeats(edges, i)
    ensures forall i, j | 0 <= i < j < |edges| :: !SameIdentity(edges[i], edges[j])
  {
    forall i, j | 0 <= i < j < |edges| ensures !SameIdentity(edges[i], edges[j]) { assert !Repeats(edges, j); }
  }

  lemma FaultlessEdge(units: Units, e: Edge, repeated: bool)
    requires forall c :: !OneEdgeFault(units, e, repeated, c)
    ensures e.source in units && e.target in units && !repeated
    ensures BindingWellFormed(units[e.source], units[e.target], e)
    ensures GovernanceWellFormed(units[e.source], units[e.target], e)
  {
    hide ContractFault;
    hide GovernanceFault;
    assert !OneEdgeFault(units, e, repeated, EdgeSourceMissing);
    assert !OneEdgeFault(units, e, repeated, EdgeTargetMissing);
    assert !OneEdgeFault(units, e, repeated, EdgeDuplicate);
    var s, t := units[e.source], units[e.target];
    BindingIffNoContractFault(s, t, e);
    GovernanceIffNoFault(s, t, e);
    forall c ensures !ContractFault(s, t, e, c) && !GovernanceFault(s, t, e, c) {
      assert !OneEdgeFault(units, e, repeated, c);
      FaultCodes(s, t, e, c);
    }
  }

  /** Contract and governance faults never use the codes of missing or repeated edges. */
  lemma FaultCodes(s: Unit, t: Unit, e: Edge, c: Code)
    requires c in {EdgeDuplicate, EdgeSourceMissing, EdgeTargetMissing}
             || !(ContractFault(s, t, e, c) || GovernanceFault(s, t, e, c))
    ensures !ContractFault(s, t, e, c) && !GovernanceFault(s, t, e, c)
  {
  }

  // ----- What each code says -----

  /** The codes about one unit, each the failure of one demand on it. */
  lemma UnitCodes(units: Units, edges: seq<Edge>, x: string)
    requires x in units
    ensures Violated(units, edges, UnitDimension, x) <==> units[x].structure == Primitive && |units[x].subUnits| > 0
    ensures Violated(units, edges, PortIdDuplicate, x) <==>
              exists i, j | 0 <= i < j < |units[x].contract.ports| ::
                units[x].contract.ports[i].portId == units[x].contract.ports[j].portId
    ensures Violated(units, edges, EffectIdempotencyRequired, x) <==>
              && units[x].contract.sideEffects.classification in {Reversible, Compensatable, Irreversible}
              && units[x].contract.idempotency.mode == NoIdempotency
    ensures Violated(units, edges, IrreversibleDuplicationControl, x) <==>
              && units[x].contract.sideEffects.classification == Irreversible
              && units[x].contract.idempotency.mode in {NoIdempotency, Idempotent}
    ensures Violated(units, edges, PortCardinalityWrong, x) <==>
              exists p :: p in units[x].contract.ports && !Fits(p.cardinality, Degree(edges, x, p.portId))
    ensures Violated(units, edges, ConstraintEmpty, x) <==>
              exists k :: k in units[x].constraints && k.tier == InvariantTier && !Truthy(k.expression)
  {
    forall c | c in UNIT_CODES
      ensures Violated(units, edges, c, x) <==>
                || UnitFault(units[x], c)
                || (c == PortCardinalityWrong && CardinalityFault(units[x], x, edges))
                || (c == ConstraintEmpty && EmptyConstraint(units[x], InvariantTier))
    {
      UnitViolation(units, edges, c, x);
    }
    hide Violated;
    hide Degree;
    forall p | p in units[x].contract.ports
      ensures Fits(p.cardinality, Degree(edges, x, p.portId)) <==> !OutOfBounds(p, Degree(edges, x, p.portId))
    {
      FitsIffWithinBounds(p, Degree(edges, x, p.portId));
    }
    hide Fits;
    hide OutOfBounds;
  }

  /** The codes of units blame nothing else. */
  lemma UnitViolation(units: Units, edges: seq<Edge>, c: Code, x: string)
    requires c in UNIT_CODES
    ensures Violated(units, edges, c, x) <==>
              && x in units
              && (|| UnitFault(units[x], c)
                  || (c == PortCardinalityWrong && CardinalityFault(units[x], x, edges))
                  || (c == ConstraintEmpty && EmptyConstraint(units[x], InvariantTier)))
  {
    forall i ensures !EdgeFault(units, edges, i, c, x) {
      if 0 <= i < |edges| { NotAnEdgeCode(units, edges[i], Repeats(edges, i), c); }
      hide OneEdgeFault;
    }
    hide EdgeFault;
    hide UnitFault;
    hide CardinalityFault;
    hide EmptyConstraint;
  }

  const UNIT_CODES := { UnitDimension, PortIdDuplicate, EffectIdempotencyRequired, IrreversibleDuplicationControl,
                        PortCardinalityWrong, ConstraintEmpty }

  lemma NotAnEdgeCode(units: Units, e: Edge, repeated: bool, c: Code)
    requires c in UNIT_CODES
    ensures !OneEdgeFault(units, e, repeated, c)
  {
  }

  /** An edge between two units of the graph. */
  ghost predicate Joins(units: Units, edges: seq<Edge>, e: Edge, x: string) {
    e in edges && e.source in units && e.target in units && x == e.source + "->" + e.target
  }

  lemma EdgeViolation(units: Units, edges: seq<Edge>, c: Code, x: string)
    requires c !in UNIT_CODES && c !in {EdgeDuplicate, EdgeSourceMissing, EdgeTargetMissing}
    ensures Violated(units, edges, c, x) <==>
              exists e :: && Joins(units, edges, e, x)
                          && (ContractFault(units[e.source], units[e.target], e, c)
                              || GovernanceFault(units[e.source], units[e.target], e, c))
  {
    hide ContractFault;
    hide GovernanceFault;
    hide Repeats;
    hide CardinalityFault;
    hide EmptyConstraint;
    if i :| EdgeFault(units, edges, i, c, x) { assert Joins(units, edges, edges[i], x); }
    if e :| Joins(units, edges, e, x) && (ContractFault(units[e.source], units[e.target], e, c)
                                          || GovernanceFault(units[e.source], units[e.target], e, c)) {
      var i :| 0 <= i < |edges| && edges[i] == e;
      assert EdgeFault(units, edges, i, c, x);
    }
  }

  /** The codes about the ends of edges. */
  lemma EndCodes(units: Units, edges: seq<Edge>, x: string)
    ensures Violated(units, edges, EdgeSourceMissing, x) <==> x !in units && exists e :: e in edges && e.source == x
    ensures Violated(units, edges, EdgeTargetMissing, x) <==> x !in units && exists e :: e in edges && e.target == x
    ensures Violated(units, edges, EdgeDuplicate, x) <==>
              exists i, j :: && 0 <= i < j < |edges| && SameIdentity(edges[i], edges[j])
                             && x == edges[j].source + "->" + edges[j].target
  {
    hide SameIdentity;
    hide ContractFault;
    hide GovernanceFault;
    hide CardinalityFault;
    hide EmptyConstraint;
    forall e | e in edges && e.source == x && x !in units ensures Violated(units, edges, EdgeSourceMissing, x) {
      var i :| 0 <= i < |edges| && edges[i] == e;
      assert EdgeFault(units, edges, i, EdgeSourceMissing, x);
    }
    forall e | e in edges && e.target == x && x !in units ensures Violated(units, edges, EdgeTargetMissing, x) {
      var i :| 0 <= i < |edges| && edges[i] == e;
      assert EdgeFault(units, edges, i, EdgeTargetMissing, x);
    }
    forall i, j | 0 <= i < j < |edges| && SameIdentity(edges[i], edges[j])
        && x == edges[j].source + "->" + edges[j].target
      ensures Violated(units, edges, EdgeDuplicate, x)
    {
      assert Repeats(edges, j);
      assert EdgeFault(units, edges, j, EdgeDuplicate, x);
    }
    if i :| EdgeFault(units, edges, i, EdgeDuplicate, x) { assert Repeats(edges, i); }
  }

  ghost predicate BothPorts(s: Unit, t: Unit, e: Edge, p: PortContract, q: PortContract) {
    && e.sourcePort.Some? && e.targetPort.Some?
    && s.contract.Port(e.sourcePort.value) == Some(p) && t.contract.Port(e.targetPort.value) == Some(q)
  }

  /** The codes about the ports that an edge binds. */
  lemma BindingCodes(s: Unit, t: Unit, e: Edge)
    ensures ContractFault(s, t, e, PortBindingIncomplete) <==> e.sourcePort.Some? != e.targetPort.Some?
    ensures ContractFault(s, t, e, PortBindingRequired) <==>
              e.sourcePort == e.targetPort == None && s.contract.ports + t.contract.ports != []
    ensures ContractFault(s, t, e, PortMissing) <==>
              e.sourcePort.Some? && e.targetPort.Some? && !exists p, q :: BothPorts(s, t, e, p, q)
    ensures ContractFault(s, t, e, PortDirectionWrong) <==>
              exists p, q :: BothPorts(s, t, e, p, q) && (p.direction == Input || q.direction == Output)
    ensures ContractFault(s, t, e, PortKindWrong) <==>
              exists p, q :: BothPorts(s, t, e, p, q) && !(p.kind.Value() == e.edgeType.Value() == q.kind.Value())
    ensures ContractFault(s, t, e, SchemaMismatch) <==>
              exists p, q :: BothPorts(s, t, e, p, q) && p.schema != q.schema
  {
    if e.sourcePort.Some? && e.targetPort.Some? {
      var p, q := s.contract.Port(e.sourcePort.value), t.contract.Port(e.targetPort.value);
      if p.Some? && q.Some? { assert BothPorts(s, t, e, p.value, q.value); }
    }
  }

  /** The codes about the governance that an edge crosses. */
  lemma GovernanceCodes(s: Unit, t: Unit, e: Edge)
    ensures GovernanceFault(s, t, e, TenantMismatch) <==>
              exists a: string, b: string :: && s.contract.security.tenantId == Some(a)
                                             && t.contract.security.tenantId == Some(b) && a != b
    ensures GovernanceFault(s, t, e, ClassificationDowngrade) <==>
              && e.edgeType !in {ControlEdge, DependencyEdge}
              && !NoMoreSecret(s.contract.security.outputClassification,
                               t.contract.security.maximumInputClassification)
    ensures GovernanceFault(s, t, e, ResidencyConflict) <==>
              !Compatible(s.contract.security.allowedResidencies, t.contract.security.allowedResidencies)
    ensures GovernanceFault(s, t, e, TrustZoneDenied) <==>
              && s.contract.security.trustZone != ""
              && exists zone :: && zone in t.contract.security.acceptedTrustZones
                                && s.contract.security.trustZone !in t.contract.security.acceptedTrustZones
    ensures GovernanceFault(s, t, e, LocalityConflict) <==>
              && t.contract.placement.requiresLocalInputs
              && !(&& Compatible(s.contract.placement.allowedRegions, t.contract.placement.allowedRegions)
                   && Compatible(s.contract.placement.allowedDevices, t.contract.placement.allowedDevices)
                   && Compatible(s.contract.placement.allowedRuntimes, t.contract.placement.allowedRuntimes))
  {
    var here, there := s.contract.placement, t.contract.placement;
    CompatibleIffNoConflict(s.contract.security.allowedResidencies, t.contract.security.allowedResidencies);
    CompatibleIffNoConflict(here.allowedRegions, there.allowedRegions);
    CompatibleIffNoConflict(here.allowedDevices, there.allowedDevices);
    CompatibleIffNoConflict(here.allowedRuntimes, there.allowedRuntimes);
    var zones := t.contract.security.acceptedTrustZones;
    if zones != {} { var zone :| zone in zones; }
    hide Conflict;
    hide Compatible;
  }

  // ----- The validator -----

  method ReportIf(errors: seq<ValidationError>, failed: bool, c: Code, targetId: string)
    returns (r: seq<ValidationError>)
    ensures forall e :: Reports(r, e) <==> Reports(errors, e) || (failed && About(e, targetId) && e.code == c)
    ensures errors <= r && |r| == |errors| + (if failed then 1 else 0)
  {
    r := errors;
    if failed { r := r + [ValidationError(InvariantTier, c, targetId)]; }
  }

  method CheckUnit(uid: string, u: Unit, errors: seq<ValidationError>) returns (r: seq<ValidationError>)
    ensures forall e :: Reports(r, e) <==> Reports(errors, e) || (About(e, uid) && UnitFault(u, e.code))
  {
    hide Reports;
    hide About;
    var effects, mode := u.contract.sideEffects.classification, u.contract.idempotency.mode;
    r := ReportIf(errors, u.structure == Primitive && |u.subUnits| > 0, UnitDimension, uid);
    r := ReportIf(r, !u.contract.UniquePorts(), PortIdDuplicate, uid);
    r := ReportIf(r, effects != NoEffect && mode == NoIdempotency, EffectIdempotencyRequired, uid);
    r := ReportIf(r, effects == Irreversible && mode !in {KeyRequired, AtMostOnce}, IrreversibleDuplicationControl,
                  uid);
  }

  method CheckUnits(graph: SG.StructuralGraph, errors: seq<ValidationError>) returns (r: seq<ValidationError>)
    requires graph.Valid()
    ensures forall e :: Reports(r, e) <==>
              Reports(errors, e)
              || (About(e, e.targetId) && e.targetId in graph.units && UnitFault(graph.units[e.targetId], e.code))
  {
    hide Reports;
    hide UnitFault;
    r := errors;
    for i := 0 to |graph.unitIds|
      invariant forall e :: Reports(r, e) <==>
                  Reports(errors, e)
                  || exists k | 0 <= k < i ::
                       About(e, graph.unitIds[k]) && UnitFault(graph.units[graph.unitIds[k]], e.code)
    {
      r := CheckUnit(graph.unitIds[i], graph.units[graph.unitIds[i]], r);
    }
    assert forall id :: id in graph.units <==> id in graph.unitIds;
  }

  method CheckEdgeContract(s: Unit, t: Unit, e: Edge, errors: seq<ValidationError>) returns (r: seq<ValidationError>)
    ensures forall x :: Reports(r, x) <==>
              Reports(errors, x) || (About(x, EdgeName(e)) && ContractFault(s, t, e, x.code))
  {
    hide Reports;
    hide About;
    r := errors;
    var typedEndpoints := s.contract.ports != [] || t.contract.ports != [];
    if e.sourcePort.None? != e.targetPort.None? {
      r := ReportIf(r, true, PortBindingIncomplete, EdgeName(e));
      return;
    }
    if e.sourcePort.None? {
      r := ReportIf(r, typedEndpoints, PortBindingRequired, EdgeName(e));
      return;
    }
    var p, q := s.contract.Port(e.sourcePort.value), t.contract.Port(e.targetPort.value);
    if p.None? || q.None? {
      r := ReportIf(r, true, PortMissing, EdgeName(e));
      return;
    }
    r := ReportIf(r, p.value.direction != Output || q.value.direction != Input, PortDirectionWrong, EdgeName(e));
    r := ReportIf(r, p.value.kind.Value() != e.edgeType.Value() || q.value.kind.Value() != e.edgeType.Value(),
                  PortKindWrong, EdgeName(e));
    r := ReportIf(r, p.value.schema != q.value.schema, SchemaMismatch, EdgeName(e));
  }

  method CheckEdgeGovernance(s: Unit, t: Unit, e: Edge, errors: seq<ValidationError>) returns (r: seq<ValidationError>)
    ensures forall x :: Reports(r, x) <==>
              Reports(errors, x) || (About(x, EdgeName(e)) && GovernanceFault(s, t, e, x.code))
  {
    var from, to := s.contract.security, t.contract.security;
    var here, there := s.contract.placement, t.contract.placement;
    hide LocalityFault;
    hide Conflict;
    hide Reports;
    hide About;
    var tenantsDiffer := from.tenantId.Some? && to.tenantId.Some? && from.tenantId != to.tenantId;
    r := ReportIf(errors, tenantsDiffer, TenantMismatch, EdgeName(e));
    r := ReportIf(r, e.edgeType in {DataEdge, StateEdge, ResourceEdge}
                     && from.outputClassification.Rank() > to.maximumInputClassification.Rank(),
                  ClassificationDowngrade, EdgeName(e));
    r := ReportIf(r, Conflict(from.allowedResidencies, to.allowedResidencies), ResidencyConflict, EdgeName(e));
    r := ReportIf(r, from.trustZone != "" && to.acceptedTrustZones != {} && from.trustZone !in to.acceptedTrustZones,
                  TrustZoneDenied, EdgeName(e));
    if there.requiresLocalInputs { r := CheckLocality(here, there, e, r); }
  }

  method CheckLocality(here: PlacementContract, there: PlacementContract, e: Edge, errors: seq<ValidationError>)
    returns (r: seq<ValidationError>)
    ensures forall x :: Reports(r, x) <==>
              Reports(errors, x) || (About(x, EdgeName(e)) && LocalityFault(here, there) && x.code == LocalityConflict)
  {
    hide Reports;
    hide About;
    hide Conflict;
    r := ReportIf(errors, Conflict(here.allowedRegions, there.allowedRegions), LocalityConflict, EdgeName(e));
    r := ReportIf(r, Conflict(here.allowedDevices, there.allowedDevices), LocalityConflict, EdgeName(e));
    r := ReportIf(r, Conflict(here.allowedRuntimes, there.allowedRuntimes), LocalityConflict, EdgeName(e));
  }

  type EdgeIdentity = (string, Option<string>, string, Option<string>, EdgeType)

  function Identity(e: Edge): EdgeIdentity {
    (e.source, e.sourcePort, e.target, e.targetPort, e.edgeType)
  }

  method CheckEdge(units: Units, e: Edge, repeated: bool, errors: seq<ValidationError>)
    returns (r: seq<ValidationError>)
    ensures forall x :: Reports(r, x) <==>
              Reports(errors, x) || (About(x, Blamed(e, x.code)) && OneEdgeFault(units, e, repeated, x.code))
  {
    hide Reports;
    hide ContractFault;
    hide GovernanceFault;
    r := ReportIf(errors, repeated, EdgeDuplicate, EdgeName(e));
    r := ReportIf(r, e.source !in units, EdgeSourceMissing, e.source);
    r := ReportIf(r, e.target !in units, EdgeTargetMissing, e.target);
    if e.source in units && e.target in units {
      var s, t := units[e.source], units[e.target];
      FaultCodes(s, t, e, EdgeDuplicate);
      FaultCodes(s, t, e, EdgeSourceMissing);
      FaultCodes(s, t, e, EdgeTargetMissing);
      r := CheckEdgeContract(s, t, e, r);
      r := CheckEdgeGovernance(s, t, e, r);
    }
  }

  method CheckEdges(graph: SG.StructuralGraph, errors: seq<ValidationError>) returns (r: seq<ValidationError>)
    requires graph.Valid()
    ensures forall x :: Reports(r, x) <==>
              Reports(errors, x)
              || (About(x, x.targetId) && exists i :: EdgeFault(graph.units, graph.edges, i, x.code, x.targetId))
  {
    hide Reports;
    hide OneEdgeFault;
    r := errors;
    var seenEdges: set<EdgeIdentity> := {};
    for i := 0 to |graph.edges|
      invariant forall x :: x in seenEdges <==> exists j | 0 <= j < i :: Identity(graph.edges[j]) == x
      invariant forall x :: Reports(r, x) <==>
                  Reports(errors, x)
                  || (x.tier == InvariantTier
                      && exists k | 0 <= k < i :: EdgeFault(graph.units, graph.edges, k, x.code, x.targetId))
    {
      var e := graph.edges[i];
      var repeated := Identity(e) in seenEdges;
      assert repeated == Repeats(graph.edges, i) by {
        assert forall f :: SameIdentity(f, e) <==> Identity(f) == Identity(e);
      }
      ghost var before := r;
      r := CheckEdge(graph.units, e, repeated, r);
      assert forall x :: Reports(r, x) <==>
          Reports(before, x)
          || (x.tier == InvariantTier && EdgeFault(graph.units, graph.edges, i, x.code, x.targetId));
      seenEdges := seenEdges + {Identity(e)};
    }
  }

  function Count(counts: map<(string, string), nat>, uid: string, portId: string): nat {
    if (uid, portId) in counts then counts[(uid, portId)] else 0
  }

  method Increment(counts: map<(string, string), nat>, uid: string, port: Option<string>)
    returns (r: map<(string, string), nat>)
    ensures forall u, p :: Count(r, u, p) == Count(counts, u, p) + (if u == uid && port == Some(p) then 1 else 0)
  {
    r := counts;
    if port.Some? {
      r := r[(uid, port.value) := Count(r, uid, port.value) + 1];
    }
  }

  lemma DegreeStep(edges: seq<Edge>, i: nat, uid: string, portId: string)
    requires i < |edges|
    ensures Degree(edges[..i + 1], uid, portId)
            == Degree(edges[..i], uid, portId)
               + (if edges[i].source == uid && edges[i].sourcePort == Some(portId) then 1 else 0)
               + (if edges[i].target == uid && edges[i].targetPort == Some(portId) then 1 else 0)
  {
    LeavingStep(edges, i, uid, portId);
    EnteringStep(edges, i, uid, portId);
  }

  ghost function Places(edges: seq<Edge>, f: Edge -> bool): set<int> { set i | 0 <= i < |edges| && f(edges[i]) }

  lemma PlacesStep(edges: seq<Edge>, i: nat, f: Edge -> bool)
    requires i < |edges|
    ensures |Places(edges[..i + 1], f)| == |Places(edges[..i], f)| + (if f(edges[i]) then 1 else 0)
  {
    var a, b := Places(edges[..i], f), Places(edges[..i + 1], f);
    assert i !in a;
    assert b == if f(edges[i]) then a + {i} else a;
  }

  lemma LeavingStep(edges: seq<Edge>, i: nat, uid: string, portId: string)
    requires i < |edges|
    ensures |Leaving(edges[..i + 1], uid, portId)|
            == |Leaving(edges[..i], uid, portId)|
               + (if edges[i].source == uid && edges[i].sourcePort == Some(portId) then 1 else 0)
  {
    var leaves := (e: Edge) => e.source == uid && e.sourcePort == Some(portId);
    assert Leaving(edges[..i], uid, portId) == Places(edges[..i], leaves);
    assert Leaving(edges[..i + 1], uid, portId) == Places(edges[..i + 1], leaves);
    PlacesStep(edges, i, leaves);
  }

  lemma EnteringStep(edges: seq<Edge>, i: nat, uid: string, portId: string)
    requires i < |edges|
    ensures |Entering(edges[..i + 1], uid, portId)|
            == |Entering(edges[..i], uid, portId)|
               + (if edges[i].target == uid && edges[i].targetPort == Some(portId) then 1 else 0)
  {
    var enters := (e: Edge) => e.target == uid && e.targetPort == Some(portId);
    assert Entering(edges[..i], uid, portId) == Places(edges[..i], enters);
    assert Entering(edges[..i + 1], uid, portId) == Places(edges[..i + 1], enters);
    PlacesStep(edges, i, enters);
  }

  method ConnectionCounts(edges: seq<Edge>) returns (counts: map<(string, string), nat>)
    ensures forall u, p :: Count(counts, u, p) == Degree(edges, u, p)
  {
    counts := map[];
    for i := 0 to |edges|
      invariant forall u, p :: Count(counts, u, p) == Degree(edges[..i], u, p)
    {
      ghost var before := counts;
      counts := Increment(counts, edges[i].source, edges[i].sourcePort);
      counts := Increment(counts, edges[i].target, edges[i].targetPort);
      forall u, p ensures Count(counts, u, p) == Degree(edges[..i + 1], u, p) {
        DegreeStep(edges, i, u, p);
      }
    }
    assert edges[..|edges|] == edges;
  }

  method CheckCardinalities(graph: SG.StructuralGraph, errors: seq<ValidationError>) returns (r: seq<ValidationError>)
    requires graph.Valid()
    ensures forall e :: Reports(r, e) <==>
              Reports(errors, e)
              || (e.code == PortCardinalityWrong && About(e, e.targetId) && e.targetId in graph.units
                  && CardinalityFault(graph.units[e.targetId], e.targetId, graph.edges))
  {
    var counts := ConnectionCounts(graph.edges);
    hide Degree;
    hide Reports;
    r := errors;
    for i := 0 to |graph.unitIds|
      invariant forall e :: Reports(r, e) <==>
                  Reports(errors, e)
                  || (e.code == PortCardinalityWrong && exists k | 0 <= k < i ::
                        About(e, graph.unitIds[k])
                        && CardinalityFault(graph.units[graph.unitIds[k]], graph.unitIds[k], graph.edges))
    {
      var uid := graph.unitIds[i];
      var ports := graph.units[uid].contract.ports;
      ghost var before := r;
      for j := 0 to |ports|
        invariant forall e :: Reports(r, e) <==>
                    Reports(before, e)
                    || (e.code == PortCardinalityWrong && About(e, uid) && exists k | 0 <= k < j ::
                          OutOfBounds(ports[k], Degree(graph.edges, uid, ports[k].portId)))
      {
        var port := ports[j];
        var count := Count(counts, uid, port.portId);
        r := ReportIf(r, count < port.cardinality.Minimum()
                         || (port.cardinality.Maximum().Some? && count > port.cardinality.Maximum().value),
                      PortCardinalityWrong, uid);
      }
      assert CardinalityFault(graph.units[uid], uid, graph.edges) <==>
        exists k | 0 <= k < |ports| :: OutOfBounds(ports[k], Degree(graph.edges, uid, ports[k].portId));
    }
    assert forall id :: id in graph.units <==> id in graph.unitIds;
  }

  /** The warning about an empty constraint of a unit. */
  predicate WarnsOf(w: ValidationError, uid: string) {
    w.tier == ConstraintTier && w.code == ConstraintEmpty && w.targetId == uid
  }

  method CheckConstraints(graph: SG.StructuralGraph, errors: seq<ValidationError>)
    returns (r: seq<ValidationError>, warnings: seq<ValidationError>)
    requires graph.Valid()
    ensures forall e :: Reports(r, e) <==>
              Reports(errors, e)
              || (e.code == ConstraintEmpty && About(e, e.targetId) && e.targetId in graph.units
                  && EmptyConstraint(graph.units[e.targetId], InvariantTier))
    ensures forall w :: Reports(warnings, w) <==>
              && WarnsOf(w, w.targetId) && w.targetId in graph.units
              && EmptyConstraint(graph.units[w.targetId], ConstraintTier)
  {
    r, warnings := errors, [];
    for i := 0 to |graph.unitIds|
      invariant forall e :: Reports(r, e) <==>
                  Reports(errors, e)
                  || (e.code == ConstraintEmpty && exists k | 0 <= k < i ::
                      About(e, graph.unitIds[k]) && EmptyConstraint(graph.units[graph.unitIds[k]], InvariantTier))
      invariant forall w :: Reports(warnings, w) <==>
                  exists k | 0 <= k < i ::
                    WarnsOf(w, graph.unitIds[k]) && EmptyConstraint(graph.units[graph.unitIds[k]], ConstraintTier)
    {
      hide Reports;
      hide EmptyConstraint;
      r, warnings := CheckUnitConstraints(graph.unitIds[i], graph.units[graph.unitIds[i]], r, warnings);
    }
    assert forall id :: id in graph.units <==> id in graph.unitIds;
  }

  method CheckUnitConstraints(uid: string, u: Unit, errors: seq<ValidationError>, warned: seq<ValidationError>)
    returns (r: seq<ValidationError>, warnings: seq<ValidationError>)
    ensures forall e :: Reports(r, e) <==>
              Reports(errors, e) || (e.code == ConstraintEmpty && About(e, uid) && EmptyConstraint(u, InvariantTier))
    ensures forall w :: Reports(warnings, w) <==>
              Reports(warned, w) || (WarnsOf(w, uid) && EmptyConstraint(u, ConstraintTier))
  {
    r, warnings := errors, warned;
    for j := 0 to |u.constraints|
      invariant forall e :: Reports(r, e) <==>
                  Reports(errors, e)
                  || (e.code == ConstraintEmpty && About(e, uid) && exists k | 0 <= k < j ::
                        u.constraints[k].tier == InvariantTier && !Truthy(u.constraints[k].expression))
      invariant forall w :: Reports(warnings, w) <==>
                  Reports(warned, w)
                  || (WarnsOf(w, uid) && exists k | 0 <= k < j ::
                        u.constraints[k].tier == ConstraintTier && !Truthy(u.constraints[k].expression))
    {
      var k := u.constraints[j];
      if k.tier == InvariantTier {
        r := ReportIf(r, !Truthy(k.expression), ConstraintEmpty, uid);
      } else if k.tier == ConstraintTier {
        if !Truthy(k.expression) { warnings := warnings + [ValidationError(ConstraintTier, ConstraintEmpty, uid)]; }
      }
    }
    assert forall tier :: EmptyConstraint(u, tier) <==>
      exists k | 0 <= k < |u.constraints| :: u.constraints[k].tier == tier && !Truthy(u.constraints[k].expression);
  }

  lemma VerdictFromErrors(units: Units, edges: seq<Edge>, errors: seq<ValidationError>)
    requires forall e :: Reports(errors, e) <==> About(e, e.targetId) && Violated(units, edges, e.code, e.targetId)
    ensures errors == [] <==> forall c, x :: !Violated(units, edges, c, x)
  {
    hide Violated;
    if errors != [] { assert Reports(errors, errors[0]); }
    forall c, x | Violated(units, edges, c, x) ensures errors != [] {
      assert Reports(errors, ValidationError(InvariantTier, c, x));
    }
  }

  /** Every broken rule is reported under its own code where it is broken, nothing else is, and
      the verdict is well-formedness. */
  method ValidateGraph(graph: SG.StructuralGraph) returns (r: ValidationResult)
    requires graph.Valid()
    ensures forall e :: e in r.errors <==>
              e.tier == InvariantTier && Violated(graph.units, graph.edges, e.code, e.targetId)
    ensures r.isValid <==> WellFormed(graph.units, graph.edges)
    ensures r.isValid <==> r.errors == []
    ensures forall w :: w in r.warnings <==>
              && w.tier == ConstraintTier && w.code == ConstraintEmpty && w.targetId in graph.units
              && EmptyConstraint(graph.units[w.targetId], ConstraintTier)
  {
    var errors := CheckUnits(graph, []);
    errors := CheckEdges(graph, errors);
    errors := CheckCardinalities(graph, errors);
    var warnings;
    errors, warnings := CheckConstraints(graph, errors);
    WellFormedIffNothingViolated(graph.units, graph.edges);
    hide WellFormed;
    hide UnitFault;
    hide EdgeFault;
    hide CardinalityFault;
    hide EmptyConstraint;
    assert forall e :: Reports(errors, e) <==>
        About(e, e.targetId) && Violated(graph.units, graph.edges, e.code, e.targetId);
    hide Violated;
    VerdictFromErrors(graph.units, graph.edges, errors);
    r := ValidationResult(|errors| == 0, errors, warnings);
  }
}
