/** JSON values and the entities of the intermediate representation: identifiers,
    enumerations, governance contracts, units, edges and graphs. */
module Json {
  /** Keys of JSON objects. The field names of the interchange format are the first
      constructors; `Key` is any other text, as in unit identifiers and free-form payloads. */
  datatype Name =
    | SCHEMA_ID | SCHEMA_VERSION | COMPATIBILITY_VERSION
    | GRAPH_ID | VERSION | UNITS | EDGES | METADATA
    | MAJOR | MINOR | PATCH | SEQUENCE
    | UNIT_ID | NAME | STRUCTURE | VISIBILITY | LIFECYCLE | CONTRACT
    | MUTATION_CONTRACT | CONSTRAINTS | SUB_UNITS
    | INPUT_SCHEMA | OUTPUT_SCHEMA | PRECONDITIONS | POSTCONDITIONS | RESOURCE_LIMITS
    | PORTS | IDEMPOTENCY | SIDE_EFFECTS | PLACEMENT | SECURITY
    | PORT_ID | DIRECTION | KIND | SCHEMA | CARDINALITY | DESCRIPTION
    | MODE | SCOPE | KEY_FIELD | PAYLOAD_HASH_REQUIRED
    | CLASSIFICATION | EFFECT_TYPES | COMPENSATION_ACTION | MINIMUM_ISOLATION
    | ALLOWED_REGIONS | ALLOWED_DEVICES | ALLOWED_RUNTIMES | REQUIRED_CAPABILITIES
    | PREFERRED_REGIONS | PREFERRED_DEVICES | REQUIRES_LOCAL_INPUTS
    | TENANT_ID | REQUIRED_PERMISSIONS | SECURITY_LABELS | OUTPUT_CLASSIFICATION
    | MAXIMUM_INPUT_CLASSIFICATION | ALLOWED_RESIDENCIES | TRUST_ZONE
    | ACCEPTED_TRUST_ZONES | CONFIDENTIAL_COMPUTE_REQUIRED
    | ALLOWED_MUTATIONS | MAX_CHILDREN | IS_IMMUTABLE
    | CONSTRAINT_ID | TIER | EXPRESSION
    | SOURCE | TARGET | EDGE_TYPE | SOURCE_PORT | TARGET_PORT
    | Key(text: string)

  datatype Json =
    | Null
    | Bool(b: bool)
    | Int(i: int)
    | Real(r: real)
    | Str(s: string)
    | Arr(items: seq<Json>)
    | Obj(fields: map<Name, Json>)

  /** Python truthiness. */
  predicate Truthy(j: Json) {
    match j
    case Null => false
    case Bool(b) => b
    case Int(i) => i != 0
    case Real(r) => r != 0.0
    case Str(s) => s != ""
    case Arr(items) => items != []
    case Obj(fields) => fields != map[]
  }
}

module Ir {
  import opened Wrappers
  import opened Json

  // ----- Text -----

  /** The characters that `str.strip` removes. */
  predicate IsSpace(c: char) {
    var n := c as int;
    || 0x09 <= n <= 0x0D || 0x1C <= n <= 0x20 || n == 0x85 || n == 0xA0 || n == 0x1680
    || 0x2000 <= n <= 0x200A || n == 0x2028 || n == 0x2029 || n == 0x202F || n == 0x205F || n == 0x3000
  }

  predicate Blank(s: string) { forall i | 0 <= i < |s| :: IsSpace(s[i]) }

  /** Non-empty and equal to its own `strip()`. */
  predicate Normalized(s: string) {
    s != "" && !IsSpace(s[0]) && !IsSpace(s[|s| - 1])
  }

  predicate NoBlanks(s: set<string>) { forall x | x in s :: !Blank(x) }

  // ----- Enumerations; `Value` is the text stored in documents -----

  datatype EdgeType = DataEdge | ControlEdge | StateEdge | DependencyEdge | ResourceEdge {
    function Value(): string {
      match this
      case DataEdge => "DATA"
      case ControlEdge => "CONTROL"
      case StateEdge => "STATE"
      case DependencyEdge => "DEPENDENCY"
      case ResourceEdge => "RESOURCE"
    }
  }

  datatype StructureDimension = Primitive | Composite {
    function Value(): string { if this == Primitive then "PRIMITIVE" else "COMPOSITE" }
  }

  datatype VisibilityDimension = OpaqueUnit | Inspectable {
    function Value(): string { if this == OpaqueUnit then "OPAQUE" else "INSPECTABLE" }
  }

  datatype LifecycleDimension = Base | Specialized {
    function Value(): string { if this == Base then "BASE" else "SPECIALIZED" }
  }

  datatype EnforcementTier = InvariantTier | ConstraintTier | PolicyTier {
    function Value(): string {
      match this
      case InvariantTier => "INVARIANT"
      case ConstraintTier => "CONSTRAINT"
      case PolicyTier => "POLICY"
    }
  }

  datatype PortDirection = Input | Output {
    function Value(): string { if this == Input then "INPUT" else "OUTPUT" }
  }

  datatype PortKind = DataPort | ControlPort | StatePort | ResourcePort {
    function Value(): string {
      match this
      case DataPort => "DATA"
      case ControlPort => "CONTROL"
      case StatePort => "STATE"
      case ResourcePort => "RESOURCE"
    }
  }

  datatype PortCardinality = ExactlyOne | ZeroOrOne | OneOrMore | ZeroOrMore {
    function Value(): string {
      match this
      case ExactlyOne => "EXACTLY_ONE"
      case ZeroOrOne => "ZERO_OR_ONE"
      case OneOrMore => "ONE_OR_MORE"
      case ZeroOrMore => "ZERO_OR_MORE"
    }

    function Minimum(): nat { if this == ExactlyOne || this == OneOrMore then 1 else 0 }

    function Maximum(): Option<nat> { if this == ExactlyOne || this == ZeroOrOne then Some(1) else None }
  }

  datatype IdempotencyMode = NoIdempotency | Idempotent | KeyRequired | AtMostOnce {
    function Value(): string {
      match this
      case NoIdempotency => "NONE"
      case Idempotent => "IDEMPOTENT"
      case KeyRequired => "KEY_REQUIRED"
      case AtMostOnce => "AT_MOST_ONCE"
    }
  }

  datatype IdempotencyScope = RequestScope | TaskScope | TenantScope {
    function Value(): string {
      match this
      case RequestScope => "REQUEST"
      case TaskScope => "TASK"
      case TenantScope => "TENANT"
    }
  }

  datatype SideEffectClass = NoEffect | Reversible | Compensatable | Irreversible {
    function Value(): string {
      match this
      case NoEffect => "NONE"
      case Reversible => "REVERSIBLE"
      case Compensatable => "COMPENSATABLE"
      case Irreversible => "IRREVERSIBLE"
    }
  }

  datatype EffectType = ProviderCall | FileWrite | DatabaseWrite | NetworkCall | CacheWrite | ProcessSpawn | Cleanup {
    function Value(): string {
      match this
      case ProviderCall => "PROVIDER_CALL"
      case FileWrite => "FILE_WRITE"
      case DatabaseWrite => "DATABASE_WRITE"
      case NetworkCall => "NETWORK_CALL"
      case CacheWrite => "CACHE_WRITE"
      case ProcessSpawn => "PROCESS_SPAWN"
      case Cleanup => "CLEANUP"
    }
  }

  datatype IsolationGrade = I0None | I1GraphOnly | I2ProcessLocal | I3RecordedExternals | I4SandboxedEnvironment {
    function Value(): string {
      match this
      case I0None => "I0_NONE"
      case I1GraphOnly => "I1_GRAPH_ONLY"
      case I2ProcessLocal => "I2_PROCESS_LOCAL"
      case I3RecordedExternals => "I3_RECORDED_EXTERNALS"
      case I4SandboxedEnvironment => "I4_SANDBOXED_ENVIRONMENT"
    }

    function Rank(): nat {
      match this
      case I0None => 0
      case I1GraphOnly => 1
      case I2ProcessLocal => 2
      case I3RecordedExternals => 3
      case I4SandboxedEnvironment => 4
    }
  }

  datatype DataClassification = PublicData | InternalData | ConfidentialData | RestrictedData {
    function Value(): string {
      match this
      case PublicData => "PUBLIC"
      case InternalData => "INTERNAL"
      case ConfidentialData => "CONFIDENTIAL"
      case RestrictedData => "RESTRICTED"
    }

    function Rank(): nat {
      match this
      case PublicData => 0
      case InternalData => 1
      case ConfidentialData => 2
      case RestrictedData => 3
    }
  }

  // ----- Contracts; `Valid` is what their checking constructors admit -----

  datatype PortContract = PortContract(
    portId: string,
    direction: PortDirection,
    kind: PortKind,
    schema: Json,
    cardinality: PortCardinality,
    description: string)
  {
    predicate Valid() {
      && schema.Obj?
      && Normalized(portId)
      && (kind != ControlPort ==> schema.fields != map[])
    }
  }

  datatype IdempotencyContract = IdempotencyContract(
    mode: IdempotencyMode,
    scope: IdempotencyScope,
    keyField: Option<string>,
    payloadHashRequired: bool)
  {
    predicate Valid() {
      && (mode == KeyRequired ==> keyField.Some?)
      && (mode == NoIdempotency ==> keyField.None?)
      && (keyField.Some? ==> !Blank(keyField.value))
    }
  }

  datatype SideEffectContract = SideEffectContract(
    classification: SideEffectClass,
    effectTypes: set<EffectType>,
    compensationAction: Option<string>,
    minimumIsolation: IsolationGrade)
  {
    predicate Valid() {
      && (compensationAction.Some? ==> !Blank(compensationAction.value))
      && match classification
         case NoEffect => effectTypes == {} && compensationAction.None? && minimumIsolation == I0None
         case Irreversible =>
           effectTypes != {} && compensationAction.None?
           && minimumIsolation.Rank() >= I3RecordedExternals.Rank()
         case _ =>
           effectTypes != {} && compensationAction.Some?
           && minimumIsolation.Rank() >= I2ProcessLocal.Rank()
    }
  }

  datatype PlacementContract = PlacementContract(
    allowedRegions: set<string>,
    allowedDevices: set<string>,
    allowedRuntimes: set<string>,
    requiredCapabilities: set<string>,
    preferredRegions: seq<string>,
    preferredDevices: seq<string>,
    requiresLocalInputs: bool)
  {
    predicate Valid() {
      && NoBlanks(allowedRegions) && NoBlanks(allowedDevices)
      && NoBlanks(allowedRuntimes) && NoBlanks(requiredCapabilities)
      && Preferences(preferredRegions, allowedRegions)
      && Preferences(preferredDevices, allowedDevices)
    }
  }

  /** Preferences are distinct, not blank, and allowed when anything is restricted. */
  predicate Preferences(preferred: seq<string>, allowed: set<string>) {
    && Distinct(preferred)
    && (forall x | x in preferred :: !Blank(x))
    && (allowed != {} ==> forall x | x in preferred :: x in allowed)
  }

  predicate Distinct(s: seq<string>) {
    forall i, j | 0 <= i < j < |s| :: s[i] != s[j]
  }

  datatype SecurityContract = SecurityContract(
    tenantId: Option<string>,
    requiredPermissions: set<string>,
    securityLabels: set<string>,
    outputClassification: DataClassification,
    maximumInputClassification: DataClassification,
    allowedResidencies: set<string>,
    trustZone: string,
    acceptedTrustZones: set<string>,
    confidentialComputeRequired: bool)
  {
    predicate Valid() {
      && (tenantId.Some? ==> !Blank(tenantId.value))
      && NoBlanks(requiredPermissions) && NoBlanks(securityLabels)
      && NoBlanks(allowedResidencies) && NoBlanks(acceptedTrustZones)
    }
  }

  // ----- Units, edges, graphs -----

  /** Schemas, conditions and limits are unchecked payloads. */
  datatype UnitContract = UnitContract(
    inputSchema: Json,
    outputSchema: Json,
    preconditions: Json,
    postconditions: Json,
    resourceLimits: Json,
    ports: seq<PortContract>,
    idempotency: IdempotencyContract,
    sideEffects: SideEffectContract,
    placement: PlacementContract,
    security: SecurityContract)
  {
    predicate Valid() {
      && (forall p | p in ports :: p.Valid())
      && idempotency.Valid() && sideEffects.Valid() && placement.Valid() && security.Valid()
    }

    /** The first port with the given identifier. */
    function Port(portId: string): Option<PortContract> { FirstPort(ports, portId) }

    predicate UniquePorts() {
      forall i, j | 0 <= i < j < |ports| :: ports[i].portId != ports[j].portId
    }
  }

  function FirstPort(ports: seq<PortContract>, portId: string): Option<PortContract> {
    if ports == [] then None
    else if ports[0].portId == portId then Some(ports[0])
    else FirstPort(ports[1..], portId)
  }

  datatype MutationContract = MutationContract(allowedMutations: set<string>, maxChildren: Json, isImmutable: Json)

  datatype Constraint = Constraint(constraintId: Json, tier: EnforcementTier, expression: Json, description: Json)

  datatype Unit = Unit(
    unitId: string,
    name: string,
    structure: StructureDimension,
    visibility: VisibilityDimension,
    lifecycle: LifecycleDimension,
    contract: UnitContract,
    mutationContract: MutationContract,
    constraints: seq<Constraint>,
    metadata: Json,
    subUnits: seq<string>)
  {
    predicate Valid() {
      Normalized(unitId) && contract.Valid() && forall s | s in subUnits :: Normalized(s)
    }
  }

  datatype Edge = Edge(
    source: string,
    target: string,
    edgeType: EdgeType,
    metadata: Json,
    sourcePort: Option<string>,
    targetPort: Option<string>)
  {
    predicate Valid() { Normalized(source) && Normalized(target) }
  }

  datatype GraphVersion = GraphVersion(major: nat, minor: nat, patch: nat, sequence: nat)

  /** A graph up to the insertion order of its units, as graph equality sees it. */
  datatype Graph = Graph(
    graphId: string,
    version: GraphVersion,
    units: map<string, Unit>,
    edges: seq<Edge>,
    metadata: Json)
  {
    ghost predicate Valid() {
      && Normalized(graphId)
      && metadata.Obj?
      && (forall id | id in units :: units[id].unitId == id && units[id].Valid())
      && (forall e | e in edges :: e.Valid())
    }
  }
}
