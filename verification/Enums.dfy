/** Reading enumeration members back from the text stored in documents. */
module Enums {
  import opened Wrappers
  import opened Ir

  function ParseStructureDimension(s: string): (r: Option<StructureDimension>)
    ensures r.Some? ==> r.value.Value() == s
  {
    if s == Primitive.Value() then Some(Primitive)
    else if s == Composite.Value() then Some(Composite)
    else None
  }

  lemma StructureDimensionReadBack(e: StructureDimension)
    ensures ParseStructureDimension(e.Value()) == Some(e)
  {
  }

  function ParseVisibilityDimension(s: string): (r: Option<VisibilityDimension>)
    ensures r.Some? ==> r.value.Value() == s
  {
    if s == OpaqueUnit.Value() then Some(OpaqueUnit)
    else if s == Inspectable.Value() then Some(Inspectable)
    else None
  }

  lemma VisibilityDimensionReadBack(e: VisibilityDimension)
    ensures ParseVisibilityDimension(e.Value()) == Some(e)
  {
  }

  function ParseLifecycleDimension(s: string): (r: Option<LifecycleDimension>)
    ensures r.Some? ==> r.value.Value() == s
  {
    if s == Base.Value() then Some(Base)
    else if s == Specialized.Value() then Some(Specialized)
    else None
  }

  lemma LifecycleDimensionReadBack(e: LifecycleDimension)
    ensures ParseLifecycleDimension(e.Value()) == Some(e)
  {
  }

  function ParseEnforcementTier(s: string): (r: Option<EnforcementTier>)
    ensures r.Some? ==> r.value.Value() == s
  {
    if s == InvariantTier.Value() then Some(InvariantTier)
    else if s == ConstraintTier.Value() then Some(ConstraintTier)
    else if s == PolicyTier.Value() then Some(PolicyTier)
    else None
  }

  lemma EnforcementTierReadBack(e: EnforcementTier)
    ensures ParseEnforcementTier(e.Value()) == Some(e)
  {
  }

  function ParseEdgeType(s: string): (r: Option<EdgeType>)
    ensures r.Some? ==> r.value.Value() == s
  {
    if s == DataEdge.Value() then Some(DataEdge)
    else if s == ControlEdge.Value() then Some(ControlEdge)
    else if s == StateEdge.Value() then Some(StateEdge)
    else if s == DependencyEdge.Value() then Some(DependencyEdge)
    else if s == ResourceEdge.Value() then Some(ResourceEdge)
    else None
  }

  lemma EdgeTypeReadBack(e: EdgeType)
    ensures ParseEdgeType(e.Value()) == Some(e)
  {
  }

  function ParsePortDirection(s: string): (r: Option<PortDirection>)
    ensures r.Some? ==> r.value.Value() == s
  {
    if s == Input.Value() then Some(Input)
    else if s == Output.Value() then Some(Output)
    else None
  }

  lemma PortDirectionReadBack(e: PortDirection)
    ensures ParsePortDirection(e.Value()) == Some(e)
  {
  }

  function ParsePortKind(s: string): (r: Option<PortKind>)
    ensures r.Some? ==> r.value.Value() == s
  {
    if s == DataPort.Value() then Some(DataPort)
    else if s == ControlPort.Value() then Some(ControlPort)
    else if s == StatePort.Value() then Some(StatePort)
    else if s == ResourcePort.Value() then Some(ResourcePort)
    else None
  }

  lemma PortKindReadBack(e: PortKind)
    ensures ParsePortKind(e.Value()) == Some(e)
  {
  }

  function ParsePortCardinality(s: string): (r: Option<PortCardinality>)
    ensures r.Some? ==> r.value.Value() == s
  {
    if s == ExactlyOne.Value() then Some(ExactlyOne)
    else if s == ZeroOrOne.Value() then Some(ZeroOrOne)
    else if s == OneOrMore.Value() then Some(OneOrMore)
    else if s == ZeroOrMore.Value() then Some(ZeroOrMore)
    else None
  }

  lemma PortCardinalityReadBack(e: PortCardinality)
    ensures ParsePortCardinality(e.Value()) == Some(e)
  {
  }

  function ParseIdempotencyMode(s: string): (r: Option<IdempotencyMode>)
    ensures r.Some? ==> r.value.Value() == s
  {
    if s == NoIdempotency.Value() then Some(NoIdempotency)
    else if s == Idempotent.Value() then Some(Idempotent)
    else if s == KeyRequired.Value() then Some(KeyRequired)
    else if s == AtMostOnce.Value() then Some(AtMostOnce)
    else None
  }

  lemma IdempotencyModeReadBack(e: IdempotencyMode)
    ensures ParseIdempotencyMode(e.Value()) == Some(e)
  {
  }

  function ParseIdempotencyScope(s: string): (r: Option<IdempotencyScope>)
    ensures r.Some? ==> r.value.Value() == s
  {
    if s == RequestScope.Value() then Some(RequestScope)
    else if s == TaskScope.Value() then Some(TaskScope)
    else if s == TenantScope.Value() then Some(TenantScope)
    else None
  }

  lemma IdempotencyScopeReadBack(e: IdempotencyScope)
    ensures ParseIdempotencyScope(e.Value()) == Some(e)
  {
  }

  function ParseSideEffectClass(s: string): (r: Option<SideEffectClass>)
    ensures r.Some? ==> r.value.Value() == s
  {
    if s == NoEffect.Value() then Some(NoEffect)
    else if s == Reversible.Value() then Some(Reversible)
    else if s == Compensatable.Value() then Some(Compensatable)
    else if s == Irreversible.Value() then Some(Irreversible)
    else None
  }

  lemma SideEffectClassReadBack(e: SideEffectClass)
    ensures ParseSideEffectClass(e.Value()) == Some(e)
  {
  }

  function ParseEffectType(s: string): (r: Option<EffectType>)
    ensures r.Some? ==> r.value.Value() == s
  {
    if s == ProviderCall.Value() then Some(ProviderCall)
    else if s == FileWrite.Value() then Some(FileWrite)
    else if s == DatabaseWrite.Value() then Some(DatabaseWrite)
    else if s == NetworkCall.Value() then Some(NetworkCall)
    else if s == CacheWrite.Value() then Some(CacheWrite)
    else if s == ProcessSpawn.Value() then Some(ProcessSpawn)
    else if s == Cleanup.Value() then Some(Cleanup)
    else None
  }

  lemma EffectTypeReadBack(e: EffectType)
    ensures ParseEffectType(e.Value()) == Some(e)
  {
  }

  function ParseIsolationGrade(s: string): (r: Option<IsolationGrade>)
    ensures r.Some? ==> r.value.Value() == s
  {
    if s == I0None.Value() then Some(I0None)
    else if s == I1GraphOnly.Value() then Some(I1GraphOnly)
    else if s == I2ProcessLocal.Value() then Some(I2ProcessLocal)
    else if s == I3RecordedExternals.Value() then Some(I3RecordedExternals)
    else if s == I4SandboxedEnvironment.Value() then Some(I4SandboxedEnvironment)
    else None
  }

  lemma IsolationGradeReadBack(e: IsolationGrade)
    ensures ParseIsolationGrade(e.Value()) == Some(e)
  {
  }

  function ParseDataClassification(s: string): (r: Option<DataClassification>)
    ensures r.Some? ==> r.value.Value() == s
  {
    if s == PublicData.Value() then Some(PublicData)
    else if s == InternalData.Value() then Some(InternalData)
    else if s == ConfidentialData.Value() then Some(ConfidentialData)
    else if s == RestrictedData.Value() then Some(RestrictedData)
    else None
  }

  lemma DataClassificationReadBack(e: DataClassification)
    ensures ParseDataClassification(e.Value()) == Some(e)
  {
  }
}
