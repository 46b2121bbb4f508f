/** The acceptance predicate for serialized graph documents. */
module Schema {
  import opened Wrappers
  import opened Json
  import opened Ir
  import opened Enums

  const SCHEMA_TEXT := "dnc.ir.structural_graph"
  const COMPATIBILITY_TEXT := "2026.07.phase1"
  const LATEST_VERSION := "1.3.0"

  datatype DocumentError = InvalidDocument

  type Parsed<+T> = Result<T, DocumentError>

  type Fields = map<Name, Json>

  /** Legacy documents carry no header at all. */
  datatype Header = Legacy | V110 | V120 | V130

  function ReadHeader(o: Fields): Parsed<Header> {
    if SCHEMA_ID !in o && SCHEMA_VERSION !in o && COMPATIBILITY_VERSION !in o then Ok(Legacy)
    else if SCHEMA_ID !in o || SCHEMA_VERSION !in o || COMPATIBILITY_VERSION !in o then Err(InvalidDocument)
    else if o[SCHEMA_ID] != Str(SCHEMA_TEXT) || o[COMPATIBILITY_VERSION] != Str(COMPATIBILITY_TEXT)
        then Err(InvalidDocument)
    else if o[SCHEMA_VERSION] == Str("1.1.0") then Ok(V110)
    else if o[SCHEMA_VERSION] == Str("1.2.0") then Ok(V120)
    else if o[SCHEMA_VERSION] == Str(LATEST_VERSION) then Ok(V130)
    else Err(InvalidDocument)
  }

  predicate HasString(o: Fields, n: Name) { n in o && o[n].Str? }
  predicate HasObject(o: Fields, n: Name) { n in o && o[n].Obj? }
  predicate HasArray(o: Fields, n: Name) { n in o && o[n].Arr? }
  predicate HasBool(o: Fields, n: Name) { n in o && o[n].Bool? }
  predicate HasNatural(o: Fields, n: Name) { n in o && o[n].Int? && o[n].i >= 0 }

  predicate NullableString(o: Fields, n: Name) {
    n in o && (o[n].Null? || (o[n].Str? && !Blank(o[n].s)))
  }

  /** An array of distinct strings none of which is blank. */
  predicate StringArray(o: Fields, n: Name) {
    && HasArray(o, n)
    && (forall x | x in o[n].items :: x.Str? && !Blank(x.s))
    && (forall i, j | 0 <= i < j < |o[n].items| :: o[n].items[i] != o[n].items[j])
  }

  predicate PortAcceptable(j: Json) {
    && j.Obj?
    && var o := j.fields;
       && HasString(o, PORT_ID) && HasString(o, DIRECTION) && HasString(o, KIND)
       && HasString(o, CARDINALITY) && HasString(o, DESCRIPTION) && HasObject(o, SCHEMA)
       && ParsePortDirection(o[DIRECTION].s).Some?
       && ParsePortKind(o[KIND].s).Some?
       && ParsePortCardinality(o[CARDINALITY].s).Some?
  }

  predicate IdempotencyAcceptable(o: Fields) {
    && HasString(o, MODE) && ParseIdempotencyMode(o[MODE].s).Some?
    && HasString(o, SCOPE) && ParseIdempotencyScope(o[SCOPE].s).Some?
    && NullableString(o, KEY_FIELD)
    && HasBool(o, PAYLOAD_HASH_REQUIRED)
  }

  predicate EffectsAcceptable(o: Fields) {
    && HasString(o, CLASSIFICATION) && ParseSideEffectClass(o[CLASSIFICATION].s).Some?
    && StringArray(o, EFFECT_TYPES)
    && (forall x | x in o[EFFECT_TYPES].items :: ParseEffectType(x.s).Some?)
    && NullableString(o, COMPENSATION_ACTION)
    && HasString(o, MINIMUM_ISOLATION) && ParseIsolationGrade(o[MINIMUM_ISOLATION].s).Some?
  }

  predicate PlacementAcceptable(o: Fields) {
    && StringArray(o, ALLOWED_REGIONS) && StringArray(o, ALLOWED_DEVICES)
    && StringArray(o, ALLOWED_RUNTIMES) && StringArray(o, REQUIRED_CAPABILITIES)
    && StringArray(o, PREFERRED_REGIONS) && StringArray(o, PREFERRED_DEVICES)
    && HasBool(o, REQUIRES_LOCAL_INPUTS)
  }

  predicate SecurityAcceptable(o: Fields) {
    && NullableString(o, TENANT_ID)
    && StringArray(o, REQUIRED_PERMISSIONS) && StringArray(o, SECURITY_LABELS)
    && StringArray(o, ALLOWED_RESIDENCIES) && StringArray(o, ACCEPTED_TRUST_ZONES)
    && HasString(o, OUTPUT_CLASSIFICATION) && ParseDataClassification(o[OUTPUT_CLASSIFICATION].s).Some?
    && HasString(o, MAXIMUM_INPUT_CLASSIFICATION) && ParseDataClassification(o[MAXIMUM_INPUT_CLASSIFICATION].s).Some?
    && HasString(o, TRUST_ZONE)
    && HasBool(o, CONFIDENTIAL_COMPUTE_REQUIRED)
  }

  predicate GovernanceAcceptable(o: Fields) {
    && HasObject(o, IDEMPOTENCY) && IdempotencyAcceptable(o[IDEMPOTENCY].fields)
    && HasObject(o, SIDE_EFFECTS) && EffectsAcceptable(o[SIDE_EFFECTS].fields)
    && HasObject(o, PLACEMENT) && PlacementAcceptable(o[PLACEMENT].fields)
    && HasObject(o, SECURITY) && SecurityAcceptable(o[SECURITY].fields)
  }

  predicate UnitAcceptable(h: Header, key: Name, j: Json) {
    && key.Key? && j.Obj?
    && var o := j.fields;
       && HasString(o, UNIT_ID) && o[UNIT_ID].s == key.text
       && HasString(o, NAME) && HasString(o, STRUCTURE) && HasString(o, VISIBILITY) && HasString(o, LIFECYCLE)
       && (h == V120 || h == V130 ==>
             && HasObject(o, CONTRACT)
             && HasArray(o[CONTRACT].fields, PORTS)
             && forall p | p in o[CONTRACT].fields[PORTS].items :: PortAcceptable(p))
       && (h == V130 ==> GovernanceAcceptable(o[CONTRACT].fields))
  }

  predicate EdgeAcceptable(h: Header, j: Json) {
    && j.Obj?
    && var o := j.fields;
       && HasString(o, SOURCE) && HasString(o, TARGET) && HasString(o, EDGE_TYPE)
       && (h == V120 || h == V130 ==>
             && SOURCE_PORT in o && (o[SOURCE_PORT].Null? || o[SOURCE_PORT].Str?)
             && TARGET_PORT in o && (o[TARGET_PORT].Null? || o[TARGET_PORT].Str?))
  }

  predicate VersionAcceptable(o: Fields) {
    HasNatural(o, MAJOR) && HasNatural(o, MINOR) && HasNatural(o, PATCH) && HasNatural(o, SEQUENCE)
  }

  /** `validate_ir_document` raises nothing. */
  predicate Acceptable(document: Json) {
    && document.Obj?
    && var o := document.fields;
       var h := ReadHeader(o);
       && h.Ok?
       && HasString(o, GRAPH_ID) && o[GRAPH_ID].s != ""
       && (h.value != Legacy ==> VERSION in o && UNITS in o && EDGES in o && METADATA in o)
       && (VERSION in o ==> o[VERSION].Obj? && VersionAcceptable(o[VERSION].fields))
       && (UNITS in o ==> o[UNITS].Obj? && forall k | k in o[UNITS].fields ::
           UnitAcceptable(h.value, k, o[UNITS].fields[k]))
       && (EDGES in o ==> o[EDGES].Arr? && forall e | e in o[EDGES].items :: EdgeAcceptable(h.value, e))
       && (METADATA in o ==> o[METADATA].Obj?)
  }
}
