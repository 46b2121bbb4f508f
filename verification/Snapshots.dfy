/** Snapshot capture, replay admission and restore. Hashes are parameters. */
module Snapshots {
  import opened Wrappers
  import opened Json
  import opened Ir
  import Documents
  import Effects
  import RoundTrips
  import Sorting
  import Text

  datatype Grade = R0None | R1ManifestOnly | R2DeterministicCore | R3RecordedExternals | R4EnvironmentReplay {
    function Rank(): nat {
      match this
      case R0None => 0
      case R1ManifestOnly => 1
      case R2DeterministicCore => 2
      case R3RecordedExternals => 3
      case R4EnvironmentReplay => 4
    }
  }

  datatype SchemaVersion = Schema010 | Schema020

  datatype Recording = Recording(
    recordingId: string, providerId: string, requestHash: string, response: Json, metadata: Json)

  /** The text hash of a printed graph, and the canonical hashes of the other evidence. */
  datatype Hasher = Hasher(
    graph: Json -> string,
    state: Json -> string,
    recordings: seq<Recording> -> string,
    effects: seq<Effects.Entry> -> string)
  {
    ghost predicate NeverEmpty() { forall d :: graph(d) != "" }
  }

  datatype Manifest = Manifest(
    snapshotId: string, sourceStateId: string, schemaVersion: SchemaVersion,
    grade: Grade, isolation: IsolationGrade,
    graphHash: Option<string>, runtimeStateHash: Option<string>,
    recordingIds: seq<string>, recordingsHash: Option<string>,
    effectIds: seq<string>, effectsHash: Option<string>,
    capturedState: seq<string>, uncapturedState: seq<string>, cleanupRequired: bool)

  datatype Snapshot = Snapshot(
    manifest: Manifest, graph: Option<Graph>, runtimeState: Option<Json>,
    recordings: seq<Recording>, effects: seq<Effects.Entry>)

  datatype SnapshotError = EmptyIdentity | NoGraph | GraphHashDiffers | RuntimeHashDiffers | NotAdmitted

  // ----- Admission -----

  datatype Reason =
    | RequestExceedsDeclaredGrade
    | ManifestIdentityMissing
    | DeterministicGraphEvidenceMissing | GraphHashMismatch | GraphNotDeclaredCaptured | RuntimeStateHashMismatch
    | LegacyManifest | RecordingEvidenceMismatch | EffectEvidenceMismatch | RecordingHashMismatch | EffectHashMismatch
    | ProviderResponsesNotCaptured | EffectLedgerNotCaptured | ProviderResponsesDeclaredUncaptured
    | ExternalStateDeclaredUncaptured | IsolationBelowRecordedExternals
    | EnvironmentStateUncaptured | EnvironmentNotCaptured | EnvironmentNotSandboxed
  {
    /** The lowest grade for which the evidence matters. */
    function From(): nat {
      match this
      case RequestExceedsDeclaredGrade => 0
      case ManifestIdentityMissing => 1
      case DeterministicGraphEvidenceMissing => 2
      case GraphHashMismatch => 2
      case GraphNotDeclaredCaptured => 2
      case RuntimeStateHashMismatch => 2
      case EnvironmentStateUncaptured => 4
      case EnvironmentNotCaptured => 4
      case EnvironmentNotSandboxed => 4
      case _ => 3
    }
  }

  function SortedIds(ids: seq<string>): seq<string> { Sorting.Sort(ids, Text.StringLeq) }

  function RecordingIds(rs: seq<Recording>): seq<string> {
    seq(|rs|, i requires 0 <= i < |rs| => rs[i].recordingId)
  }

  function EffectIds(es: seq<Effects.Entry>): seq<string> {
    seq(|es|, i requires 0 <= i < |es| => es[i].effectId)
  }

  function StateHash(h: Hasher, state: Option<Json>): Option<string> {
    if state.None? then None else Some(h.state(state.value))
  }

  predicate GraphEvidence(s: Snapshot) {
    s.graph.Some? && s.manifest.graphHash.Some? && s.manifest.graphHash.value != ""
  }

  function GraphHash(h: Hasher, g: Graph): string { h.graph(Documents.GraphDocument(g)) }

  const EXTERNAL_KINDS: set<string> := {"filesystem", "database", "network", "object_store", "queue"}

  /** The evidence a reason complains about is missing or wrong. */
  predicate Violated(h: Hasher, s: Snapshot, reason: Reason) {
    var m := s.manifest;
    match reason
    case RequestExceedsDeclaredGrade => false
    case ManifestIdentityMissing => m.snapshotId == "" || m.sourceStateId == ""
    case DeterministicGraphEvidenceMissing => !GraphEvidence(s)
    case GraphHashMismatch => GraphEvidence(s) && GraphHash(h, s.graph.value) != m.graphHash.value
    case GraphNotDeclaredCaptured => "graph" !in m.capturedState
    case RuntimeStateHashMismatch => StateHash(h, s.runtimeState) != m.runtimeStateHash
    case LegacyManifest => m.schemaVersion != Schema020
    case RecordingEvidenceMismatch => SortedIds(RecordingIds(s.recordings)) != SortedIds(m.recordingIds)
    case EffectEvidenceMismatch => SortedIds(EffectIds(s.effects)) != SortedIds(m.effectIds)
    case RecordingHashMismatch => m.recordingsHash != Some(h.recordings(s.recordings))
    case EffectHashMismatch => m.effectsHash != Some(h.effects(s.effects))
    case ProviderResponsesNotCaptured => "provider_responses" !in m.capturedState
    case EffectLedgerNotCaptured => "effect_ledger" !in m.capturedState
    case ProviderResponsesDeclaredUncaptured => "provider_responses" in m.uncapturedState
    case ExternalStateDeclaredUncaptured => exists k | k in m.uncapturedState :: k in EXTERNAL_KINDS
    case IsolationBelowRecordedExternals => m.isolation.Rank() < I3RecordedExternals.Rank()
    case EnvironmentStateUncaptured => m.uncapturedState != []
    case EnvironmentNotCaptured => "environment" !in m.capturedState
    case EnvironmentNotSandboxed => m.isolation != I4SandboxedEnvironment
  }

  /** A reason stands against a request when it exceeds the declared grade, or when evidence
      that matters for the grade is violated. */
  predicate StandsAgainst(h: Hasher, s: Snapshot, requested: Grade, reason: Reason) {
    if reason == RequestExceedsDeclaredGrade then requested.Rank() > s.manifest.grade.Rank()
    else requested.Rank() >= reason.From() && Violated(h, s, reason)
  }

  ghost predicate Admissible(h: Hasher, s: Snapshot, requested: Grade) {
    forall reason :: !StandsAgainst(h, s, requested, reason)
  }

  function Noted(h: Hasher, s: Snapshot, candidates: seq<Reason>): (r: seq<Reason>)
    ensures forall c :: c in r <==> c in candidates && Violated(h, s, c)
  {
    if candidates == [] then []
    else (if Violated(h, s, candidates[0]) then [candidates[0]] else []) + Noted(h, s, candidates[1..])
  }

  const CORE_REASONS :=
    [DeterministicGraphEvidenceMissing, GraphHashMismatch, GraphNotDeclaredCaptured, RuntimeStateHashMismatch]

  const EXTERNAL_REASONS :=
    [LegacyManifest, RecordingEvidenceMismatch, EffectEvidenceMismatch, RecordingHashMismatch, EffectHashMismatch,
     ProviderResponsesNotCaptured, EffectLedgerNotCaptured, ProviderResponsesDeclaredUncaptured,
     ExternalStateDeclaredUncaptured, IsolationBelowRecordedExternals]

  const ENVIRONMENT_REASONS := [EnvironmentStateUncaptured, EnvironmentNotCaptured, EnvironmentNotSandboxed]

  method AssessReplayAdmission(h: Hasher, s: Snapshot, requested: Grade) returns (admitted: bool, reasons: seq<Reason>)
    ensures admitted <==> Admissible(h, s, requested)
    ensures forall c :: c in reasons <==> StandsAgainst(h, s, requested, c)
  {
    hide Violated;
    reasons := [];
    if requested.Rank() > s.manifest.grade.Rank() { reasons := reasons + [RequestExceedsDeclaredGrade]; }
    if requested.Rank() >= R1ManifestOnly.Rank() { reasons := reasons + Noted(h, s, [ManifestIdentityMissing]); }
    if requested.Rank() >= R2DeterministicCore.Rank() { reasons := reasons + Noted(h, s, CORE_REASONS); }
    if requested.Rank() >= R3RecordedExternals.Rank() { reasons := reasons + Noted(h, s, EXTERNAL_REASONS); }
    if requested == R4EnvironmentReplay { reasons := reasons + Noted(h, s, ENVIRONMENT_REASONS); }
    forall c ensures c in reasons <==> StandsAgainst(h, s, requested, c) {
      ReasonGroup(c);
    }
    admitted := reasons == [];
    assert !admitted ==> StandsAgainst(h, s, requested, reasons[0]);
  }

  lemma ReasonGroup(c: Reason)
    ensures c in CORE_REASONS <==> c.From() == 2
    ensures c in EXTERNAL_REASONS <==> c.From() == 3
    ensures c in ENVIRONMENT_REASONS <==> c.From() == 4
    ensures c == ManifestIdentityMissing <==> c.From() == 1
    ensures c == RequestExceedsDeclaredGrade <==> c.From() == 0
  {
    CoreGroup(c);
    ExternalGroup(c);
    EnvironmentGroup(c);
  }

  lemma CoreGroup(c: Reason)
    ensures c in CORE_REASONS <==> c.From() == 2
  {
    assert CORE_REASONS[0] == DeterministicGraphEvidenceMissing && CORE_REASONS[1] == GraphHashMismatch
           && CORE_REASONS[2] == GraphNotDeclaredCaptured && CORE_REASONS[3] == RuntimeStateHashMismatch;
  }

  lemma ExternalGroup(c: Reason)
    ensures c in EXTERNAL_REASONS <==> c.From() == 3
  {
    var e := EXTERNAL_REASONS;
    assert e[0] == LegacyManifest && e[1] == RecordingEvidenceMismatch && e[2] == EffectEvidenceMismatch;
    assert e[3] == RecordingHashMismatch && e[4] == EffectHashMismatch && e[5] == ProviderResponsesNotCaptured;
    assert e[6] == EffectLedgerNotCaptured && e[7] == ProviderResponsesDeclaredUncaptured;
    assert e[8] == ExternalStateDeclaredUncaptured && e[9] == IsolationBelowRecordedExternals;
  }

  lemma EnvironmentGroup(c: Reason)
    ensures c in ENVIRONMENT_REASONS <==> c.From() == 4
  {
    assert ENVIRONMENT_REASONS[0] == EnvironmentStateUncaptured && ENVIRONMENT_REASONS[1] == EnvironmentNotCaptured
           && ENVIRONMENT_REASONS[2] == EnvironmentNotSandboxed;
  }

  /** A snapshot admitted at one grade is admitted at every lower grade. */
  lemma AdmittedBelow(h: Hasher, s: Snapshot, requested: Grade, lower: Grade)
    requires Admissible(h, s, requested) && lower.Rank() <= requested.Rank()
    ensures Admissible(h, s, lower)
  {
    forall reason ensures !StandsAgainst(h, s, lower, reason) {
      assert !StandsAgainst(h, s, requested, reason);
    }
  }

  // ----- What each reason says -----

  /** Sorted alike means the same identifiers, each as often. */
  lemma SortedIdsIff(a: seq<string>, b: seq<string>)
    ensures SortedIds(a) == SortedIds(b) <==> multiset(a) == multiset(b)
  {
    if multiset(a) == multiset(b) {
      Text.StringOrder();
      Sorting.SortOrderIndependent(a, b, Text.StringLeq);
    } else {
      assert multiset(SortedIds(a)) == multiset(a) && multiset(SortedIds(b)) == multiset(b);
    }
  }

  lemma CoreReasonsSay(h: Hasher, s: Snapshot)
    ensures var m := s.manifest;
            && (Violated(h, s, ManifestIdentityMissing) <==> |m.snapshotId| == 0 || |m.sourceStateId| == 0)
            && (Violated(h, s, DeterministicGraphEvidenceMissing) <==>
                  s.graph == None || m.graphHash == None || m.graphHash == Some(""))
            && (Violated(h, s, GraphHashMismatch) <==>
                  && !Violated(h, s, DeterministicGraphEvidenceMissing)
                  && m.graphHash != Some(h.graph(Documents.GraphDocument(s.graph.value))))
            && (Violated(h, s, GraphNotDeclaredCaptured) <==> "graph" !in m.capturedState)
            && (Violated(h, s, RuntimeStateHashMismatch) <==>
                  || (s.runtimeState.Some? && m.runtimeStateHash != Some(h.state(s.runtimeState.value)))
                  || (s.runtimeState.None? && m.runtimeStateHash.Some?))
  {
    hide Documents.GraphDocument;
  }

  lemma EvidenceReasonsSay(h: Hasher, s: Snapshot)
    ensures var m := s.manifest;
            && (Violated(h, s, LegacyManifest) <==> m.schemaVersion == Schema010)
            && (Violated(h, s, RecordingEvidenceMismatch) <==>
                  multiset(RecordingIds(s.recordings)) != multiset(m.recordingIds))
            && (Violated(h, s, EffectEvidenceMismatch) <==> multiset(EffectIds(s.effects)) != multiset(m.effectIds))
            && (Violated(h, s, RecordingHashMismatch) <==> m.recordingsHash != Some(h.recordings(s.recordings)))
            && (Violated(h, s, EffectHashMismatch) <==> m.effectsHash != Some(h.effects(s.effects)))
  {
    SortedIdsIff(RecordingIds(s.recordings), s.manifest.recordingIds);
    SortedIdsIff(EffectIds(s.effects), s.manifest.effectIds);
    hide SortedIds;
    hide RecordingIds;
    hide EffectIds;
  }

  lemma DeclarationReasonsSay(h: Hasher, s: Snapshot)
    ensures var m := s.manifest;
            && (Violated(h, s, ProviderResponsesNotCaptured) <==> "provider_responses" !in m.capturedState)
            && (Violated(h, s, EffectLedgerNotCaptured) <==> "effect_ledger" !in m.capturedState)
            && (Violated(h, s, ProviderResponsesDeclaredUncaptured) <==> "provider_responses" in m.uncapturedState)
            && (Violated(h, s, IsolationBelowRecordedExternals) <==>
                  m.isolation == I0None || m.isolation == I1GraphOnly || m.isolation == I2ProcessLocal)
  {
    hide SortedIds;
  }

  lemma ExternalStateSays(h: Hasher, s: Snapshot)
    ensures var u := s.manifest.uncapturedState;
            Violated(h, s, ExternalStateDeclaredUncaptured) <==>
              "filesystem" in u || "database" in u || "network" in u || "object_store" in u || "queue" in u
  {
    assert "filesystem" in EXTERNAL_KINDS && "database" in EXTERNAL_KINDS && "network" in EXTERNAL_KINDS
           && "object_store" in EXTERNAL_KINDS && "queue" in EXTERNAL_KINDS;
  }

  lemma EnvironmentReasonsSay(h: Hasher, s: Snapshot)
    ensures var m := s.manifest;
            && (Violated(h, s, EnvironmentStateUncaptured) <==> |m.uncapturedState| > 0)
            && (Violated(h, s, EnvironmentNotCaptured) <==> "environment" !in m.capturedState)
            && (Violated(h, s, EnvironmentNotSandboxed) <==>
                  m.isolation == I0None || m.isolation == I1GraphOnly || m.isolation == I2ProcessLocal
                  || m.isolation == I3RecordedExternals)
  {
  }

  /** From R3 on the identifiers, hashes, declarations and isolation of the external evidence
      count, and at R4 those of the environment. */
  lemma WhenReasonsCount(h: Hasher, s: Snapshot, requested: Grade, reason: Reason)
    ensures reason == RequestExceedsDeclaredGrade ==>
              (StandsAgainst(h, s, requested, reason) <==> s.manifest.grade.Rank() < requested.Rank())
    ensures reason == ManifestIdentityMissing ==>
              (StandsAgainst(h, s, requested, reason) <==> requested != R0None && Violated(h, s, reason))
    ensures reason in CORE_REASONS ==>
              (StandsAgainst(h, s, requested, reason) <==>
                 requested != R0None && requested != R1ManifestOnly && Violated(h, s, reason))
    ensures reason in EXTERNAL_REASONS ==>
              (StandsAgainst(h, s, requested, reason) <==>
                 (requested == R3RecordedExternals || requested == R4EnvironmentReplay) && Violated(h, s, reason))
    ensures reason in ENVIRONMENT_REASONS ==>
              (StandsAgainst(h, s, requested, reason) <==> requested == R4EnvironmentReplay && Violated(h, s, reason))
  {
    hide Violated;
    ReasonGroup(reason);
  }

  ghost predicate ExternalEvidenceWhole(h: Hasher, s: Snapshot) {
    var m := s.manifest;
    && m.schemaVersion == Schema020
    && multiset(RecordingIds(s.recordings)) == multiset(m.recordingIds)
    && multiset(EffectIds(s.effects)) == multiset(m.effectIds)
    && m.recordingsHash == Some(h.recordings(s.recordings)) && m.effectsHash == Some(h.effects(s.effects))
    && "provider_responses" in m.capturedState && "effect_ledger" in m.capturedState
    && (forall k | k in {"provider_responses", "filesystem", "database", "network", "object_store", "queue"} ::
          k !in m.uncapturedState)
    && (m.isolation == I3RecordedExternals || m.isolation == I4SandboxedEnvironment)
  }

  lemma NoExternalReason(h: Hasher, s: Snapshot)
    ensures (forall c | c in EXTERNAL_REASONS :: !Violated(h, s, c)) <==>
              && !Violated(h, s, LegacyManifest)
              && !Violated(h, s, RecordingEvidenceMismatch) && !Violated(h, s, EffectEvidenceMismatch)
              && !Violated(h, s, RecordingHashMismatch) && !Violated(h, s, EffectHashMismatch)
              && !Violated(h, s, ProviderResponsesNotCaptured) && !Violated(h, s, EffectLedgerNotCaptured)
              && !Violated(h, s, ProviderResponsesDeclaredUncaptured)
              && !Violated(h, s, ExternalStateDeclaredUncaptured)
              && !Violated(h, s, IsolationBelowRecordedExternals)
  {
    hide Violated;
    forall c ensures c in EXTERNAL_REASONS <==> c.From() == 3 { ExternalGroup(c); }
    hide EXTERNAL_REASONS;
  }

  lemma ExternalEvidenceIff(h: Hasher, s: Snapshot)
    ensures ExternalEvidenceWhole(h, s) <==> forall c | c in EXTERNAL_REASONS :: !Violated(h, s, c)
  {
    NoExternalReason(h, s);
    EvidenceReasonsSay(h, s);
    DeclarationReasonsSay(h, s);
    ExternalStateSays(h, s);
    hide Violated;
    hide RecordingIds;
    hide EffectIds;
    hide EXTERNAL_REASONS;
    hide EXTERNAL_KINDS;
  }

  /** A recorded execution is admitted exactly when it is admitted as a deterministic core, the
      manifest claims R3 or more, and every piece of external evidence is whole. */
  lemma RecordedAdmissibleIff(h: Hasher, s: Snapshot)
    ensures Admissible(h, s, R3RecordedExternals) <==>
              && Admissible(h, s, R2DeterministicCore) && ExternalEvidenceWhole(h, s)
              && (s.manifest.grade == R3RecordedExternals || s.manifest.grade == R4EnvironmentReplay)
  {
    ExternalEvidenceIff(h, s);
    hide ExternalEvidenceWhole;
    hide Violated;
    forall c ensures StandsAgainst(h, s, R3RecordedExternals, c) <==>
                       || (c == RequestExceedsDeclaredGrade && s.manifest.grade.Rank() < 3)
                       || (c != RequestExceedsDeclaredGrade && StandsAgainst(h, s, R2DeterministicCore, c))
                       || (c in EXTERNAL_REASONS && Violated(h, s, c))
    {
      ReasonGroup(c);
    }
    hide EXTERNAL_REASONS;
    if Admissible(h, s, R3RecordedExternals) {
      AdmittedBelow(h, s, R3RecordedExternals, R2DeterministicCore);
      assert !StandsAgainst(h, s, R3RecordedExternals, RequestExceedsDeclaredGrade);
      forall c | c in EXTERNAL_REASONS ensures !Violated(h, s, c) {
        assert !StandsAgainst(h, s, R3RecordedExternals, c);
      }
    }
  }

  /** An environment replay is admitted exactly when the recorded execution is, nothing was left
      uncaptured, the environment was captured, and it ran in a sandbox. */
  lemma EnvironmentAdmissibleIff(h: Hasher, s: Snapshot)
    ensures Admissible(h, s, R4EnvironmentReplay) <==>
              && Admissible(h, s, R3RecordedExternals) && s.manifest.grade == R4EnvironmentReplay
              && s.manifest.uncapturedState == [] && "environment" in s.manifest.capturedState
              && s.manifest.isolation == I4SandboxedEnvironment
  {
    EnvironmentReasonsSay(h, s);
    hide Violated;
    forall c ensures StandsAgainst(h, s, R4EnvironmentReplay, c) <==>
                       || (c == RequestExceedsDeclaredGrade && s.manifest.grade.Rank() < 4)
                       || (c != RequestExceedsDeclaredGrade && StandsAgainst(h, s, R3RecordedExternals, c))
                       || (c.From() == 4 && Violated(h, s, c))
    {
      ReasonGroup(c);
    }
    if Admissible(h, s, R4EnvironmentReplay) {
      AdmittedBelow(h, s, R4EnvironmentReplay, R3RecordedExternals);
      assert !StandsAgainst(h, s, R4EnvironmentReplay, RequestExceedsDeclaredGrade);
      assert !StandsAgainst(h, s, R4EnvironmentReplay, EnvironmentStateUncaptured);
      assert !StandsAgainst(h, s, R4EnvironmentReplay, EnvironmentNotCaptured);
      assert !StandsAgainst(h, s, R4EnvironmentReplay, EnvironmentNotSandboxed);
    }
  }

  // ----- Capture -----

  function CaptureGraph(
    h: Hasher, g: Graph, snapshotId: string, sourceStateId: string, runtimeState: Option<Json>
  ): Result<Snapshot, SnapshotError> {
    if snapshotId == "" || sourceStateId == "" then Err(EmptyIdentity)
    else
      Ok(Snapshot(
        Manifest(
          snapshotId, sourceStateId, Schema020, R2DeterministicCore, I1GraphOnly,
          Some(GraphHash(h, g)), StateHash(h, runtimeState), [], None, [], None,
          ["graph"] + (if runtimeState.Some? then ["runtime_state"] else []),
          ["provider_responses", "filesystem", "database", "network", "accelerator", "process_environment"], false),
        Some(g), runtimeState, [], []))
  }

  predicate RecordingLeq(a: Recording, b: Recording) { Text.StringLeq(a.recordingId, b.recordingId) }

  predicate EffectLeq(a: Effects.Entry, b: Effects.Entry) { Text.StringLeq(a.effectId, b.effectId) }

  predicate AnyOpen(effects: seq<Effects.Entry>) { exists e | e in effects :: e.Open() }

  function RecordedManifest(
    h: Hasher, g: Graph, snapshotId: string, sourceStateId: string,
    recordings: seq<Recording>, effects: seq<Effects.Entry>, runtimeState: Option<Json>
  ): Manifest {
    Manifest(
      snapshotId, sourceStateId, Schema020, R3RecordedExternals, I3RecordedExternals,
      Some(GraphHash(h, g)), StateHash(h, runtimeState),
      RecordingIds(recordings), Some(h.recordings(recordings)), EffectIds(effects), Some(h.effects(effects)),
      ["graph"] + (if runtimeState.Some? then ["runtime_state"] else []) + ["provider_responses", "effect_ledger"],
      ["accelerator", "process_environment"], AnyOpen(effects))
  }

  /** Its own admission check never fails: only an empty identity does. */
  method CaptureRecordedExecution(
    h: Hasher, g: Graph, snapshotId: string, sourceStateId: string,
    recordings: seq<Recording>, effects: seq<Effects.Entry>, runtimeState: Option<Json>)
    returns (r: Result<Snapshot, SnapshotError>)
    requires h.NeverEmpty()
    ensures r.Err? <==> snapshotId == "" || sourceStateId == ""
    ensures r.Err? ==> r.error == EmptyIdentity
    ensures r.Ok? ==> forall grade: Grade :: Admissible(h, r.value, grade) <==>
        grade.Rank() <= R3RecordedExternals.Rank()
    ensures r.Ok? ==> Restore(h, r.value) == Ok(g)
    ensures r.Ok? ==> r.value.recordings == Sorting.Sort(recordings, RecordingLeq)
                      && r.value.effects == Sorting.Sort(effects, EffectLeq)
                      && r.value.manifest == RecordedManifest(h, g, snapshotId, sourceStateId, r.value.recordings,
                          r.value.effects, runtimeState)
    ensures r.Ok? ==> (r.value.manifest.cleanupRequired <==> AnyOpen(effects))
  {
    var sortedRecordings := Sorting.Sort(recordings, RecordingLeq);
    var sortedEffects := Sorting.Sort(effects, EffectLeq);
    Sorting.SameElements(effects, sortedEffects);
    if snapshotId == "" || sourceStateId == "" { return Err(EmptyIdentity); }
    var manifest := RecordedManifest(h, g, snapshotId, sourceStateId, sortedRecordings, sortedEffects, runtimeState);
    var snapshot := Snapshot(manifest, Some(g), runtimeState, sortedRecordings, sortedEffects);
    forall grade: Grade ensures Admissible(h, snapshot, grade) <==> grade.Rank() <= R3RecordedExternals.Rank() {
      RecordedCaptureAdmittedIff(h, g, snapshot, grade);
    }
    hide Admissible;
    var admitted, reasons := AssessReplayAdmission(h, snapshot, R3RecordedExternals);
    r := if admitted then Ok(snapshot) else Err(NotAdmitted);
  }

  lemma RecordedCaptureAdmittedIff(h: Hasher, g: Graph, s: Snapshot, grade: Grade)
    requires h.NeverEmpty() && s.graph == Some(g)
    requires s.manifest.snapshotId != "" && s.manifest.sourceStateId != ""
    requires s.manifest == RecordedManifest(h, g, s.manifest.snapshotId, s.manifest.sourceStateId,
                                            s.recordings, s.effects, s.runtimeState)
    ensures Admissible(h, s, grade) <==> grade.Rank() <= R3RecordedExternals.Rank()
  {
    var m := s.manifest;
    var runtime := if s.runtimeState.Some? then ["runtime_state"] else [];
    assert m.capturedState == ["graph"] + runtime + ["provider_responses", "effect_ledger"];
    assert m.capturedState[0] == "graph" && m.capturedState[|m.capturedState| - 1] == "effect_ledger"
           && m.capturedState[|m.capturedState| - 2] == "provider_responses";
    assert m.uncapturedState == ["accelerator", "process_environment"];
    assert "provider_responses" !in m.uncapturedState;
    hide Documents.GraphDocument;
    hide SortedIds;
    if grade.Rank() > 3 {
      assert StandsAgainst(h, s, grade, RequestExceedsDeclaredGrade);
    } else {
      forall reason ensures !StandsAgainst(h, s, grade, reason) {
        assert reason.From() <= 3 ==> !Violated(h, s, reason);
      }
    }
  }

  lemma GraphCaptureAdmittedIff(
    h: Hasher, g: Graph, snapshotId: string, sourceStateId: string, runtimeState: Option<Json>, grade: Grade)
    requires h.NeverEmpty() && snapshotId != "" && sourceStateId != ""
    ensures var captured := CaptureGraph(h, g, snapshotId, sourceStateId, runtimeState);
            && captured.Ok?
            && (Admissible(h, captured.value, grade) <==> grade.Rank() <= R2DeterministicCore.Rank())
            && Restore(h, captured.value) == Ok(g)
  {
    var s := CaptureGraph(h, g, snapshotId, sourceStateId, runtimeState).value;
    assert s.manifest.capturedState[0] == "graph";
    hide Documents.GraphDocument;
    hide SortedIds;
    if grade.Rank() > 2 {
      assert StandsAgainst(h, s, grade, RequestExceedsDeclaredGrade);
    } else {
      forall reason ensures !StandsAgainst(h, s, grade, reason) {
        assert reason.From() <= 2 ==> !Violated(h, s, reason);
      }
    }
  }

  // ----- Restore -----

  function Restore(h: Hasher, s: Snapshot): Result<Graph, SnapshotError> {
    if s.graph.None? then Err(NoGraph)
    else if Some(GraphHash(h, s.graph.value)) != s.manifest.graphHash then Err(GraphHashDiffers)
    else if StateHash(h, s.runtimeState) != s.manifest.runtimeStateHash then Err(RuntimeHashDiffers)
    else Ok(s.graph.value)
  }

  /** A snapshot is admitted as a deterministic core exactly when its graph can be restored and
      the manifest declares as much. */
  lemma CoreAdmissibleIffRestorable(h: Hasher, s: Snapshot)
    requires h.NeverEmpty()
    ensures Admissible(h, s, R2DeterministicCore) <==>
              && Restore(h, s).Ok?
              && s.manifest.grade.Rank() >= 2
              && s.manifest.snapshotId != "" && s.manifest.sourceStateId != ""
              && "graph" in s.manifest.capturedState
  {
    hide Documents.GraphDocument;
    hide SortedIds;
    if Admissible(h, s, R2DeterministicCore) {
      assert !StandsAgainst(h, s, R2DeterministicCore, RequestExceedsDeclaredGrade);
      assert !StandsAgainst(h, s, R2DeterministicCore, ManifestIdentityMissing);
      assert !StandsAgainst(h, s, R2DeterministicCore, DeterministicGraphEvidenceMissing);
      assert !StandsAgainst(h, s, R2DeterministicCore, GraphHashMismatch);
      assert !StandsAgainst(h, s, R2DeterministicCore, GraphNotDeclaredCaptured);
      assert !StandsAgainst(h, s, R2DeterministicCore, RuntimeStateHashMismatch);
    }
  }

  /** The two documents are not a hash collision. */
  ghost predicate Distinguishes(h: Hasher, a: Graph, b: Graph) {
    GraphHash(h, a) == GraphHash(h, b) ==> Documents.GraphDocument(a) == Documents.GraphDocument(b)
  }

  /** Whatever a snapshot holds, if its manifest was made for g and it restores to g', then g'
      is g up to the order of the edges, short of a hash collision. */
  lemma RestoreIsFaithful(h: Hasher, s: Snapshot, g: Graph)
    requires s.manifest.graphHash == Some(GraphHash(h, g)) && Restore(h, s).Ok?
    requires g.Valid() && Restore(h, s).value.Valid() && Distinguishes(h, Restore(h, s).value, g)
    ensures RoundTrips.Canonical(Restore(h, s).value) == RoundTrips.Canonical(g)
  {
    var restored := Restore(h, s).value;
    assert Documents.GraphDocument(restored) == Documents.GraphDocument(g);
    hide *;
    RoundTrips.PrintThenParse(restored);
    RoundTrips.PrintThenParse(g);
  }

  /** An admitted recorded execution holds exactly the recordings and effects its manifest was
      made for, short of a hash collision. */
  lemma RecordedEvidenceIntact(
    h: Hasher, s: Snapshot, g: Graph, recordings: seq<Recording>, effects: seq<Effects.Entry>,
        runtimeState: Option<Json>)
    requires s.manifest == RecordedManifest(h, g, s.manifest.snapshotId, s.manifest.sourceStateId,
                                            recordings, effects, runtimeState)
    requires Admissible(h, s, R3RecordedExternals)
    requires h.recordings(s.recordings) == h.recordings(recordings) ==> s.recordings == recordings
    requires h.effects(s.effects) == h.effects(effects) ==> s.effects == effects
    ensures s.recordings == recordings && s.effects == effects
  {
    assert !StandsAgainst(h, s, R3RecordedExternals, RecordingHashMismatch);
    assert !StandsAgainst(h, s, R3RecordedExternals, EffectHashMismatch);
  }

  /** A capture of a reconciled ledger needs no cleanup. */
  method CaptureReconciled(
    h: Hasher, g: Graph, snapshotId: string, sourceStateId: string,
    recordings: seq<Recording>, ledger: Effects.EffectLedger, runtimeState: Option<Json>)
    returns (r: Result<Snapshot, SnapshotError>)
    requires h.NeverEmpty() && ledger.Valid() && snapshotId != "" && sourceStateId != ""
    modifies ledger
    ensures ledger.Valid() && r.Ok? && !r.value.manifest.cleanupRequired
    ensures Admissible(h, r.value, R3RecordedExternals)
  {
    var reconciled := ledger.Reconcile();
    r := CaptureRecordedExecution(h, g, snapshotId, sourceStateId, recordings, reconciled.value, runtimeState);
  }
}
