/** The lifecycle of learned skills: forward stages gated by evaluations, demotion on
    activation, drift invalidation and rollback to a parent version. */
module Skills {
  import opened Wrappers

  datatype Lifecycle =
    | Draft | Sandboxed | Evaluated | Shadow | Canary | Active
    | Quarantined | Retired | RolledBack

  type Key = (string, string)

  datatype Content = Content(
    procedure: seq<string>, permissions: set<string>, domains: set<string>,
    sourceEpisodeIds: seq<string>, negativeEpisodeIds: seq<string>, dependencyFingerprints: set<string>)

  datatype Manifest = Manifest(
    skillId: string, version: string, tenantId: string, name: string, content: Content,
    lifecycle: Lifecycle, evaluationArtifactIds: seq<string>, parentVersion: Option<string>)
  {
    function Identity(): Key { (skillId, version) }

    function Fingerprinted(): Hashed { Hashed(skillId, version, tenantId, content) }

    predicate SameSkill(other: Manifest) { skillId == other.skillId && tenantId == other.tenantId }
  }

  /** What the fingerprint covers: neither the lifecycle nor the parent. */
  datatype Hashed = Hashed(skillId: string, version: string, tenantId: string, content: Content)

  type Hash = Hashed -> string

  datatype Evaluation = Evaluation(
    artifactId: string, skillFingerprint: string, heldOutTasks: int, baselineSuccess: real, skillSuccess: real,
    harmfulTransferRate: real, poisoningDetectionRate: real, permissionViolations: int)
  {
    predicate Promotable() {
      && heldOutTasks > 0 && skillSuccess > baselineSuccess && harmfulTransferRate <= 0.05
      && poisoningDetectionRate >= 0.95 && permissionViolations == 0
    }
  }

  datatype SkillError =
    | AlreadyExists | UnknownVersion | IllegalTransition | EvaluationRequired
    | NotPromotable | ParentNotQualified | UnknownFingerprint | UnknownSkill

  // ----- Specification: states and steps -----

  datatype State = State(versions: map<Key, Manifest>, evaluations: map<string, Evaluation>, disabled: set<string>)

  function Forward(l: Lifecycle): Option<Lifecycle> {
    match l
    case Draft => Some(Sandboxed)
    case Sandboxed => Some(Evaluated)
    case Evaluated => Some(Shadow)
    case Shadow => Some(Canary)
    case Canary => Some(Active)
    case _ => None
  }

  predicate Withdrawn(l: Lifecycle) { l == Quarantined || l == Retired || l == RolledBack }

  predicate Gated(l: Lifecycle) { l == Shadow || l == Canary || l == Active }

  predicate Qualified(h: Hash, s: State, m: Manifest) {
    h(m.Fingerprinted()) in s.evaluations && s.evaluations[h(m.Fingerprinted())].Promotable()
  }

  predicate Superseded(m: Manifest, current: Manifest) {
    m.SameSkill(current) && m.version != current.version && m.lifecycle == Active
  }

  function Demote(versions: map<Key, Manifest>, current: Manifest): map<Key, Manifest> {
    map k | k in versions :: if Superseded(versions[k], current) then versions[k].(lifecycle := RolledBack)
        else versions[k]
  }

  function TransitionError(h: Hash, s: State, key: Key, l: Lifecycle): Option<SkillError> {
    if key !in s.versions then Some(UnknownVersion)
    else
      var m := s.versions[key];
      if l == m.lifecycle then None
      else if !Withdrawn(l) && Forward(m.lifecycle) != Some(l) then Some(IllegalTransition)
      else if l == Evaluated && h(m.Fingerprinted()) !in s.evaluations then Some(EvaluationRequired)
      else if Gated(l) && !Qualified(h, s, m) then Some(NotPromotable)
      else None
  }

  function AfterTransition(h: Hash, s: State, key: Key, l: Lifecycle): State {
    if TransitionError(h, s, key, l).Some? || l == s.versions[key].lifecycle then s
    else
      var m := s.versions[key];
      var stamped := if l == Evaluated then m.(evaluationArtifactIds :=
          [s.evaluations[h(m.Fingerprinted())].artifactId]) else m;
      var versions := if l == Active then Demote(s.versions, m) else s.versions;
      s.(versions := versions[key := stamped.(lifecycle := l)])
  }

  /** The stages a version passes one by one. */
  ghost predicate NextStage(from: Lifecycle, to: Lifecycle) {
    || (from == Draft && to == Sandboxed)
    || (from == Sandboxed && to == Evaluated)
    || (from == Evaluated && to == Shadow)
    || (from == Shadow && to == Canary)
    || (from == Canary && to == Active)
  }

  /** When a transition fails, and how. */
  lemma TransitionFailsIff(h: Hash, s: State, key: Key, l: Lifecycle)
    ensures TransitionError(h, s, key, l) == Some(UnknownVersion) <==> key !in s.versions
    ensures key in s.versions ==>
              var error, m := TransitionError(h, s, key, l), s.versions[key];
              var evaluated := h(m.Fingerprinted()) in s.evaluations;
              var promotable := evaluated && s.evaluations[h(m.Fingerprinted())].Promotable();
              && (error == Some(IllegalTransition) <==>
                    l != m.lifecycle && l !in {Quarantined, Retired, RolledBack} && !NextStage(m.lifecycle, l))
              && (error == Some(EvaluationRequired) <==> m.lifecycle == Sandboxed && l == Evaluated && !evaluated)
              && (error == Some(NotPromotable) <==>
                    NextStage(m.lifecycle, l) && l in {Shadow, Canary, Active} && !promotable)
              && (error.Some? ==> error.value in {IllegalTransition, EvaluationRequired, NotPromotable})
  {
  }

  /** What a transition that does not fail leaves at each key: the version in its new stage, with
      the evaluation it was evaluated by; on activation the other active versions of the same
      skill and tenant rolled back; and everything else as it was. */
  lemma TransitionEffect(h: Hash, s: State, key: Key, l: Lifecycle, k: Key)
    requires TransitionError(h, s, key, l).None? && l != s.versions[key].lifecycle
    ensures var after := AfterTransition(h, s, key, l);
            && after.evaluations == s.evaluations && after.disabled == s.disabled
            && (k in after.versions <==> k in s.versions)
            && (k in s.versions ==> var m, n := s.versions[key], s.versions[k];
                if k == key then
                  && after.versions[k].lifecycle == l
                  && after.versions[k] == n.(lifecycle := l,
                                             evaluationArtifactIds := after.versions[k].evaluationArtifactIds)
                  && (l != Evaluated ==> after.versions[k].evaluationArtifactIds == n.evaluationArtifactIds)
                  && (l == Evaluated ==>
                        && h(n.Fingerprinted()) in s.evaluations
                        && after.versions[k].evaluationArtifactIds
                           == [s.evaluations[h(n.Fingerprinted())].artifactId])
                else if && l == Active && n.lifecycle == Active
                        && n.skillId == m.skillId && n.tenantId == m.tenantId && n.version != m.version
                  then after.versions[k] == n.(lifecycle := RolledBack)
                else after.versions[k] == n)
  {
  }

  function RollbackError(h: Hash, s: State, key: Key): Option<SkillError> {
    if key !in s.versions then Some(UnknownVersion)
    else if s.versions[key].parentVersion.None? then None
    else
      var parentKey := (key.0, s.versions[key].parentVersion.value);
      if parentKey !in s.versions then Some(UnknownVersion)
      else if !Qualified(h, s, s.versions[parentKey]) then Some(ParentNotQualified)
      else None
  }

  /** The version is withdrawn even when its parent cannot be restored. */
  function AfterRollback(h: Hash, s: State, key: Key): State {
    var withdrawn := AfterTransition(h, s, key, RolledBack);
    if RollbackError(h, s, key).Some? || s.versions[key].parentVersion.None? then withdrawn
    else
      var parentKey := (key.0, s.versions[key].parentVersion.value);
      withdrawn.(versions := withdrawn.versions[parentKey := withdrawn.versions[parentKey].(lifecycle := Active)])
  }

  /** What a rollback leaves at each key: the version rolled back, its parent active when it is
      known and qualified, and everything else as it was. */
  lemma RollbackEffect(h: Hash, s: State, key: Key, k: Key)
    requires key in s.versions
    ensures var after, m := AfterRollback(h, s, key), s.versions[key];
            && after.evaluations == s.evaluations && after.disabled == s.disabled
            && (k in after.versions <==> k in s.versions)
            && (k in s.versions ==>
                  var restored := && m.parentVersion == Some(k.1) && k.0 == key.0
                                  && h(s.versions[k].Fingerprinted()) in s.evaluations
                                  && s.evaluations[h(s.versions[k].Fingerprinted())].Promotable();
                  after.versions[k] == if restored then s.versions[k].(lifecycle := Active)
                                       else if k == key then s.versions[k].(lifecycle := RolledBack)
                                       else s.versions[k])
  {
    hide Evaluation.Promotable;
  }

  predicate Drifted(m: Manifest, changed: set<string>) {
    m.content.dependencyFingerprints * changed != {} && m.lifecycle != Retired && m.lifecycle != RolledBack
  }

  function Quarantine(versions: map<Key, Manifest>, changed: set<string>): map<Key, Manifest> {
    map k | k in versions :: if Drifted(versions[k], changed) then versions[k].(lifecycle := Quarantined)
        else versions[k]
  }

  lemma QuarantinedAt(versions: map<Key, Manifest>, changed: set<string>, k: Key)
    requires k in versions
    ensures k in Quarantine(versions, changed)
    ensures Quarantine(versions, changed)[k]
            == if Drifted(versions[k], changed) then versions[k].(lifecycle := Quarantined) else versions[k]
  {
  }

  /** Drift quarantines the versions that depend on something changed, unless withdrawn for good. */
  lemma InvalidationEffect(s: State, changed: set<string>, k: Key)
    ensures var after := AfterInvalidation(s, changed);
            && after.evaluations == s.evaluations && after.disabled == s.disabled
            && (k in after.versions <==> k in s.versions)
            && (k in s.versions ==>
                  var depends := exists f :: f in s.versions[k].content.dependencyFingerprints && f in changed;
                  after.versions[k] == if depends && s.versions[k].lifecycle !in {Retired, RolledBack}
                                       then s.versions[k].(lifecycle := Quarantined) else s.versions[k])
  {
    QuarantinedKeys(s.versions, changed);
    if k in s.versions {
      QuarantinedAt(s.versions, changed, k);
      var both := s.versions[k].content.dependencyFingerprints * changed;
      if both != {} { var f :| f in both; }
      forall f | f in s.versions[k].content.dependencyFingerprints && f in changed ensures both != {} {
        assert f in both;
      }
    }
    hide Quarantine;
  }

  lemma QuarantinedKeys(versions: map<Key, Manifest>, changed: set<string>)
    ensures Quarantine(versions, changed).Keys == versions.Keys
  {
  }

  function AfterInvalidation(s: State, changed: set<string>): State {
    s.(versions := Quarantine(s.versions, changed))
  }

  datatype Operation =
    | Register(manifest: Manifest)
    | Transition(key: Key, lifecycle: Lifecycle)
    | RecordEvaluation(evaluation: Evaluation)
    | Invalidate(changed: set<string>)
    | Rollback(key: Key)
    | Disable(skillId: string)

  function Step(h: Hash, s: State, op: Operation): State {
    match op
    case Register(m) => if m.Identity() in s.versions then s else s.(versions := s.versions[m.Identity() := m])
    case Transition(key, l) => AfterTransition(h, s, key, l)
    case RecordEvaluation(e) =>
      if KnownFingerprint(h, s, e.skillFingerprint) then s.(evaluations := s.evaluations[e.skillFingerprint := e])
          else s
    case Invalidate(changed) => AfterInvalidation(s, changed)
    case Rollback(key) => AfterRollback(h, s, key)
    case Disable(skillId) => if KnownSkill(s, skillId) then s.(disabled := s.disabled + {skillId}) else s
  }

  predicate KnownFingerprint(h: Hash, s: State, fingerprint: string) {
    exists k :: k in s.versions && h(s.versions[k].Fingerprinted()) == fingerprint
  }

  predicate KnownSkill(s: State, skillId: string) { exists k :: k in s.versions && k.0 == skillId }

  function Run(h: Hash, ops: seq<Operation>): State {
    if ops == [] then State(map[], map[], {}) else Step(h, Run(h, ops[..|ops| - 1]), ops[|ops| - 1])
  }

  // ----- The registry -----

  class SkillRegistry {
    const hash: Hash
    var versions: map<Key, Manifest>
    var evaluations: map<string, Evaluation>
    var disabled: set<string>

    constructor (hash: Hash)
      ensures this.hash == hash && Contents() == Run(hash, [])
    {
      this.hash := hash;
      versions, evaluations, disabled := map[], map[], {};
    }

    function Contents(): State
      reads this
    {
      State(versions, evaluations, disabled)
    }

    method Register(manifest: Manifest) returns (error: Option<SkillError>)
      modifies this
      ensures Contents() == Step(hash, old(Contents()), Operation.Register(manifest))
      ensures error == if manifest.Identity() in old(versions) then Some(AlreadyExists) else None
    {
      var key := manifest.Identity();
      if key in versions { return Some(AlreadyExists); }
      versions := versions[key := manifest];
      error := None;
    }

    method Transition(key: Key, lifecycle: Lifecycle) returns (r: Result<Manifest, SkillError>)
      modifies this
      ensures Contents() == AfterTransition(hash, old(Contents()), key, lifecycle)
      ensures match TransitionError(hash, old(Contents()), key, lifecycle)
              case None => key in versions && r == Ok(versions[key])
              case Some(e) => r == Err(e)
    {
      if key !in versions { return Err(UnknownVersion); }
      var current := versions[key];
      if lifecycle == current.lifecycle { return Ok(current); }
      if !Withdrawn(lifecycle) {
        if Forward(current.lifecycle) != Some(lifecycle) { return Err(IllegalTransition); }
      }
      var fingerprint := hash(current.Fingerprinted());
      if lifecycle == Evaluated {
        if fingerprint !in evaluations { return Err(EvaluationRequired); }
        current := current.(evaluationArtifactIds := [evaluations[fingerprint].artifactId]);
      }
      if Gated(lifecycle) {
        if fingerprint !in evaluations || !evaluations[fingerprint].Promotable() { return Err(NotPromotable); }
      }
      if lifecycle == Active {
        DemoteOthers(current);
      }
      var updated := current.(lifecycle := lifecycle);
      versions := versions[key := updated];
      r := Ok(updated);
    }

    method DemoteOthers(current: Manifest)
      modifies `versions
      ensures versions == Demote(old(versions), current)
    {
      var pending := versions.Keys;
      while pending != {}
        invariant versions.Keys == old(versions).Keys && pending <= versions.Keys
        invariant forall k | k in versions ::
                    versions[k] == if k in pending then old(versions)[k] else Demote(old(versions), current)[k]
        decreases |pending|
      {
        var key :| key in pending;
        var other := versions[key];
        if other.skillId == current.skillId && other.tenantId == current.tenantId
           && other.version != current.version && other.lifecycle == Active {
          versions := versions[key := other.(lifecycle := RolledBack)];
        }
        pending := pending - {key};
      }
    }

    method RecordEvaluation(evaluation: Evaluation) returns (error: Option<SkillError>)
      modifies this
      ensures Contents() == Step(hash, old(Contents()), Operation.RecordEvaluation(evaluation))
      ensures error.None? <==> KnownFingerprint(hash, old(Contents()), evaluation.skillFingerprint)
    {
      var known := set k | k in versions :: hash(versions[k].Fingerprinted());
      if evaluation.skillFingerprint !in known { return Some(UnknownFingerprint); }
      evaluations := evaluations[evaluation.skillFingerprint := evaluation];
      error := None;
    }

    method Invalidate(changed: set<string>) returns (affected: set<Key>)
      modifies `versions
      ensures Contents() == AfterInvalidation(old(Contents()), changed)
      ensures affected == set k | k in old(versions) && Drifted(old(versions)[k], changed)
    {
      ghost var before, target := versions, Quarantine(versions, changed);
      hide Quarantine;
      hide Drifted;
      QuarantinedKeys(before, changed);
      affected := {};
      var pending := versions.Keys;
      while pending != {}
        invariant versions.Keys == before.Keys && pending <= before.Keys
        invariant forall k | k in before :: versions[k] == if k in pending then before[k] else target[k]
        invariant forall k :: k in affected <==> k in before && k !in pending && Drifted(before[k], changed)
        decreases |pending|
      {
        var key :| key in pending;
        QuarantinedAt(before, changed, key);
        var item := versions[key];
        if Drifted(item, changed) {
          versions := versions[key := item.(lifecycle := Quarantined)];
          affected := affected + {key};
        }
        pending := pending - {key};
      }
      assert versions == target;
    }

    method Rollback(key: Key) returns (r: Result<Manifest, SkillError>)
      modifies this
      ensures Contents() == AfterRollback(hash, old(Contents()), key)
      ensures match RollbackError(hash, old(Contents()), key)
              case None => r.Ok? && key in old(versions) && r.value == old(versions)[key].(lifecycle := RolledBack)
              case Some(e) => r == Err(e)
    {
      var failed := Transition(key, RolledBack);
      if failed.Err? { return failed; }
      if failed.value.parentVersion.Some? {
        var parentKey := (key.0, failed.value.parentVersion.value);
        if parentKey !in versions { return Err(UnknownVersion); }
        var parent := versions[parentKey];
        var fingerprint := hash(parent.Fingerprinted());
        if fingerprint !in evaluations || !evaluations[fingerprint].Promotable() { return Err(ParentNotQualified); }
        versions := versions[parentKey := parent.(lifecycle := Active)];
      }
      r := failed;
    }

    method Disable(skillId: string) returns (error: Option<SkillError>)
      modifies this
      ensures Contents() == Step(hash, old(Contents()), Operation.Disable(skillId))
      ensures error == if KnownSkill(old(Contents()), skillId) then None else Some(UnknownSkill)
    {
      if !KnownSkill(Contents(), skillId) { return Some(UnknownSkill); }
      disabled := disabled + {skillId};
      error := None;
    }
  }

  // ----- At most one active version -----

  ghost predicate Keyed(s: State) {
    forall k | k in s.versions :: s.versions[k].Identity() == k
  }

  ghost predicate IsActive(s: State, k: Key) { k in s.versions && s.versions[k].lifecycle == Active }

  ghost predicate SameSkillKeys(s: State, j: Key, k: Key) {
    j in s.versions && k in s.versions && s.versions[j].SameSkill(s.versions[k])
  }

  /** At most one version per skill and tenant is active. */
  ghost predicate UniqueActive(s: State) {
    forall j, k | IsActive(s, j) && IsActive(s, k) && SameSkillKeys(s, j, k) :: j == k
  }

  /** No active version other than the two involved shares the parent's skill and tenant. */
  ghost predicate RollbackIsSafe(h: Hash, s: State, key: Key) {
    RollbackError(h, s, key).None? && s.versions[key].parentVersion.Some? ==>
      var parentKey := (key.0, s.versions[key].parentVersion.value);
      forall k | IsActive(s, k) && SameSkillKeys(s, k, parentKey) :: k == key || k == parentKey
  }

  ghost predicate RegistersInactive(op: Operation) { op.Register? ==> op.manifest.lifecycle != Active }

  /** The two states hold the same version at k, up to its lifecycle and evaluation record. */
  ghost predicate SameVersion(s: State, after: State, k: Key) {
    k in s.versions && k in after.versions && after.versions[k].Identity() == s.versions[k].Identity()
    && after.versions[k].Fingerprinted() == s.versions[k].Fingerprinted()
  }

  lemma StepKeepsVersion(h: Hash, s: State, op: Operation, k: Key)
    requires k in s.versions
    ensures SameVersion(s, Step(h, s, op), k)
  {
    hide Qualified;
    hide KnownFingerprint;
    hide KnownSkill;
  }

  lemma NewVersionIsRegistered(h: Hash, s: State, op: Operation, k: Key)
    requires k !in s.versions && k in Step(h, s, op).versions
    ensures op.Register? && k == op.manifest.Identity() && Step(h, s, op).versions[k] == op.manifest
  {
    hide Qualified;
    hide KnownFingerprint;
    hide KnownSkill;
  }

  lemma StepKeepsKeys(h: Hash, s: State, op: Operation)
    requires Keyed(s)
    ensures Keyed(Step(h, s, op))
  {
    var after := Step(h, s, op);
    forall k | k in after.versions ensures after.versions[k].Identity() == k {
      if k in s.versions { StepKeepsVersion(h, s, op, k); } else { NewVersionIsRegistered(h, s, op, k); }
    }
  }

  lemma TransitionKeepsUnique(h: Hash, s: State, key: Key, l: Lifecycle)
    requires Keyed(s) && UniqueActive(s)
    ensures UniqueActive(AfterTransition(h, s, key, l))
  {
    var after := AfterTransition(h, s, key, l);
    if after != s {
      var m := s.versions[key];
      hide Qualified;
      forall j, k | IsActive(after, j) && IsActive(after, k) && SameSkillKeys(after, j, k) ensures j == k {
        assert j != key ==> IsActive(s, j);
        assert k != key ==> IsActive(s, k);
        assert SameSkillKeys(s, j, k);
      }
    }
  }

  /** A rollback leaves at most one version active exactly when no third version of the
      parent's skill and tenant is active. */
  lemma RollbackKeepsUniqueIff(h: Hash, s: State, key: Key)
    requires Keyed(s) && UniqueActive(s)
    ensures UniqueActive(AfterRollback(h, s, key)) <==> RollbackIsSafe(h, s, key)
  {
    var after, withdrawn := AfterRollback(h, s, key), AfterTransition(h, s, key, RolledBack);
    TransitionKeepsUnique(h, s, key, RolledBack);
    if RollbackError(h, s, key).None? && s.versions[key].parentVersion.Some? {
      var parentKey := (key.0, s.versions[key].parentVersion.value);
      hide Qualified;
      assert IsActive(after, parentKey);
      assert forall k | k != key && k != parentKey :: IsActive(after, k) <==> IsActive(s, k);
      assert forall j, k :: SameSkillKeys(after, j, k) <==> SameSkillKeys(s, j, k);
      assert key != parentKey ==> !IsActive(after, key);
      if UniqueActive(after) {
        forall k | IsActive(s, k) && SameSkillKeys(s, k, parentKey) ensures k == key || k == parentKey {
          assert k != key && k != parentKey ==> IsActive(after, k) && SameSkillKeys(after, k, parentKey);
        }
      }
    }
  }

  /** Rolling back the active version to a parent of the same tenant is safe. */
  lemma RollbackOfActiveIsSafe(h: Hash, s: State, key: Key)
    requires Keyed(s) && UniqueActive(s) && IsActive(s, key)
    requires s.versions[key].parentVersion.Some? ==>
               var parentKey := (key.0, s.versions[key].parentVersion.value);
               parentKey in s.versions ==> s.versions[parentKey].tenantId == s.versions[key].tenantId
    ensures RollbackIsSafe(h, s, key)
  {
    if RollbackError(h, s, key).None? && s.versions[key].parentVersion.Some? {
      var parentKey := (key.0, s.versions[key].parentVersion.value);
      forall k | IsActive(s, k) && SameSkillKeys(s, k, parentKey) ensures k == key {
        assert SameSkillKeys(s, k, key);
      }
    }
  }

  ghost predicate Disciplined(h: Hash, ops: seq<Operation>) {
    && (forall op | op in ops :: RegistersInactive(op))
    && (forall i | 0 <= i < |ops| && ops[i].Rollback? :: RollbackIsSafe(h, Run(h, ops[..i]), ops[i].key))
  }

  lemma InvalidationKeepsUnique(s: State, changed: set<string>)
    requires UniqueActive(s)
    ensures UniqueActive(AfterInvalidation(s, changed))
  {
    var after := AfterInvalidation(s, changed);
    forall j, k | IsActive(after, j) && IsActive(after, k) && SameSkillKeys(after, j, k) ensures j == k {
      assert IsActive(s, j) && IsActive(s, k) && SameSkillKeys(s, j, k);
    }
  }

  lemma RegistrationKeepsUnique(h: Hash, s: State, m: Manifest)
    requires UniqueActive(s) && m.lifecycle != Active
    ensures UniqueActive(Step(h, s, Operation.Register(m)))
  {
    var after := Step(h, s, Operation.Register(m));
    forall j, k | IsActive(after, j) && IsActive(after, k) && SameSkillKeys(after, j, k) ensures j == k {
      assert IsActive(s, j) && IsActive(s, k) && SameSkillKeys(s, j, k);
    }
  }

  lemma StepKeepsUnique(h: Hash, s: State, op: Operation)
    requires Keyed(s) && UniqueActive(s)
    requires RegistersInactive(op) && (op.Rollback? ==> RollbackIsSafe(h, s, op.key))
    ensures UniqueActive(Step(h, s, op))
  {
    if op.RecordEvaluation? || op.Disable? {
      assert Step(h, s, op).versions == s.versions;
      SameVersionsSameUnique(s, Step(h, s, op));
    }
    hide UniqueActive;
    match op
    case Register(m) => RegistrationKeepsUnique(h, s, m);
    case Transition(key, l) => TransitionKeepsUnique(h, s, key, l);
    case Invalidate(changed) => InvalidationKeepsUnique(s, changed);
    case Rollback(key) => RollbackKeepsUniqueIff(h, s, key);
    case _ =>
  }

  lemma SameVersionsSameUnique(s: State, t: State)
    requires s.versions == t.versions && UniqueActive(s)
    ensures UniqueActive(t)
  {
    forall j, k | IsActive(t, j) && IsActive(t, k) && SameSkillKeys(t, j, k) ensures j == k {
      assert IsActive(s, j) && IsActive(s, k) && SameSkillKeys(s, j, k);
    }
  }

  lemma DisciplinedPrefix(h: Hash, front: seq<Operation>, op: Operation)
    requires Disciplined(h, front + [op])
    ensures Disciplined(h, front) && RegistersInactive(op) && (op.Rollback? ==>
        RollbackIsSafe(h, Run(h, front), op.key))
  {
    hide Run;
    hide RollbackIsSafe;
    var ops := front + [op];
    assert ops[|front|] == op && ops[..|front|] == front;
    assert forall i | 0 <= i < |front| :: ops[..i] == front[..i] && ops[i] == front[i];
    assert forall o | o in front :: o in ops;
  }

  /** Over every run that registers inactive versions and rolls back only when it is safe,
      at most one version per skill and tenant is active. */
  lemma {:induction false} AtMostOneActive(h: Hash, ops: seq<Operation>)
    requires Disciplined(h, ops)
    ensures Keyed(Run(h, ops)) && UniqueActive(Run(h, ops))
  {
    if ops != [] {
      var front, op := ops[..|ops| - 1], ops[|ops| - 1];
      assert ops == front + [op];
      assert Run(h, ops) == Step(h, Run(h, front), op);
      hide *;
      DisciplinedPrefix(h, front, op);
      AtMostOneActive(h, front);
      StepKeepsKeys(h, Run(h, front), op);
      StepKeepsUnique(h, Run(h, front), op);
    }
  }

  /** What an agent may use: at most one version of each skill. */
  function ActiveKeys(s: State, tenantId: string, domain: string, permissions: set<string>): set<Key> {
    set k | k in s.versions && s.versions[k].lifecycle == Active && s.versions[k].skillId !in s.disabled
            && s.versions[k].tenantId == tenantId && domain in s.versions[k].content.domains
            && s.versions[k].content.permissions <= permissions
  }

  lemma OneVersionPerSkill(h: Hash, ops: seq<Operation>, tenantId: string, domain: string, permissions: set<string>)
    requires Disciplined(h, ops)
    ensures var keys := ActiveKeys(Run(h, ops), tenantId, domain, permissions);
            forall j, k | j in keys && k in keys && j.0 == k.0 :: j == k
  {
    AtMostOneActive(h, ops);
    var s := Run(h, ops);
    var keys := ActiveKeys(s, tenantId, domain, permissions);
    forall j, k | j in keys && k in keys && j.0 == k.0 ensures j == k {
      assert s.versions[j].Identity() == j && s.versions[k].Identity() == k;
      assert IsActive(s, j) && IsActive(s, k) && SameSkillKeys(s, j, k);
    }
  }

  // ----- The stages a version goes through -----

  /** A stage a version entered, and whether a promotable evaluation was recorded then. */
  datatype Visit = Visit(lifecycle: Lifecycle, qualified: bool)

  /** The stages of one version over a run, in order; staying in a stage adds no visit. */
  function Visits(h: Hash, ops: seq<Operation>, key: Key): seq<Visit> {
    if ops == [] then []
    else
      Visits(h, ops[..|ops| - 1], key) + NewVisit(h, Run(h, ops[..|ops| - 1]), Run(h, ops), key)
  }

  function NewVisit(h: Hash, before: State, after: State, key: Key): (r: seq<Visit>)
    ensures |r| <= 1
  {
    if key in after.versions
        && (key !in before.versions || after.versions[key].lifecycle != before.versions[key].lifecycle)
    then [Visit(after.versions[key].lifecycle, Qualified(h, before, after.versions[key]))]
    else []
  }

  function StageOf(i: nat): Lifecycle
    requires i < 6
  {
    [Draft, Sandboxed, Evaluated, Shadow, Canary, Active][i]
  }

  /** One stage after another: forward, withdrawn, or restored as the parent of a rollback. */
  predicate FollowsOn(l: Lifecycle, next: Lifecycle) {
    Forward(l) == Some(next) || Withdrawn(next) || next == Active
  }

  ghost predicate Orderly(visits: seq<Visit>) {
    && (visits != [] ==> visits[0].lifecycle == Draft)
    && (forall i | 0 < i < |visits| :: FollowsOn(visits[i - 1].lifecycle, visits[i].lifecycle))
    && (forall v | v in visits && Gated(v.lifecycle) :: v.qualified)
  }

  ghost predicate RegistersDrafts(ops: seq<Operation>) {
    forall op | op in ops && op.Register? :: op.manifest.lifecycle == Draft
  }

  lemma StepFollowsOn(h: Hash, s: State, op: Operation, key: Key)
    requires Keyed(s) && key in s.versions
    ensures var after := Step(h, s, op);
            && key in after.versions
            && (after.versions[key].lifecycle != s.versions[key].lifecycle ==>
                  && FollowsOn(s.versions[key].lifecycle, after.versions[key].lifecycle)
                  && (Gated(after.versions[key].lifecycle) ==> Qualified(h, s, after.versions[key])))
  {
  }

  /** Over every run that registers drafts, the stages of every version follow on from one
      another, and SHADOW, CANARY and ACTIVE were entered on a promotable evaluation. */
  lemma {:induction false} VisitsAreOrderly(h: Hash, ops: seq<Operation>, key: Key)
    requires RegistersDrafts(ops)
    ensures Keyed(Run(h, ops)) && Orderly(Visits(h, ops, key))
    ensures key in Run(h, ops).versions <==> Visits(h, ops, key) != []
    ensures key in Run(h, ops).versions ==>
              var visits := Visits(h, ops, key); visits[|visits| - 1].lifecycle == Run(h, ops).versions[key].lifecycle
  {
    if ops != [] {
      var front, op := ops[..|ops| - 1], ops[|ops| - 1];
      assert ops == front + [op];
      VisitsAreOrderly(h, front, key);
      var s, after, visits := Run(h, front), Run(h, ops), Visits(h, front, key);
      assert after == Step(h, s, op);
      var last := NewVisit(h, s, after, key);
      assert Visits(h, ops, key) == visits + last;
      assert op in ops;
      hide Run;
      hide Visits;
      hide Orderly;
      StepKeepsKeys(h, s, op);
      NewVisitFollowsOn(h, s, op, key);
      hide *;
      VisitAppended(visits, last);
    }
  }

  lemma NewVisitFollowsOn(h: Hash, s: State, op: Operation, key: Key)
    requires Keyed(s) && (op.Register? ==> op.manifest.lifecycle == Draft)
    ensures var after := Step(h, s, op); var last := NewVisit(h, s, after, key);
            && (key in s.versions ==> key in after.versions)
            && (key in after.versions && last == [] ==>
                  key in s.versions && after.versions[key].lifecycle == s.versions[key].lifecycle)
            && (last != [] ==>
                  && key in after.versions && last[0].lifecycle == after.versions[key].lifecycle
                  && (if key in s.versions then FollowsOn(s.versions[key].lifecycle, last[0].lifecycle)
                      else last[0].lifecycle == Draft)
                  && (Gated(last[0].lifecycle) ==> last[0].qualified))
  {
    if key in s.versions {
      StepFollowsOn(h, s, op, key);
    } else if key in Step(h, s, op).versions {
      NewVersionIsRegistered(h, s, op, key);
    }
    hide Step;
    hide FollowsOn;
  }

  lemma VisitAppended(visits: seq<Visit>, last: seq<Visit>)
    requires Orderly(visits) && |last| <= 1
    requires last != [] ==> if visits == [] then last[0].lifecycle == Draft
                            else FollowsOn(visits[|visits| - 1].lifecycle, last[0].lifecycle)
    requires last != [] && Gated(last[0].lifecycle) ==> last[0].qualified
    ensures Orderly(visits + last)
  {
    hide FollowsOn;
    hide Gated;
    var all := visits + last;
    forall i | 0 < i < |all| ensures FollowsOn(all[i - 1].lifecycle, all[i].lifecycle) {
      if i < |visits| { assert all[i - 1] == visits[i - 1] && all[i] == visits[i]; }
    }
  }

  /** A version reaches a stage of the chain only through all the stages before it: an early
      stage is found only at its own place, and ACTIVE entered from CANARY is the sixth. */
  lemma {:induction false} EveryStageInOrder(visits: seq<Visit>, i: nat, stage: nat)
    requires Orderly(visits) && i < |visits| && stage < 6 && visits[i].lifecycle == StageOf(stage)
    requires stage == 5 ==> i > 0 && visits[i - 1].lifecycle == Canary
    ensures i == stage && forall j | 0 <= j <= i :: visits[j].lifecycle == StageOf(j)
  {
    if i > 0 {
      assert FollowsOn(visits[i - 1].lifecycle, visits[i].lifecycle);
      if stage == 0 {
        assert false;
      } else {
        EveryStageInOrder(visits, i - 1, stage - 1);
      }
    }
  }

  /** A version promoted to ACTIVE by a transition has passed every stage in order, and was
      qualified at SHADOW, at CANARY and at the promotion. */
  lemma PromotedThroughEveryStage(h: Hash, ops: seq<Operation>, key: Key)
    requires RegistersDrafts(ops)
    requires key in Run(h, ops).versions && Run(h, ops).versions[key].lifecycle != Active
    requires TransitionError(h, Run(h, ops), key, Active).None?
    ensures var visits := Visits(h, ops, key);
            && |visits| == 5 && (forall j | 0 <= j < 5 :: visits[j].lifecycle == StageOf(j))
            && visits[3].qualified && visits[4].qualified
    ensures Qualified(h, Run(h, ops), Run(h, ops).versions[key])
  {
    VisitsAreOrderly(h, ops, key);
    var visits := Visits(h, ops, key);
    OnlyCanaryActivates(h, Run(h, ops), key);
    hide *;
    EveryStageInOrder(visits, |visits| - 1, 4);
    QualifiedVisit(visits, 3);
    QualifiedVisit(visits, 4);
  }

  lemma OnlyCanaryActivates(h: Hash, s: State, key: Key)
    requires key in s.versions && s.versions[key].lifecycle != Active && TransitionError(h, s, key, Active).None?
    ensures s.versions[key].lifecycle == Canary == StageOf(4) && Qualified(h, s, s.versions[key])
  {
  }

  lemma QualifiedVisit(visits: seq<Visit>, i: nat)
    requires Orderly(visits) && i < |visits| && 3 <= i < 6 && visits[i].lifecycle == StageOf(i)
    ensures visits[i].qualified
  {
    assert visits[i] in visits;
  }
}
