/** Authorization-first selection: deduplication, authorization, Pareto pruning and the
    lexicographic choice among the survivors. */
module Controller {
  import opened Wrappers
  import Cognition
  import Sorting
  import Text

  datatype ActionType =
    | Reason | Continue | Branch | Verify | Retrieve | ObserveOrTest | Ask
    | Repair | ReuseSkill | Restructure | Escalate | Resume | Stop | Abstain

  datatype RiskClass = LowRisk | MediumRisk | HighRisk | CriticalRisk {
    function Order(): nat {
      match this
      case LowRisk => 1
      case MediumRisk => 2
      case HighRisk => 3
      case CriticalRisk => 4
    }
  }

  datatype OutcomeVector = OutcomeVector(
    qualityGain: real, informationGain: real, confidenceGain: real,
    monetaryCost: real, computeCost: real, latencyMs: real,
    epistemicRisk: real, safetyRisk: real, privacyRisk: real,
    reversibility: real, sideEffectMagnitude: real)

  /** The `no_op_decision` entry of a proposal's metadata. */
  datatype NoOp = NoNoOp | ProperNoOp | MalformedNoOp

  datatype Candidate = Candidate(
    proposalId: string,
    taskId: string,
    actionType: ActionType,
    preconditions: seq<string>,
    expectedEffects: seq<string>,
    evidenceRequirements: seq<string>,
    estimatedCost: real,
    estimatedLatencyMs: int,
    risk: RiskClass,
    reversible: bool,
    noOp: NoOp,
    prediction: OutcomeVector,
    uncertainty: real,
    requiredPermissions: set<string>,
    preconditionsSatisfied: bool,
    shadowPrediction: Option<OutcomeVector>)

  datatype Context = Context(
    taskId: string,
    riskClass: RiskClass,
    candidates: seq<Candidate>,
    availableBudget: real,
    deadlineRemainingMs: int,
    grantedPermissions: set<string>,
    allowedActions: set<ActionType>,
    stopAuthorized: bool)

  datatype ReasonCode =
    | Duplicate | ParetoDominated
    | TaskMismatch | ActionNotAllowed | RiskLimit | CostBudget | Deadline | Permission | Precondition
    | StopNotAuthorized | StopNoOpConflation | InvalidNoOpDecision

  datatype Rejection = Rejection(proposalId: string, reasons: seq<ReasonCode>)

  datatype Decision = Decision(
    selected: Option<Candidate>,
    alternatives: seq<Candidate>,
    rejections: seq<Rejection>,
    survivors: seq<string>,
    shadowLog: seq<(string, OutcomeVector)>)

  // ----- Pareto pruning -----

  function Objectives(v: OutcomeVector): seq<real> {
    [v.qualityGain, v.informationGain, v.confidenceGain,
     -v.monetaryCost, -v.computeCost, -v.latencyMs,
     -v.epistemicRisk, -v.safetyRisk, -v.privacyRisk,
     v.reversibility, -v.sideEffectMagnitude]
  }

  predicate Dominates(left: OutcomeVector, right: OutcomeVector) {
    var l, r := Objectives(left), Objectives(right);
    (forall i | 0 <= i < |l| :: l[i] >= r[i]) && (exists i | 0 <= i < |l| :: l[i] > r[i])
  }

  predicate Dominated(c: Candidate, all: seq<Candidate>) {
    exists o | o in all :: Dominates(o.prediction, c.prediction)
  }

  function KeepUndominated(cs: seq<Candidate>, all: seq<Candidate>): seq<Candidate> {
    if cs == [] then []
    else (if Dominated(cs[0], all) then [] else [cs[0]]) + KeepUndominated(cs[1..], all)
  }

  /** No candidate dominates itself, so comparing with every candidate is comparing with
      every other one. */
  function ParetoPrune(cs: seq<Candidate>): seq<Candidate> { KeepUndominated(cs, cs) }

  lemma DominanceIrreflexive(v: OutcomeVector)
    ensures !Dominates(v, v)
  {
  }

  lemma DominanceTransitive(a: OutcomeVector, b: OutcomeVector, c: OutcomeVector)
    requires Dominates(a, b) && Dominates(b, c)
    ensures Dominates(a, c)
  {
    var x, y, z := Objectives(a), Objectives(b), Objectives(c);
    var i :| 0 <= i < |x| && x[i] > y[i];
    hide Objectives;
    assert |x| == |y| == |z|;
    assert x[i] > z[i];
    forall k | 0 <= k < |x| ensures x[k] >= z[k] { assert x[k] >= y[k] && y[k] >= z[k]; }
  }

  lemma {:induction false} KeepUndominatedSpec(cs: seq<Candidate>, all: seq<Candidate>)
    ensures forall c :: c in KeepUndominated(cs, all) <==> c in cs && !Dominated(c, all)
  {
    hide Dominated;
    if cs != [] {
      KeepUndominatedSpec(cs[1..], all);
      assert cs == [cs[0]] + cs[1..];
    }
  }

  ghost function Dominators(c: Candidate, all: seq<Candidate>): set<Candidate> {
    set o | o in all && Dominates(o.prediction, c.prediction)
  }

  /** Every pruned candidate is dominated by some survivor. */
  lemma {:induction false} PrunedIsDominatedBySurvivor(c: Candidate, all: seq<Candidate>) returns (s: Candidate)
    requires c in all && c !in ParetoPrune(all)
    ensures s in ParetoPrune(all) && Dominates(s.prediction, c.prediction)
    decreases |Dominators(c, all)|
  {
    KeepUndominatedSpec(all, all);
    var o :| o in all && Dominates(o.prediction, c.prediction);
    if o in ParetoPrune(all) {
      s := o;
    } else {
      hide Dominates;
      forall p | p in Dominators(o, all) ensures p in Dominators(c, all) {
        DominanceTransitive(p.prediction, o.prediction, c.prediction);
      }
      DominanceIrreflexive(o.prediction);
      assert o in Dominators(c, all) && o !in Dominators(o, all);
      SmallerSet(Dominators(o, all), Dominators(c, all), o);
      s := PrunedIsDominatedBySurvivor(o, all);
      DominanceTransitive(s.prediction, o.prediction, c.prediction);
    }
  }

  lemma SmallerSet<T>(a: set<T>, b: set<T>, x: T)
    requires a <= b && x in b && x !in a
    ensures |a| < |b|
  {
    assert |b| == |a| + |b - a| by { assert b == a + (b - a); }
    assert x in b - a;
  }

  // ----- The lexicographic key -----

  function Key(c: Candidate): seq<real> {
    var v := c.prediction;
    [v.safetyRisk, v.privacyRisk, v.epistemicRisk + c.uncertainty, v.sideEffectMagnitude, -v.reversibility,
     -(v.qualityGain + v.informationGain + v.confidenceGain), v.monetaryCost, v.computeCost, v.latencyMs]
  }

  predicate RealsLeq(a: seq<real>, b: seq<real>) {
    a == [] || (b != [] && (if a[0] == b[0] then RealsLeq(a[1..], b[1..]) else a[0] < b[0]))
  }

  /** Numbers first, then the proposal identifier. */
  predicate CandidateLeq(a: Candidate, b: Candidate) {
    if Key(a) == Key(b) then Text.StringLeq(a.proposalId, b.proposalId) else RealsLeq(Key(a), Key(b))
  }

  /** The first candidate is chosen over the second: the smaller safety risk, on a tie the smaller
      privacy risk, then the smaller epistemic risk and uncertainty together, the smaller side
      effect, the greater reversibility, the greater total gain, the smaller monetary cost,
      compute cost and latency, and in the end the identifier that comes first. */
  ghost predicate ChosenOver(a: Candidate, b: Candidate) {
    var v, w := a.prediction, b.prediction;
    var doubt, otherDoubt := v.epistemicRisk + a.uncertainty, w.epistemicRisk + b.uncertainty;
    var gain, otherGain :=
      v.qualityGain + v.informationGain + v.confidenceGain, w.qualityGain + w.informationGain + w.confidenceGain;
    if v.safetyRisk != w.safetyRisk then v.safetyRisk < w.safetyRisk
    else if v.privacyRisk != w.privacyRisk then v.privacyRisk < w.privacyRisk
    else if doubt != otherDoubt then doubt < otherDoubt
    else if v.sideEffectMagnitude != w.sideEffectMagnitude then v.sideEffectMagnitude < w.sideEffectMagnitude
    else if v.reversibility != w.reversibility then v.reversibility > w.reversibility
    else if gain != otherGain then gain > otherGain
    else if v.monetaryCost != w.monetaryCost then v.monetaryCost < w.monetaryCost
    else if v.computeCost != w.computeCost then v.computeCost < w.computeCost
    else if v.latencyMs != w.latencyMs then v.latencyMs < w.latencyMs
    else Text.StringLeq(a.proposalId, b.proposalId)
  }

  /** The lists of numbers agree with the chain of tie-breaks. */
  lemma KeyOrderIsChosenOver(a: Candidate, b: Candidate)
    ensures CandidateLeq(a, b) <==> ChosenOver(a, b)
  {
    var x, y := Key(a), Key(b);
    assert |x| == |y| == 9;
    FirstDifference(x, y);
    assert x == y <==> forall i | 0 <= i < 9 :: x[i] == y[i];
    hide RealsLeq;
  }

  /** Lists of the same length compare by their first difference. */
  lemma FirstDifference(x: seq<real>, y: seq<real>)
    requires |x| == |y| == 9
    ensures RealsLeq(x, y) <==>
              if x[0] != y[0] then x[0] < y[0] else if x[1] != y[1] then x[1] < y[1]
              else if x[2] != y[2] then x[2] < y[2] else if x[3] != y[3] then x[3] < y[3]
              else if x[4] != y[4] then x[4] < y[4] else if x[5] != y[5] then x[5] < y[5]
              else if x[6] != y[6] then x[6] < y[6] else if x[7] != y[7] then x[7] < y[7]
              else x[8] <= y[8]
  {
    CompareFrom(x, y, 0);
    CompareFrom(x, y, 1);
    CompareFrom(x, y, 2);
    CompareFrom(x, y, 3);
    CompareFrom(x, y, 4);
    CompareFrom(x, y, 5);
    CompareFrom(x, y, 6);
    CompareFrom(x, y, 7);
    CompareFrom(x, y, 8);
    assert x[0..] == x && y[0..] == y;
    assert RealsLeq(x[9..], y[9..]);
    hide RealsLeq;
  }

  lemma CompareFrom(x: seq<real>, y: seq<real>, i: nat)
    requires i < |x| == |y|
    ensures RealsLeq(x[i..], y[i..]) <==> if x[i] == y[i] then RealsLeq(x[i + 1..], y[i + 1..]) else x[i] < y[i]
  {
    assert x[i..][1..] == x[i + 1..] && y[i..][1..] == y[i + 1..];
  }

  lemma {:induction false} RealsLeqTotal(a: seq<real>, b: seq<real>)
    ensures RealsLeq(a, b) || RealsLeq(b, a)
    ensures RealsLeq(a, b) && RealsLeq(b, a) ==> a == b
    ensures RealsLeq(a, a)
  {
    if a != [] {
      RealsLeqTotal(a[1..], a[1..]);
      if b != [] {
        if a[0] == b[0] { RealsLeqTotal(a[1..], b[1..]); }
        assert a == [a[0]] + a[1..] && b == [b[0]] + b[1..];
      }
    }
  }

  lemma {:induction false} RealsLeqTransitive(a: seq<real>, b: seq<real>, c: seq<real>)
    requires RealsLeq(a, b) && RealsLeq(b, c)
    ensures RealsLeq(a, c)
  {
    if a != [] && b != [] && c != [] && a[0] == b[0] == c[0] {
      RealsLeqTransitive(a[1..], b[1..], c[1..]);
    }
  }

  lemma {:induction false} PointwiseLeq(a: seq<real>, b: seq<real>)
    requires |a| == |b| && forall i | 0 <= i < |a| :: a[i] <= b[i]
    ensures RealsLeq(a, b)
  {
    if a != [] {
      assert a[0] <= b[0];
      PointwiseLeq(a[1..], b[1..]);
    }
  }

  lemma CandidateLeqTotal(a: Candidate, b: Candidate)
    ensures CandidateLeq(a, b) || CandidateLeq(b, a)
  {
    RealsLeqTotal(Key(a), Key(b));
    Text.StringLeqTotal(a.proposalId, b.proposalId);
  }

  lemma CandidateLeqTransitive(a: Candidate, b: Candidate, c: Candidate)
    requires CandidateLeq(a, b) && CandidateLeq(b, c)
    ensures CandidateLeq(a, c)
  {
    var x, y, z := Key(a), Key(b), Key(c);
    RealsLeqTotal(x, y);
    RealsLeqTotal(y, z);
    hide Key;
    if x == y == z {
      Text.StringLeqTransitive(a.proposalId, b.proposalId, c.proposalId);
    } else {
      RealsLeqTransitive(x, y, z);
      hide RealsLeq;
      RealsLeqTotal(x, z);
    }
  }

  lemma CandidateOrder()
    ensures Sorting.TotalPreorder(CandidateLeq)
  {
    hide CandidateLeq;
    forall a, b ensures CandidateLeq(a, b) || CandidateLeq(b, a) { CandidateLeqTotal(a, b); }
    forall a, b, c | CandidateLeq(a, b) && CandidateLeq(b, c) ensures CandidateLeq(a, c) {
      CandidateLeqTransitive(a, b, c);
    }
  }

  /** What a dominating candidate needs for its key to come first: a strictly smaller safety or
      privacy risk, or no more epistemic risk and uncertainty together. */
  predicate RiskOrdered(a: Candidate, b: Candidate) {
    || a.prediction.safetyRisk < b.prediction.safetyRisk
    || a.prediction.privacyRisk < b.prediction.privacyRisk
    || a.prediction.epistemicRisk + a.uncertainty <= b.prediction.epistemicRisk + b.uncertainty
  }

  lemma DominanceComponents(a: OutcomeVector, b: OutcomeVector)
    ensures Dominates(a, b) <==>
      && a.qualityGain >= b.qualityGain && a.informationGain >= b.informationGain
          && a.confidenceGain >= b.confidenceGain
      && a.monetaryCost <= b.monetaryCost && a.computeCost <= b.computeCost && a.latencyMs <= b.latencyMs
      && a.epistemicRisk <= b.epistemicRisk && a.safetyRisk <= b.safetyRisk && a.privacyRisk <= b.privacyRisk
      && a.reversibility >= b.reversibility && a.sideEffectMagnitude <= b.sideEffectMagnitude
      && a != b
  {
    var l, r := Objectives(a), Objectives(b);
    assert l[0] == a.qualityGain && l[1] == a.informationGain && l[2] == a.confidenceGain && l[3] == -a.monetaryCost
        && l[4] == -a.computeCost && l[5] == -a.latencyMs && l[6] == -a.epistemicRisk && l[7] == -a.safetyRisk
        && l[8] == -a.privacyRisk && l[9] == a.reversibility && l[10] == -a.sideEffectMagnitude;
    assert r[0] == b.qualityGain && r[1] == b.informationGain && r[2] == b.confidenceGain && r[3] == -b.monetaryCost
        && r[4] == -b.computeCost && r[5] == -b.latencyMs && r[6] == -b.epistemicRisk && r[7] == -b.safetyRisk
        && r[8] == -b.privacyRisk && r[9] == b.reversibility && r[10] == -b.sideEffectMagnitude;
  }

  /** Domination and the key agree exactly when the risks are ordered. */
  lemma DominanceAgreesWithKeyIff(a: Candidate, b: Candidate)
    requires Dominates(a.prediction, b.prediction)
    ensures RealsLeq(Key(a), Key(b)) <==> RiskOrdered(a, b)
  {
    DominanceComponents(a.prediction, b.prediction);
    var x, y := Key(a), Key(b);
    assert x[0] == a.prediction.safetyRisk && y[0] == b.prediction.safetyRisk;
    assert x[1] == a.prediction.privacyRisk && y[1] == b.prediction.privacyRisk;
    assert x[2] == a.prediction.epistemicRisk + a.uncertainty && y[2] == b.prediction.epistemicRisk + b.uncertainty;
    assert forall i | 3 <= i < 9 :: x[i] <= y[i];
    hide Dominates;
    hide Key;
    KeyFromThird(x, y);
  }

  lemma KeyFromThird(x: seq<real>, y: seq<real>)
    requires |x| == 9 && |y| == 9 && x[0] <= y[0] && x[1] <= y[1] && forall i | 3 <= i < 9 :: x[i] <= y[i]
    ensures RealsLeq(x, y) <==> x[0] < y[0] || x[1] < y[1] || x[2] <= y[2]
  {
    var x1, y1, x2, y2 := x[1..], y[1..], x[2..], y[2..];
    assert x1[1..] == x2 && y1[1..] == y2;
    assert x2[1..] == x[3..] && y2[1..] == y[3..];
    PointwiseLeq(x[3..], y[3..]);
    assert RealsLeq(x2, y2) <==> x[2] <= y[2];
    assert RealsLeq(x1, y1) <==> x[1] < y[1] || x[2] <= y[2];
  }

  /** With equal uncertainties a dominating candidate comes strictly first. */
  lemma DominanceMeansEarlier(a: Candidate, b: Candidate)
    requires Dominates(a.prediction, b.prediction) && a.uncertainty == b.uncertainty
    ensures CandidateLeq(a, b) && !CandidateLeq(b, a)
  {
    DominanceComponents(a.prediction, b.prediction);
    DominanceAgreesWithKeyIff(a, b);
    var x, y := Key(a), Key(b);
    RealsLeqTotal(x, y);
    assert x != y by { KeysDiffer(a, b); }
  }

  lemma KeysDiffer(a: Candidate, b: Candidate)
    requires Dominates(a.prediction, b.prediction) && a.uncertainty == b.uncertainty
    ensures Key(a) != Key(b)
  {
    DominanceComponents(a.prediction, b.prediction);
    hide Dominates;
    var x, y, v, w := Key(a), Key(b), a.prediction, b.prediction;
    assert x[0] == v.safetyRisk && y[0] == w.safetyRisk && x[1] == v.privacyRisk && y[1] == w.privacyRisk;
    assert x[2] == v.epistemicRisk + a.uncertainty && y[2] == w.epistemicRisk + b.uncertainty;
    assert x[3] == v.sideEffectMagnitude && y[3] == w.sideEffectMagnitude && x[4] == -v.reversibility
        && y[4] == -w.reversibility;
    assert x[5] == -(v.qualityGain + v.informationGain + v.confidenceGain);
    assert y[5] == -(w.qualityGain + w.informationGain + w.confidenceGain);
    assert x[6] == v.monetaryCost && y[6] == w.monetaryCost && x[7] == v.computeCost && y[7] == w.computeCost;
    assert x[8] == v.latencyMs && y[8] == w.latencyMs;
  }

  /** Between two candidates of which the first dominates, pruning keeps the first even when
      its uncertainty puts the second first in the key order. */
  lemma UncertainSurvivor(a: Candidate, b: Candidate)
    requires Dominates(a.prediction, b.prediction) && !RiskOrdered(a, b)
    ensures ParetoPrune([a, b]) == [a] && !RealsLeq(Key(a), Key(b))
  {
    DominanceAgreesWithKeyIff(a, b);
    DominanceIrreflexive(a.prediction);
    if Dominates(b.prediction, a.prediction) { DominanceTransitive(a.prediction, b.prediction, a.prediction); }
    hide Dominates;
    hide Key;
    var all := [a, b];
    assert Dominated(b, all) by { assert a in all; }
    assert !Dominated(a, all);
    hide Dominated;
    assert all[1..] == [b] && [b][1..] == [];
    assert KeepUndominated([b], all) == [];
  }

  // ----- Deduplication and authorization -----

  /** What two proposals share when they mean the same action; tuples are sorted in the
      source, so only their multisets matter. */
  datatype Semantics = Semantics(
    taskId: string, actionType: ActionType,
    preconditions: multiset<string>, expectedEffects: multiset<string>, evidenceRequirements: multiset<string>,
    risk: RiskClass, reversible: bool, requiredPermissions: set<string>)

  function SemanticsOf(c: Candidate): Semantics {
    Semantics(c.taskId, c.actionType, multiset(c.preconditions), multiset(c.expectedEffects),
              multiset(c.evidenceRequirements), c.risk, c.reversible, c.requiredPermissions)
  }

  /** The two proposals ask for the same action, whatever the order of their conditions. */
  predicate SameMeaning(a: Candidate, b: Candidate) {
    && a.taskId == b.taskId && a.actionType == b.actionType && a.risk == b.risk && a.reversible == b.reversible
    && multiset(a.preconditions) == multiset(b.preconditions)
    && multiset(a.expectedEffects) == multiset(b.expectedEffects)
    && multiset(a.evidenceRequirements) == multiset(b.evidenceRequirements)
    && a.requiredPermissions == b.requiredPermissions
  }

  predicate Clashes(a: Candidate, b: Candidate) { a.proposalId == b.proposalId || SameMeaning(a, b) }

  lemma SameSemanticsIffSameMeaning(a: Candidate, b: Candidate)
    ensures SemanticsOf(a) == SemanticsOf(b) <==> SameMeaning(a, b)
  {
  }

  ghost predicate PairwiseDistinct(cs: seq<Candidate>) {
    forall i, j | 0 <= i < j < |cs| :: !Clashes(cs[i], cs[j])
  }

  predicate ClashesWithAny(cs: seq<Candidate>, c: Candidate) { exists u | u in cs :: Clashes(u, c) }

  /** Keeps a candidate unless it clashes with one kept before it. */
  function FirstComers(cs: seq<Candidate>): seq<Candidate> {
    if cs == [] then []
    else
      var kept, last := FirstComers(cs[..|cs| - 1]), cs[|cs| - 1];
      if ClashesWithAny(kept, last) then kept else kept + [last]
  }

  /** One rejection for each candidate that is not kept, in order. */
  function Duplicates(cs: seq<Candidate>): seq<Rejection> {
    if cs == [] then []
    else
      var front, last := cs[..|cs| - 1], cs[|cs| - 1];
      Duplicates(front)
      + (if ClashesWithAny(FirstComers(front), last) then [Rejection(last.proposalId, [Duplicate])] else [])
  }

  lemma AppendDistinct(cs: seq<Candidate>, c: Candidate)
    requires PairwiseDistinct(cs) && !ClashesWithAny(cs, c)
    ensures PairwiseDistinct(cs + [c])
  {
    hide Clashes;
    forall k | 0 <= k < |cs| ensures !Clashes(cs[k], c) { assert cs[k] in cs; }
  }

  lemma AppendClashes(cs: seq<Candidate>, c: Candidate, d: Candidate)
    ensures ClashesWithAny(cs, d) ==> ClashesWithAny(cs + [c], d)
    ensures ClashesWithAny(cs + [d], d)
  {
    assert Clashes(d, d) && d in cs + [d];
    hide Clashes;
    if ClashesWithAny(cs, d) {
      var u :| u in cs && Clashes(u, d);
      assert u in cs + [c];
    }
  }

  lemma {:induction false} FirstComersSpec(cs: seq<Candidate>)
    ensures PairwiseDistinct(FirstComers(cs))
    ensures forall c :: c in FirstComers(cs) ==> c in cs
    ensures forall c | c in cs :: ClashesWithAny(FirstComers(cs), c)
  {
    if cs != [] {
      var front, last := cs[..|cs| - 1], cs[|cs| - 1];
      assert cs == front + [last];
      FirstComersSpec(front);
      var kept, all := FirstComers(front), FirstComers(cs);
      assert all == if ClashesWithAny(kept, last) then kept else kept + [last];
      hide *;
      if !ClashesWithAny(kept, last) {
        AppendDistinct(kept, last);
        AppendClashes(kept, last, last);
        forall c | c in front ensures ClashesWithAny(all, c) { AppendClashes(kept, last, c); }
      }
    }
  }

  /** The seen sets hold exactly the identifiers and the meanings of the kept candidates. */
  ghost predicate SeenKeys(kept: seq<Candidate>, ids: set<string>, semantics: set<Semantics>) {
    && ids == (set u | u in kept :: u.proposalId)
    && semantics == (set u | u in kept :: SemanticsOf(u))
  }

  lemma SeenIffClashes(kept: seq<Candidate>, ids: set<string>, semantics: set<Semantics>, c: Candidate)
    requires SeenKeys(kept, ids, semantics)
    ensures c.proposalId in ids || SemanticsOf(c) in semantics <==> ClashesWithAny(kept, c)
    ensures SeenKeys(kept + [c], ids + {c.proposalId}, semantics + {SemanticsOf(c)})
  {
    forall u ensures SemanticsOf(u) == SemanticsOf(c) <==> SameMeaning(u, c) { SameSemanticsIffSameMeaning(u, c); }
    hide SameMeaning;
    hide SemanticsOf;
    hide SameMeaning;
    assert forall u :: u in kept + [c] <==> u in kept || u == c;
  }

  /** What has been kept and what rejected after the first `n` candidates. */
  ghost predicate Deduplicated(cs: seq<Candidate>, n: nat, kept: seq<Candidate>, rejected: seq<Rejection>) {
    n <= |cs| && kept == FirstComers(cs[..n]) && rejected == Duplicates(cs[..n]) && |kept| + |rejected| == n
  }

  lemma NextCandidate(cs: seq<Candidate>, n: nat, kept: seq<Candidate>, rejected: seq<Rejection>)
    requires n < |cs| && Deduplicated(cs, n, kept, rejected)
    ensures if ClashesWithAny(kept, cs[n])
            then Deduplicated(cs, n + 1, kept, rejected + [Rejection(cs[n].proposalId, [Duplicate])])
            else Deduplicated(cs, n + 1, kept + [cs[n]], rejected)
  {
    assert cs[..n + 1][..n] == cs[..n];
    hide ClashesWithAny;
  }

  lemma DeduplicatedEnds(cs: seq<Candidate>)
    ensures Deduplicated(cs, 0, [], []) && SeenKeys([], {}, {})
    ensures forall kept, rejected | Deduplicated(cs, |cs|, kept, rejected) ::
              kept == FirstComers(cs) && rejected == Duplicates(cs) && |kept| + |rejected| == |cs|
  {
    assert cs[..|cs|] == cs;
  }

  method ValidateAndDeduplicate(candidates: seq<Candidate>) returns (unique: seq<Candidate>, rejected: seq<Rejection>)
    ensures unique == FirstComers(candidates)
    ensures rejected == Duplicates(candidates)
    ensures |unique| + |rejected| == |candidates|
  {
    hide *;
    unique, rejected := [], [];
    var seenIds: set<string>, seenSemantics: set<Semantics> := {}, {};
    DeduplicatedEnds(candidates);
    for i := 0 to |candidates|
      invariant Deduplicated(candidates, i, unique, rejected)
      invariant SeenKeys(unique, seenIds, seenSemantics)
    {
      var c := candidates[i];
      NextCandidate(candidates, i, unique, rejected);
      SeenIffClashes(unique, seenIds, seenSemantics, c);
      if c.proposalId in seenIds || SemanticsOf(c) in seenSemantics {
        rejected := rejected + [Rejection(c.proposalId, [Duplicate])];
      } else {
        seenIds := seenIds + {c.proposalId};
        seenSemantics := seenSemantics + {SemanticsOf(c)};
        unique := unique + [c];
      }
    }
  }

  function When(failed: bool, code: ReasonCode): seq<ReasonCode> { if failed then [code] else [] }

  function AuthorizationReasons(c: Candidate, x: Context): seq<ReasonCode> {
    LimitReasons(c, x) + RuleReasons(c, x)
  }

  function LimitReasons(c: Candidate, x: Context): seq<ReasonCode> {
    When(c.taskId != x.taskId, TaskMismatch)
    + When(c.actionType !in x.allowedActions, ActionNotAllowed)
    + When(c.risk.Order() > x.riskClass.Order(), RiskLimit)
    + When(c.estimatedCost > x.availableBudget, CostBudget)
    + When(c.estimatedLatencyMs > x.deadlineRemainingMs, Deadline)
  }

  function RuleReasons(c: Candidate, x: Context): seq<ReasonCode> {
    When(!(c.requiredPermissions <= x.grantedPermissions), Permission)
    + When(!c.preconditionsSatisfied, Precondition)
    + When(c.actionType == Stop && !x.stopAuthorized, StopNotAuthorized)
    + When(c.actionType == Stop && c.noOp != NoNoOp, StopNoOpConflation)
    + When(c.actionType == Restructure && c.noOp == MalformedNoOp, InvalidNoOpDecision)
  }

  /** Of the same task, within the allowed actions, the risk limit, the budget, the deadline and the
      granted permissions, with stopping and restructuring properly justified. */
  predicate Authorized(c: Candidate, x: Context) {
    && c.taskId == x.taskId && c.actionType in x.allowedActions
    && c.risk.Order() <= x.riskClass.Order()
    && c.estimatedCost <= x.availableBudget && c.estimatedLatencyMs <= x.deadlineRemainingMs
    && c.requiredPermissions <= x.grantedPermissions && c.preconditionsSatisfied
    && (c.actionType == Stop ==> x.stopAuthorized && c.noOp == NoNoOp)
    && (c.actionType == Restructure ==> c.noOp != MalformedNoOp)
  }

  /** What each reason says about a candidate in its context. */
  ghost predicate Objection(c: Candidate, x: Context, r: ReasonCode) {
    match r
    case TaskMismatch => c.taskId != x.taskId
    case ActionNotAllowed => c.actionType !in x.allowedActions
    case RiskLimit => MoreSevere(c.risk, x.riskClass)
    case CostBudget => c.estimatedCost > x.availableBudget
    case Deadline => c.estimatedLatencyMs > x.deadlineRemainingMs
    case Permission => exists p :: p in c.requiredPermissions && p !in x.grantedPermissions
    case Precondition => !c.preconditionsSatisfied
    case StopNotAuthorized => c.actionType == Stop && !x.stopAuthorized
    case StopNoOpConflation => c.actionType == Stop && c.noOp != NoNoOp
    case InvalidNoOpDecision => c.actionType == Restructure && c.noOp == MalformedNoOp
    case Duplicate => false
    case ParetoDominated => false
  }

  ghost predicate MoreSevere(a: RiskClass, b: RiskClass) {
    match a
    case LowRisk => false
    case MediumRisk => b == LowRisk
    case HighRisk => b == LowRisk || b == MediumRisk
    case CriticalRisk => b != CriticalRisk
  }

  lemma LimitsAreObjections(c: Candidate, x: Context, r: ReasonCode)
    ensures r in LimitReasons(c, x) <==>
              r in {TaskMismatch, ActionNotAllowed, RiskLimit, CostBudget, Deadline} && Objection(c, x, r)
  {
  }

  lemma RulesAreObjections(c: Candidate, x: Context, r: ReasonCode)
    ensures r in RuleReasons(c, x) <==>
              && r in {Permission, Precondition, StopNotAuthorized, StopNoOpConflation, InvalidNoOpDecision}
              && Objection(c, x, r)
  {
  }

  /** The reasons given are exactly the objections that hold. */
  lemma ReasonsAreObjections(c: Candidate, x: Context)
    ensures forall r :: r in AuthorizationReasons(c, x) <==> Objection(c, x, r)
  {
    forall r ensures r in AuthorizationReasons(c, x) <==> Objection(c, x, r) {
      LimitsAreObjections(c, x, r);
      RulesAreObjections(c, x, r);
      assert r == Duplicate || r == ParetoDominated ==> !Objection(c, x, r);
      hide LimitReasons;
      hide RuleReasons;
      hide Objection;
    }
  }

  lemma NoReasonsIffAuthorized(c: Candidate, x: Context)
    ensures AuthorizationReasons(c, x) == [] <==> Authorized(c, x)
  {
  }

  /** The second context allows at least what the first allows, for the same task. */
  predicate AtLeastAsPermissive(x: Context, y: Context) {
    && x.taskId == y.taskId && x.allowedActions <= y.allowedActions
    && x.riskClass.Order() <= y.riskClass.Order()
    && x.availableBudget <= y.availableBudget && x.deadlineRemainingMs <= y.deadlineRemainingMs
    && x.grantedPermissions <= y.grantedPermissions && (x.stopAuthorized ==> y.stopAuthorized)
  }

  /** Granting more never adds a reason, so what was authorized stays authorized, in the same
      order; nothing in a context can override a candidate's own defects. */
  lemma {:induction false} PermissiveKeepsAuthorized(cs: seq<Candidate>, x: Context, y: Context)
    requires AtLeastAsPermissive(x, y)
    ensures FilterAuthorized(cs, x) == FilterAuthorized(FilterAuthorized(cs, y), x)
    ensures forall c, r | c in cs && r in AuthorizationReasons(c, y) :: r in AuthorizationReasons(c, x)
  {
    forall c, r | c in cs && r in AuthorizationReasons(c, y) ensures r in AuthorizationReasons(c, x) {
      ReasonStands(c, x, y, r);
    }
    if cs != [] {
      var front, last := cs[..|cs| - 1], cs[|cs| - 1];
      PermissiveKeepsAuthorized(front, x, y);
      assert Authorized(last, x) ==> Authorized(last, y);
      var kept := FilterAuthorized(front, y);
      assert (kept + [last])[..|kept|] == kept && kept + [] == kept;
      hide Authorized;
      hide AuthorizationReasons;
      assert FilterAuthorized(cs, y) == if Authorized(last, y) then kept + [last] else kept;
      assert FilterAuthorized(kept + [last], x)
          == FilterAuthorized(kept, x) + (if Authorized(last, x) then [last] else []);
      if !Authorized(last, x) { assert FilterAuthorized(front, x) + [] == FilterAuthorized(front, x); }
    }
  }

  lemma ReasonStands(c: Candidate, x: Context, y: Context, r: ReasonCode)
    requires AtLeastAsPermissive(x, y)
    ensures r in AuthorizationReasons(c, y) ==> r in AuthorizationReasons(c, x)
  {
  }

  // ----- Selection -----

  function FilterAuthorized(cs: seq<Candidate>, x: Context): seq<Candidate> {
    if cs == [] then []
    else
      var last := cs[|cs| - 1];
      FilterAuthorized(cs[..|cs| - 1], x) + (if Authorized(last, x) then [last] else [])
  }

  lemma {:induction false} FilterAuthorizedSpec(cs: seq<Candidate>, x: Context)
    ensures forall c :: c in FilterAuthorized(cs, x) <==> c in cs && Authorized(c, x)
    ensures PairwiseDistinct(cs) ==> PairwiseDistinct(FilterAuthorized(cs, x))
  {
    hide Authorized;
    hide Clashes;
    if cs != [] {
      var front := cs[..|cs| - 1];
      assert cs == front + [cs[|cs| - 1]];
      FilterAuthorizedSpec(front, x);
      if PairwiseDistinct(cs) {
        assert PairwiseDistinct(front);
        var last, kept := cs[|cs| - 1], FilterAuthorized(front, x);
        forall k | 0 <= k < |kept| ensures !Clashes(kept[k], last) {
          assert kept[k] in front;
          var i :| 0 <= i < |front| && front[i] == kept[k];
          assert !Clashes(cs[i], cs[|cs| - 1]);
        }
      }
    }
  }

  function Smallest(cs: seq<Candidate>): (c: Candidate)
    requires cs != []
    ensures c in cs
  {
    if |cs| == 1 then cs[0]
    else
      var rest := Smallest(cs[1..]);
      if CandidateLeq(cs[0], rest) then cs[0] else rest
  }

  lemma {:induction false} SmallestIsLeast(cs: seq<Candidate>)
    requires cs != []
    ensures forall c | c in cs :: CandidateLeq(Smallest(cs), c)
  {
    hide CandidateLeq;
    var m := Smallest(cs);
    CandidateLeqTotal(cs[0], cs[0]);
    if |cs| > 1 {
      var rest := Smallest(cs[1..]);
      SmallestIsLeast(cs[1..]);
      CandidateLeqTotal(cs[0], rest);
      forall c | c in cs ensures CandidateLeq(m, c) {
        if c in cs[1..] && m == cs[0] { CandidateLeqTransitive(m, rest, c); }
        if c !in cs[1..] { assert c == cs[0]; }
      }
    }
  }

  method PruneRejections(authorized: seq<Candidate>, survivors: seq<Candidate>) returns (rejections: seq<Rejection>)
    requires PairwiseDistinct(authorized)
    requires survivors == ParetoPrune(authorized)
    ensures |rejections| + |survivors| == |authorized|
    ensures PruningReported(authorized, rejections)
  {
    var survivorIds := set c | c in survivors :: c.proposalId;
    rejections := [];
    KeepUndominatedSpec(authorized, authorized);
    hide Dominated;
    for i := 0 to |authorized|
      invariant |rejections| + |KeepUndominated(authorized[..i], authorized)| == i
      invariant forall k | 0 <= k < i && Dominated(authorized[k], authorized) ::
                  Rejection(authorized[k].proposalId, [ParetoDominated]) in rejections
    {
      var c := authorized[i];
      KeptStep(authorized, i);
      assert c.proposalId in survivorIds <==> !Dominated(c, authorized) by {
        if c.proposalId in survivorIds {
          var s :| s in survivors && s.proposalId == c.proposalId;
          var k :| 0 <= k < |authorized| && authorized[k] == s;
          SameIdSamePlace(authorized, i, k);
        }
      }
      if c.proposalId !in survivorIds {
        rejections := rejections + [Rejection(c.proposalId, [ParetoDominated])];
      }
    }
    assert authorized[..|authorized|] == authorized;
  }

  lemma SameIdSamePlace(cs: seq<Candidate>, i: nat, k: nat)
    requires PairwiseDistinct(cs) && i < |cs| && k < |cs| && cs[i].proposalId == cs[k].proposalId
    ensures i == k
  {
  }

  lemma {:induction false} KeptAppend(cs: seq<Candidate>, c: Candidate, all: seq<Candidate>)
    ensures |KeepUndominated(cs + [c], all)| == |KeepUndominated(cs, all)| + (if Dominated(c, all) then 0 else 1)
  {
    hide Dominated;
    if cs == [] {
      assert [c][1..] == [];
    } else {
      KeptAppend(cs[1..], c, all);
      assert (cs + [c])[1..] == cs[1..] + [c];
    }
  }

  lemma KeptStep(all: seq<Candidate>, i: nat)
    requires i < |all|
    ensures |KeepUndominated(all[..i + 1], all)|
            == |KeepUndominated(all[..i], all)| + (if Dominated(all[i], all) then 0 else 1)
  {
    KeptAppend(all[..i], all[i], all);
    assert all[..i] + [all[i]] == all[..i + 1];
  }

  /** The choice among the authorized candidates: a proper selection if there is any, and
      every other authorized candidate as an alternative, in key order. */
  ghost predicate WellRanked(authorized: seq<Candidate>, selected: Option<Candidate>, alternatives: seq<Candidate>) {
    && (selected.None? <==> authorized == [])
    && (selected.Some? ==> SelectedProperly(selected.value, authorized))
    && multiset(alternatives + (if selected.Some? then [selected.value] else [])) == multiset(authorized)
    && Sorting.SortedBy(alternatives, CandidateLeq)
    && InChosenOrder(alternatives)
  }

  ghost predicate InChosenOrder(cs: seq<Candidate>) { forall i, j | 0 <= i < j < |cs| :: ChosenOver(cs[i], cs[j]) }

  method Rank(authorized: seq<Candidate>) returns (selected: Option<Candidate>, alternatives: seq<Candidate>)
    requires PairwiseDistinct(authorized)
    ensures WellRanked(authorized, selected, alternatives)
  {
    hide *;
    var survivors := ParetoPrune(authorized);
    SelectionProperties(authorized);
    selected := if survivors == [] then None else Some(Smallest(survivors));
    var sorted := Sorting.Sort(authorized, CandidateLeq);
    alternatives := if selected.None? then sorted else Others(sorted, selected.value);
    if selected.Some? { ProperlyAmong(selected.value, authorized); }
    AlternativesProperties(authorized, selected);
    SortedAsChosen(alternatives);
    RankedFromParts(authorized, selected, alternatives);
  }

  lemma ProperlyAmong(s: Candidate, authorized: seq<Candidate>)
    requires SelectedProperly(s, authorized)
    ensures s in authorized
  {
  }

  lemma RankedFromParts(authorized: seq<Candidate>, selected: Option<Candidate>, alternatives: seq<Candidate>)
    requires selected.None? <==> authorized == []
    requires selected.Some? ==> SelectedProperly(selected.value, authorized)
    requires multiset(alternatives + (if selected.Some? then [selected.value] else [])) == multiset(authorized)
    requires Sorting.SortedBy(alternatives, CandidateLeq) && InChosenOrder(alternatives)
    ensures WellRanked(authorized, selected, alternatives)
  {
    hide SelectedProperly;
    hide InChosenOrder;
    hide Sorting.SortedBy;
  }

  lemma SortedAsChosen(cs: seq<Candidate>)
    requires Sorting.SortedBy(cs, CandidateLeq)
    ensures InChosenOrder(cs)
  {
    hide ChosenOver;
    hide CandidateLeq;
    forall i, j | 0 <= i < j < |cs| ensures ChosenOver(cs[i], cs[j]) {
      assert CandidateLeq(cs[i], cs[j]);
      KeyOrderIsChosenOver(cs[i], cs[j]);
    }
  }

  /** Every refused candidate is reported with all its reasons. */
  ghost predicate RefusalsReported(cs: seq<Candidate>, x: Context, rejections: seq<Rejection>) {
    forall c | c in cs && !Authorized(c, x) ::
      && Rejection(c.proposalId, AuthorizationReasons(c, x)) in rejections
      && forall r :: r in AuthorizationReasons(c, x) <==> Objection(c, x, r)
  }

  ghost predicate PruningReported(cs: seq<Candidate>, rejections: seq<Rejection>) {
    forall c | c in cs && Dominated(c, cs) :: Rejection(c.proposalId, [ParetoDominated]) in rejections
  }

  lemma ReportsGrow(cs: seq<Candidate>, x: Context, rejections: seq<Rejection>, more: seq<Rejection>)
    requires forall r :: r in rejections ==> r in more
    ensures RefusalsReported(cs, x, rejections) ==> RefusalsReported(cs, x, more)
    ensures PruningReported(cs, rejections) ==> PruningReported(cs, more)
  {
  }

  method Select(x: Context) returns (d: Decision)
    // Nothing is lost: every input is rejected once or survives.
    ensures |x.candidates| == |d.rejections| + |d.survivors|
    ensures var unique := FirstComers(x.candidates);
            var authorized := FilterAuthorized(unique, x);
            && d.survivors == Identifiers(ParetoPrune(authorized))
            && WellRanked(authorized, d.selected, d.alternatives)
            && Duplicates(x.candidates) <= d.rejections
            && RefusalsReported(unique, x, d.rejections)
            && PruningReported(authorized, d.rejections)
            && ShadowsLogged(unique, d.shadowLog)
  {
    hide *;
    var unique, duplicates := ValidateAndDeduplicate(x.candidates);
    FirstComersSpec(x.candidates);
    var authorized, refused := AuthorizeAll(unique, x);
    FilterAuthorizedSpec(unique, x);
    var survivors := ParetoPrune(authorized);
    var selected, alternatives := Rank(authorized);
    var pruned := PruneRejections(authorized, survivors);
    var rejections := duplicates + refused + pruned;
    ReportsGrow(unique, x, refused, rejections);
    ReportsGrow(authorized, x, pruned, rejections);
    ShadowLogSpec(unique);
    d := Decision(selected, alternatives, rejections, Identifiers(survivors), ShadowLog(unique));
  }

  method AuthorizeAll(kept: seq<Candidate>, x: Context) returns (authorized: seq<Candidate>, rejections: seq<Rejection>)
    ensures authorized == FilterAuthorized(kept, x)
    ensures |rejections| + |authorized| == |kept|
    ensures RefusalsReported(kept, x, rejections)
  {
    hide AuthorizationReasons;
    hide Authorized;
    authorized, rejections := [], [];
    for i := 0 to |kept|
      invariant authorized == FilterAuthorized(kept[..i], x)
      invariant |rejections| + |authorized| == i
      invariant forall k | 0 <= k < i && !Authorized(kept[k], x) ::
                  Rejection(kept[k].proposalId, AuthorizationReasons(kept[k], x)) in rejections
    {
      var c := kept[i];
      NoReasonsIffAuthorized(c, x);
      assert kept[..i + 1][..i] == kept[..i];
      var reasons := AuthorizationReasons(c, x);
      if reasons != [] {
        rejections := rejections + [Rejection(c.proposalId, reasons)];
      } else {
        authorized := authorized + [c];
      }
    }
    assert kept[..|kept|] == kept;
    forall c: Candidate ensures forall r :: r in AuthorizationReasons(c, x) <==> Objection(c, x, r) {
      ReasonsAreObjections(c, x);
    }
    hide Objection;
  }

  function Identifiers(cs: seq<Candidate>): (r: seq<string>)
    ensures |r| == |cs|
  {
    seq(|cs|, i requires 0 <= i < |cs| => cs[i].proposalId)
  }

  function ShadowLog(cs: seq<Candidate>): seq<(string, OutcomeVector)> {
    if cs == [] then []
    else (if cs[0].shadowPrediction.Some? then [(cs[0].proposalId, cs[0].shadowPrediction.value)] else [])
         + ShadowLog(cs[1..])
  }

  /** The log holds exactly the shadow predictions there are, under their proposals. */
  ghost predicate ShadowsLogged(cs: seq<Candidate>, log: seq<(string, OutcomeVector)>) {
    forall id, v :: (id, v) in log <==> exists c :: c in cs && c.proposalId == id && c.shadowPrediction == Some(v)
  }

  lemma {:induction false} ShadowLogSpec(cs: seq<Candidate>)
    ensures ShadowsLogged(cs, ShadowLog(cs))
  {
    if cs != [] {
      ShadowLogSpec(cs[1..]);
      var own := if cs[0].shadowPrediction.Some? then [(cs[0].proposalId, cs[0].shadowPrediction.value)] else [];
      var rest := ShadowLog(cs[1..]);
      assert ShadowLog(cs) == own + rest;
      forall id, v ensures (id, v) in own + rest <==>
                           exists c :: c in cs && c.proposalId == id && c.shadowPrediction == Some(v)
      {
        assert (id, v) in own ==> cs[0] in cs;
        if c :| c in cs && c.proposalId == id && c.shadowPrediction == Some(v) {
          assert c == cs[0] || c in cs[1..];
        }
        if c :| c in cs[1..] && c.proposalId == id && c.shadowPrediction == Some(v) { assert c in cs; }
      }
    }
  }

  function Others(cs: seq<Candidate>, selected: Candidate): seq<Candidate> {
    if cs == [] then [] else (if cs[0] == selected then [] else [cs[0]]) + Others(cs[1..], selected)
  }

  /** An undominated authorized candidate, least among the undominated ones. It is least among
      all authorized candidates exactly when no candidate dominates the least of them, and so
      with equal uncertainties. */
  ghost predicate SelectedProperly(s: Candidate, authorized: seq<Candidate>) {
    && s in authorized && !Dominated(s, authorized)
    && (forall c | c in authorized && !Dominated(c, authorized) :: CandidateLeq(s, c) && ChosenOver(s, c))
    && (LeastOf(s, authorized) <==> !Dominated(Smallest(authorized), authorized))
    && (UniformUncertainty(authorized) ==> LeastOf(s, authorized))
    && (RisksOrdered(authorized) ==> forall c | c in authorized :: RealsLeq(Key(s), Key(c)))
  }

  ghost predicate LeastOf(s: Candidate, cs: seq<Candidate>) { forall c | c in cs :: CandidateLeq(s, c) }

  ghost predicate RisksOrdered(cs: seq<Candidate>) {
    forall a, b | a in cs && b in cs && Dominates(a.prediction, b.prediction) :: RiskOrdered(a, b)
  }

  ghost predicate UniformUncertainty(cs: seq<Candidate>) {
    forall a, b | a in cs && b in cs :: a.uncertainty == b.uncertainty
  }

  /** In every list of different candidates, pruning leaves the choice of the key order intact
      exactly when nothing dominates the least candidate. */
  lemma SelectedIsLeastIff(authorized: seq<Candidate>)
    requires PairwiseDistinct(authorized) && ParetoPrune(authorized) != []
    ensures LeastOf(Smallest(ParetoPrune(authorized)), authorized) <==> !Dominated(Smallest(authorized), authorized)
  {
    KeepUndominatedSpec(authorized, authorized);
    assert ParetoPrune(authorized)[0] in authorized;
    var survivors := ParetoPrune(authorized);
    var m, least := Smallest(survivors), Smallest(authorized);
    assert !Dominated(m, authorized) && m in authorized;
    SmallestIsLeast(survivors);
    SmallestIsLeast(authorized);
    if LeastOf(m, authorized) {
      assert CandidateLeq(m, least) && CandidateLeq(least, m);
      SamePlaceInOrder(m, least);
      assert m == least by { DistinctById(authorized, m, least); }
    }
    if !Dominated(least, authorized) {
      assert least in survivors;
      hide *;
      forall c | c in authorized ensures CandidateLeq(m, c) { CandidateLeqTransitive(m, least, c); }
      assert LeastOf(m, authorized) by { EveryLeast(m, authorized); }
    }
  }

  lemma EveryLeast(s: Candidate, cs: seq<Candidate>)
    requires forall c | c in cs :: CandidateLeq(s, c)
    ensures LeastOf(s, cs)
  {
  }

  lemma SamePlaceInOrder(a: Candidate, b: Candidate)
    requires CandidateLeq(a, b) && CandidateLeq(b, a)
    ensures a.proposalId == b.proposalId
  {
    RealsLeqTotal(Key(a), Key(b));
    Text.StringLeqTotal(a.proposalId, b.proposalId);
  }

  lemma DistinctById(cs: seq<Candidate>, a: Candidate, b: Candidate)
    requires PairwiseDistinct(cs) && a in cs && b in cs && a.proposalId == b.proposalId
    ensures a == b
  {
    var i :| 0 <= i < |cs| && cs[i] == a;
    var j :| 0 <= j < |cs| && cs[j] == b;
    SameIdSamePlace(cs, i, j);
  }

  lemma SelectionProperties(authorized: seq<Candidate>)
    requires PairwiseDistinct(authorized)
    ensures ParetoPrune(authorized) == [] <==> authorized == []
    ensures authorized != [] ==>
              ParetoPrune(authorized) != [] && SelectedProperly(Smallest(ParetoPrune(authorized)), authorized)
  {
    KeepUndominatedSpec(authorized, authorized);
    var survivors := ParetoPrune(authorized);
    if authorized != [] {
      if survivors == [] {
        assert authorized[0] !in survivors;
        var s := PrunedIsDominatedBySurvivor(authorized[0], authorized);
      }
      SmallestIsLeast(survivors);
      SelectedIsLeastIff(authorized);
      var m := Smallest(survivors);
      forall c | c in survivors ensures ChosenOver(m, c) { KeyOrderIsChosenOver(m, c); }
      hide ChosenOver;
      if UniformUncertainty(authorized) {
        forall c | c in authorized ensures CandidateLeq(m, c) { LeastWhenUniform(authorized, m, c); }
      }
      if RisksOrdered(authorized) {
        forall c | c in authorized ensures RealsLeq(Key(m), Key(c)) { LeastKeyWhenOrdered(authorized, m, c); }
      }
    }
  }

  lemma LeastWhenUniform(authorized: seq<Candidate>, m: Candidate, c: Candidate)
    requires UniformUncertainty(authorized) && c in authorized
    requires m in ParetoPrune(authorized) && forall s | s in ParetoPrune(authorized) :: CandidateLeq(m, s)
    ensures CandidateLeq(m, c)
  {
    if c !in ParetoPrune(authorized) {
      var s := PrunedIsDominatedBySurvivor(c, authorized);
      KeepUndominatedSpec(authorized, authorized);
      DominanceMeansEarlier(s, c);
      CandidateLeqTransitive(m, s, c);
    }
  }

  lemma LeastKeyWhenOrdered(authorized: seq<Candidate>, m: Candidate, c: Candidate)
    requires RisksOrdered(authorized)
    requires c in authorized
    requires m in ParetoPrune(authorized) && forall s | s in ParetoPrune(authorized) :: CandidateLeq(m, s)
    ensures RealsLeq(Key(m), Key(c))
  {
    KeepUndominatedSpec(authorized, authorized);
    RealsLeqTotal(Key(m), Key(m));
    if c in ParetoPrune(authorized) {
      assert CandidateLeq(m, c);
    } else {
      var s := PrunedIsDominatedBySurvivor(c, authorized);
      DominanceAgreesWithKeyIff(s, c);
      assert CandidateLeq(m, s) && RiskOrdered(s, c);
      hide Key;
      RealsLeqTransitive(Key(m), Key(s), Key(c));
    }
  }

  lemma {:induction false} OthersCount(cs: seq<Candidate>, s: Candidate)
    requires Sorting.NoDuplicates(cs)
    ensures multiset(Others(cs, s)) == multiset(cs) - multiset{s}
  {
    if cs != [] {
      var head, tail := cs[0], cs[1..];
      var rest := Others(tail, s);
      assert Others(cs, s) == if head == s then rest else [head] + rest;
      hide *;
      Sorting.NoDuplicatesTail(cs);
      OthersCount(tail, s);
      HeadAndTail(cs);
      if head == s {
        RemoveHead(multiset(tail), s);
      } else {
        KeepHead(multiset(tail), head, s);
        assert multiset([head] + rest) == multiset{head} + multiset(rest);
      }
    }
  }

  lemma RemoveHead<T>(tail: multiset<T>, s: T)
    requires s !in tail
    ensures tail - multiset{s} == (multiset{s} + tail) - multiset{s}
  {
  }

  lemma KeepHead<T>(tail: multiset<T>, head: T, s: T)
    requires head != s
    ensures multiset{head} + (tail - multiset{s}) == (multiset{head} + tail) - multiset{s}
  {
  }

  lemma {:induction false} OthersSorted(cs: seq<Candidate>, s: Candidate)
    requires Sorting.SortedBy(cs, CandidateLeq)
    ensures Sorting.SortedBy(Others(cs, s), CandidateLeq)
    ensures forall c :: c in Others(cs, s) ==> c in cs
  {
    if cs != [] {
      var head, tail := cs[0], cs[1..];
      Sorting.SortedTail(cs, CandidateLeq);
      OthersSorted(tail, s);
      HeadBeforeTail(cs, CandidateLeq);
      var rest := Others(tail, s);
      assert Others(cs, s) == if head == s then rest else [head] + rest;
      hide *;
      if head != s { PrependSorted(head, rest, CandidateLeq); }
    }
  }

  lemma HeadAndTail<T>(cs: seq<T>)
    requires cs != []
    ensures multiset(cs) == multiset{cs[0]} + multiset(cs[1..])
  {
    assert cs == [cs[0]] + cs[1..];
  }

  lemma HeadBeforeTail<T(!new)>(cs: seq<T>, leq: (T, T) -> bool)
    requires cs != [] && Sorting.SortedBy(cs, leq)
    ensures forall c | c in cs[1..] :: leq(cs[0], c)
  {
  }

  lemma PrependSorted<T(!new)>(head: T, rest: seq<T>, leq: (T, T) -> bool)
    requires Sorting.SortedBy(rest, leq) && forall c | c in rest :: leq(head, c)
    ensures Sorting.SortedBy([head] + rest, leq)
  {
  }

  lemma DistinctMeansNoDuplicates(cs: seq<Candidate>)
    requires PairwiseDistinct(cs)
    ensures Sorting.NoDuplicates(cs)
  {
    forall i, j | 0 <= i < j < |cs| ensures cs[i] != cs[j] { assert !Clashes(cs[i], cs[j]); }
  }

  lemma AlternativesProperties(authorized: seq<Candidate>, selected: Option<Candidate>)
    requires PairwiseDistinct(authorized)
    requires selected.Some? ==> selected.value in authorized
    ensures var sorted := Sorting.Sort(authorized, CandidateLeq);
            var alternatives := if selected.None? then sorted else Others(sorted, selected.value);
            && multiset(alternatives + (if selected.Some? then [selected.value] else [])) == multiset(authorized)
            && Sorting.SortedBy(alternatives, CandidateLeq)
  {
    hide *;
    var sorted := Sorting.Sort(authorized, CandidateLeq);
    CandidateOrder();
    Sorting.SortSorts(authorized, CandidateLeq);
    DistinctMeansNoDuplicates(authorized);
    Sorting.PermutationNoDuplicates(authorized, sorted);
    if selected.Some? {
      OthersCount(sorted, selected.value);
      OthersSorted(sorted, selected.value);
      WithAndWithout(authorized, sorted, Others(sorted, selected.value), selected.value);
    } else {
      assert sorted + [] == sorted;
    }
  }

  lemma WithAndWithout<T>(all: seq<T>, sorted: seq<T>, rest: seq<T>, s: T)
    requires s in all && multiset(sorted) == multiset(all) && multiset(rest) == multiset(sorted) - multiset{s}
    ensures multiset(rest + [s]) == multiset(all)
  {
    assert s in multiset(all);
  }

  // ----- Lifecycle authorization -----

  /** The states from which an action can be driven to AUTHORIZED. */
  predicate BeforeAuthorized(current: Option<Cognition.ActionState>) {
    || current.None?
    || current.value in {Cognition.Proposed, Cognition.Validated, Cognition.PolicyChecked}
  }

  ghost predicate OthersUnmoved(s: Cognition.State, t: Cognition.State, actionId: string) {
    forall other | other != actionId :: Cognition.CurrentAction(t, other) == Cognition.CurrentAction(s, other)
  }

  /** Drives the selected action, if there is one, from wherever it is to AUTHORIZED. */
  method AuthorizeLifecycle(s: Cognition.State, d: Decision) returns (r: Result<Cognition.State, Cognition.StateError>)
    ensures d.selected.None? ==> r == Ok(s)
    ensures d.selected.Some? ==>
              var id := d.selected.value.proposalId;
              var current := Cognition.CurrentAction(s, id);
              && (r.Ok? <==> current == Some(Cognition.Authorized) || (id != "" && BeforeAuthorized(current)))
              && (r.Ok? ==> Cognition.CurrentAction(r.value, id) == Some(Cognition.Authorized))
              && (r.Ok? ==> OthersUnmoved(s, r.value, id))
    ensures r.Ok? && Cognition.LogExplainsActions(s) ==> Cognition.LogExplainsActions(r.value)
    ensures r.Ok? ==> r.value.items == s.items && r.value.views == s.views
  {
    if d.selected.None? { return Ok(s); }
    r := DriveToAuthorized(s, d.selected.value.proposalId);
  }

  method DriveToAuthorized(s: Cognition.State, actionId: string)
    returns (r: Result<Cognition.State, Cognition.StateError>)
    ensures r.Ok? <==>
              || Cognition.CurrentAction(s, actionId) == Some(Cognition.Authorized)
              || (actionId != "" && BeforeAuthorized(Cognition.CurrentAction(s, actionId)))
    ensures r.Ok? ==> Cognition.CurrentAction(r.value, actionId) == Some(Cognition.Authorized)
    ensures r.Ok? && Cognition.LogExplainsActions(s) ==> Cognition.LogExplainsActions(r.value)
    ensures r.Ok? ==> r.value.items == s.items && r.value.views == s.views
    ensures r.Ok? ==> OthersUnmoved(s, r.value, actionId)
  {
    var current := Cognition.CurrentAction(s, actionId);
    if current == Some(Cognition.Authorized) { return Ok(s); }
    var start := match current
      case Some(Proposed) => 1
      case Some(Validated) => 2
      case Some(PolicyChecked) => 3
      case _ => 0;
    var updated := s;
    hide Cognition.LogExplainsActions;
    for i := start to 4
      invariant i == start ==> updated == s
      invariant i > start ==> Cognition.CurrentAction(updated, actionId) == Some(Cognition.Stage(i - 1))
      invariant i > start ==> actionId != ""
      invariant i > start ==> current.None? || (start > 0 && current == Some(Cognition.Stage(start - 1)))
      invariant Cognition.LogExplainsActions(s) ==> Cognition.LogExplainsActions(updated)
      invariant updated.items == s.items && updated.views == s.views
      invariant OthersUnmoved(s, updated, actionId)
    {
      var next := Cognition.WithActionTransition(updated, actionId, Cognition.Stage(i));
      if next.Err? { return Err(next.error); }
      if Cognition.LogExplainsActions(updated) {
        Cognition.ActionTransitionKeepsLog(updated, actionId, Cognition.Stage(i));
      }
      updated := next.value;
    }
    r := Ok(updated);
  }
}
