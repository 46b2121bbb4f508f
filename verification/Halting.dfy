/** When to keep sampling and when to stop: the attempt budget and the four halting policies.
    Clustering of attempts is a parameter. */
module Halting {
  import opened Wrappers
  import Controller
  import Text

  datatype Action = Sample | Diversify | Verify | Retrieve | Ask | Stop | Abstain

  datatype Attempt = Attempt(attemptId: string, correlationGroup: string, tokens: nat, cost: real, latencyMs: nat) {
    predicate Valid() { attemptId != "" && cost >= 0.0 }
  }

  datatype Budget = Budget(
    maxAttempts: int, maxTokens: int, maxCost: real, maxTimeMs: int,
    maxSingleTokens: Option<int>, maxSingleCost: Option<real>, maxSingleTimeMs: Option<int>)
  {
    predicate Valid() { maxAttempts > 0 && maxTokens >= 0 && maxCost >= 0.0 && maxTimeMs >= 0 }
  }

  datatype Confidence = Confidence(calibrated: bool, lowerBound: Option<real>)

  datatype Context = Context(
    domain: string, riskClass: Controller.RiskClass, attempts: seq<Attempt>, budget: Budget,
    mandatoryChecksPassed: bool, outputContractSatisfied: bool, confidence: Option<Confidence>,
    criticalContradictions: seq<string>, missingInformation: seq<string>, ambiguousFields: seq<string>,
    calibrationShifted: bool,
    expectedActionValues: map<Action, real>, actionCosts: map<Action, real>, availableActions: set<Action>)

  datatype Cluster = Cluster(independentWeight: real, correlationGroups: set<string>)

  type Clustering = seq<Attempt> -> seq<Cluster>

  datatype ThresholdPolicy = ThresholdPolicy(domain: string, thresholds: map<Controller.RiskClass, real>)

  datatype HaltingError = InapplicableDomain | UncoveredRiskClass

  // ----- The budget -----

  function Tokens(attempts: seq<Attempt>): nat {
    if attempts == [] then 0 else Tokens(attempts[..|attempts| - 1]) + attempts[|attempts| - 1].tokens
  }

  function Cost(attempts: seq<Attempt>): real {
    if attempts == [] then 0.0 else Cost(attempts[..|attempts| - 1]) + attempts[|attempts| - 1].cost
  }

  function TimeMs(attempts: seq<Attempt>): nat {
    if attempts == [] then 0 else TimeMs(attempts[..|attempts| - 1]) + attempts[|attempts| - 1].latencyMs
  }

  datatype Tail = TokensTail(attemptId: string) | CostTail(attemptId: string) | TimeTail(attemptId: string)

  predicate TokensExceeded(b: Budget, a: Attempt) { b.maxSingleTokens.Some? && a.tokens > b.maxSingleTokens.value }
  predicate CostExceeded(b: Budget, a: Attempt) { b.maxSingleCost.Some? && a.cost > b.maxSingleCost.value }
  predicate TimeExceeded(b: Budget, a: Attempt) { b.maxSingleTimeMs.Some? && a.latencyMs > b.maxSingleTimeMs.value }

  predicate Oversized(b: Budget, a: Attempt) { TokensExceeded(b, a) || CostExceeded(b, a) || TimeExceeded(b, a) }

  predicate Exhausted(b: Budget, attempts: seq<Attempt>) {
    || |attempts| >= b.maxAttempts
    || Tokens(attempts) >= b.maxTokens
    || Cost(attempts) >= b.maxCost
    || TimeMs(attempts) >= b.maxTimeMs
    || exists a | a in attempts :: Oversized(b, a)
  }

  datatype BudgetStatus = BudgetStatus(
    attempts: nat, tokens: nat, cost: real, timeMs: nat, exhausted: bool, tailViolations: seq<Tail>)

  /** The status counts the tails: an attempt is listed once for each limit it breaks. */
  ghost predicate Describes(status: BudgetStatus, b: Budget, attempts: seq<Attempt>) {
    && status.attempts == |attempts| && status.tokens == Tokens(attempts)
    && status.cost == Cost(attempts) && status.timeMs == TimeMs(attempts)
    && (status.exhausted <==> Exhausted(b, attempts))
    && ListsTails(status.tailViolations, b, attempts)
  }

  /** The attempt breaks its own limit of the kind the tail names. */
  predicate Breaks(b: Budget, a: Attempt, t: Tail) {
    && a.attemptId == t.attemptId
    && match t
       case TokensTail(_) => b.maxSingleTokens.Some? && a.tokens > b.maxSingleTokens.value
       case CostTail(_) => b.maxSingleCost.Some? && a.cost > b.maxSingleCost.value
       case TimeTail(_) => b.maxSingleTimeMs.Some? && a.latencyMs > b.maxSingleTimeMs.value
  }

  ghost predicate ListsTails(tails: seq<Tail>, b: Budget, attempts: seq<Attempt>) {
    forall t :: t in tails <==> exists a | a in attempts :: Breaks(b, a, t)
  }

  function TailsOf(b: Budget, a: Attempt): seq<Tail> {
    (if TokensExceeded(b, a) then [TokensTail(a.attemptId)] else [])
    + (if CostExceeded(b, a) then [CostTail(a.attemptId)] else [])
    + (if TimeExceeded(b, a) then [TimeTail(a.attemptId)] else [])
  }

  lemma TailsOfAttempt(b: Budget, a: Attempt, t: Tail)
    ensures t in TailsOf(b, a) <==> Breaks(b, a, t)
  {
  }

  lemma TailsAppended(tails: seq<Tail>, b: Budget, attempts: seq<Attempt>, a: Attempt)
    requires ListsTails(tails, b, attempts)
    ensures ListsTails(tails + TailsOf(b, a), b, attempts + [a])
  {
    assert forall x :: x in attempts + [a] <==> x in attempts || x == a;
    forall t ensures t in TailsOf(b, a) <==> Breaks(b, a, t) { TailsOfAttempt(b, a, t); }
    hide TailsOf;
    hide Breaks;
  }

  lemma NoTailsIffNoneOversized(tails: seq<Tail>, b: Budget, attempts: seq<Attempt>)
    requires ListsTails(tails, b, attempts)
    ensures tails != [] <==> exists a | a in attempts :: Oversized(b, a)
  {
    if tails != [] {
      assert tails[0] in tails;
      var a :| a in attempts && Breaks(b, a, tails[0]);
      assert Oversized(b, a);
    }
    forall a | a in attempts && Oversized(b, a) ensures tails != [] {
      var id := a.attemptId;
      assert Breaks(b, a, TokensTail(id)) || Breaks(b, a, CostTail(id)) || Breaks(b, a, TimeTail(id));
      assert TokensTail(id) in tails || CostTail(id) in tails || TimeTail(id) in tails;
    }
  }

  method Status(b: Budget, attempts: seq<Attempt>) returns (status: BudgetStatus)
    ensures Describes(status, b, attempts)
  {
    var tokens, cost, timeMs := 0, 0.0, 0;
    var tails := [];
    hide ListsTails;
    assert ListsTails([], b, []) by { NoTails(b); }
    for i := 0 to |attempts|
      invariant tokens == Tokens(attempts[..i]) && cost == Cost(attempts[..i]) && timeMs == TimeMs(attempts[..i])
      invariant ListsTails(tails, b, attempts[..i])
    {
      var a := attempts[i];
      assert attempts[..i + 1] == attempts[..i] + [a] && attempts[..i + 1][..i] == attempts[..i];
      TailsAppended(tails, b, attempts[..i], a);
      tokens, cost, timeMs := tokens + a.tokens, cost + a.cost, timeMs + a.latencyMs;
      tails := tails + TailsOf(b, a);
    }
    assert attempts[..|attempts|] == attempts;
    NoTailsIffNoneOversized(tails, b, attempts);
    var exhausted := |attempts| >= b.maxAttempts || tokens >= b.maxTokens || cost >= b.maxCost
                     || timeMs >= b.maxTimeMs || tails != [];
    status := BudgetStatus(|attempts|, tokens, cost, timeMs, exhausted, tails);
  }

  lemma NoTails(b: Budget)
    ensures ListsTails([], b, [])
  {
  }

  // ----- The policies -----

  datatype Policy =
    | FixedAttempt(attempts: int)
    | FixedRefinement(refinements: int)
    | SelfConsistency(attempts: int, minimumLeadingFraction: real)
    | Adaptive(thresholds: ThresholdPolicy, enabled: bool, minimumIndependentGroups: int,
               minimumLeadingFraction: real, fallbackAttempts: int)

  datatype Reason =
    | FixedAttemptBaseline | FixedRefinementBaseline | SelfConsistencyBaseline
    | AmbiguityRequiresClarification | MissingInformation | CriticalContradiction | CalibrationShifted
    | BudgetExhausted | IndependenceInsufficient | StopPreconditionsMet | StopPreconditionsUnmet

  datatype Choice = Choice(action: Action, reason: Reason)

  predicate Calibrated(c: Context) { c.confidence.Some? && c.confidence.value.calibrated }

  predicate MinimumStopChecks(c: Context) {
    && c.mandatoryChecksPassed && c.outputContractSatisfied
    && c.criticalContradictions == [] && c.missingInformation == [] && Calibrated(c)
  }

  function StopOrAbstain(stop: bool): Action { if stop then Stop else Abstain }

  function FixedAttemptAction(attempts: int, c: Context): Action {
    var action := if |c.attempts| >= attempts then StopOrAbstain(MinimumStopChecks(c)) else Sample;
    if Exhausted(c.budget, c.attempts) && action != Stop then Abstain else action
  }

  function FixedRefinementAction(refinements: int, c: Context): Action {
    if Exhausted(c.budget, c.attempts) && |c.attempts| <= refinements then Abstain
    else if |c.attempts| > refinements then StopOrAbstain(MinimumStopChecks(c))
    else Sample
  }

  function TotalWeight(clusters: seq<Cluster>): real {
    if clusters == [] then 0.0 else clusters[0].independentWeight + TotalWeight(clusters[1..])
  }

  function LeadingFraction(clusters: seq<Cluster>): real {
    if clusters == [] || TotalWeight(clusters) == 0.0 then 0.0
    else clusters[0].independentWeight / TotalWeight(clusters)
  }

  function SelfConsistencyAction(attempts: int, minimum: real, cl: Clustering, c: Context): Action {
    if |c.attempts| >= attempts then StopOrAbstain(LeadingFraction(cl(c.attempts)) >= minimum && MinimumStopChecks(c))
    else if Exhausted(c.budget, c.attempts) then Abstain
    else Sample
  }

  function Lookup(m: map<Action, real>, a: Action): real { if a in m then m[a] else 0.0 }

  function Net(c: Context, a: Action): real { Lookup(c.expectedActionValues, a) - Lookup(c.actionCosts, a) }

  /** The rank of an action's name among all the names. */
  function NameRank(a: Action): nat {
    match a
    case Abstain => 0
    case Ask => 1
    case Diversify => 2
    case Retrieve => 3
    case Sample => 4
    case Stop => 5
    case Verify => 6
  }

  predicate Precedes(c: Context, a: Action, b: Action) {
    Net(c, a) < Net(c, b) || (Net(c, a) == Net(c, b) && NameRank(a) < NameRank(b))
  }

  function Better(c: Context, best: Option<Action>, a: Action): Option<Action> {
    if a !in c.availableActions then best
    else if best.Some? && Precedes(c, a, best.value) then best
    else Some(a)
  }

  /** The available action, other than stopping or abstaining, of greatest net value; the
      greatest name decides between equals. */
  function BestNextAction(c: Context): Option<Action> {
    Better(c, Better(c, Better(c, Better(c, Better(c, None, Sample), Diversify), Verify), Retrieve), Ask)
  }

  lemma BestIsGreatest(c: Context)
    ensures BestNextAction(c).None? <==> c.availableActions <= {Stop, Abstain}
    ensures BestNextAction(c).Some? ==>
              var best := BestNextAction(c).value;
              && best in c.availableActions && best != Stop && best != Abstain
              && forall a | a in c.availableActions && a != Stop && a != Abstain && a != best :: Precedes(c, a, best)
  {
    hide Net;
    var s1 := Better(c, None, Sample);
    var s2 := Better(c, s1, Diversify);
    var s3 := Better(c, s2, Verify);
    var s4 := Better(c, s3, Retrieve);
    var best := Better(c, s4, Ask);
    assert best == BestNextAction(c);
    hide NameRank;
    assert best.None? <==> Sample !in c.availableActions && Diversify !in c.availableActions
                           && Verify !in c.availableActions && Retrieve !in c.availableActions
                           && Ask !in c.availableActions;
    if best.None? {
      forall a | a in c.availableActions ensures a == Stop || a == Abstain {
        assert a != Sample && a != Diversify && a != Verify && a != Retrieve && a != Ask;
      }
    }
  }

  predicate Blocked(c: Context, present: seq<string>, remedy: Action) { present != [] && remedy in c.availableActions }

  function AdaptiveChoice(p: Policy, cl: Clustering, c: Context): Result<Choice, HaltingError>
    requires p.Adaptive?
  {
    if !p.enabled then Ok(Choice(FixedAttemptAction(p.fallbackAttempts, c), FixedAttemptBaseline))
    else if Blocked(c, c.ambiguousFields, Ask) then Ok(Choice(Ask, AmbiguityRequiresClarification))
    else if Blocked(c, c.missingInformation, Retrieve) then Ok(Choice(Retrieve, MissingInformation))
    else if Blocked(c, c.criticalContradictions, Verify) then Ok(Choice(Verify, CriticalContradiction))
    else if c.calibrationShifted then
      Ok(Choice(if Diversify in c.availableActions && !Exhausted(c.budget, c.attempts) then Diversify else Abstain,
                CalibrationShifted))
    else if Exhausted(c.budget, c.attempts) then Ok(Choice(Abstain, BudgetExhausted))
    else if c.domain != p.thresholds.domain && p.thresholds.domain != "*" then Err(InapplicableDomain)
    else if c.riskClass !in p.thresholds.thresholds then Err(UncoveredRiskClass)
    else
      var clusters := cl(c.attempts);
      if clusters != [] && |clusters[0].correlationGroups| < p.minimumIndependentGroups
          && Diversify in c.availableActions
      then Ok(Choice(Diversify, IndependenceInsufficient))
      else if MayStop(p, clusters, c) && Stop in c.availableActions then Ok(Choice(Stop, StopPreconditionsMet))
      else Ok(Choice(NextAction(c), StopPreconditionsUnmet))
  }

  predicate Stable(p: Policy, clusters: seq<Cluster>)
    requires p.Adaptive?
  {
    && clusters != [] && LeadingFraction(clusters) >= p.minimumLeadingFraction
    && |clusters[0].correlationGroups| >= p.minimumIndependentGroups
  }

  /** The value and the cost of the best next action do not justify taking it. */
  predicate ValueExhausted(c: Context) {
    match BestNextAction(c)
    case None => true
    case Some(a) => Lookup(c.expectedActionValues, a) <= Lookup(c.actionCosts, a)
  }

  predicate MayStop(p: Policy, clusters: seq<Cluster>, c: Context)
    requires p.Adaptive? && c.riskClass in p.thresholds.thresholds
  {
    && c.mandatoryChecksPassed && c.outputContractSatisfied && Calibrated(c)
    && c.confidence.value.lowerBound.Some?
    && c.confidence.value.lowerBound.value >= p.thresholds.thresholds[c.riskClass]
    && Stable(p, clusters) && ValueExhausted(c)
  }

  function NextAction(c: Context): Action {
    var best := match BestNextAction(c) case Some(a) => a case None => Abstain;
    var next := if !Calibrated(c) && Verify in c.availableActions then Verify else best;
    if next !in c.availableActions || next == Stop || next == Abstain then Sample else next
  }

  function Choose(p: Policy, cl: Clustering, c: Context): Result<Choice, HaltingError> {
    match p
    case FixedAttempt(n) => Ok(Choice(FixedAttemptAction(n, c), FixedAttemptBaseline))
    case FixedRefinement(n) => Ok(Choice(FixedRefinementAction(n, c), FixedRefinementBaseline))
    case SelfConsistency(n, minimum) => Ok(Choice(SelfConsistencyAction(n, minimum, cl, c), SelfConsistencyBaseline))
    case Adaptive(_, _, _, _, _) => AdaptiveChoice(p, cl, c)
  }

  // ----- What the policies guarantee -----

  predicate Adds(r: Result<Choice, HaltingError>) { r.Ok? && (r.value.action == Sample || r.value.action == Diversify) }

  predicate Stops(r: Result<Choice, HaltingError>) { r.Ok? && r.value.action == Stop }

  /** No policy asks for another attempt once the budget is exhausted. */
  lemma AddsOnlyWithinBudget(p: Policy, cl: Clustering, c: Context)
    requires Adds(Choose(p, cl, c))
    ensures !Exhausted(c.budget, c.attempts)
    ensures p.FixedAttempt? || p.SelfConsistency? ==> |c.attempts| < p.attempts
    ensures p.FixedRefinement? ==> |c.attempts| <= p.refinements
  {
    hide Exhausted;
    hide NextAction;
    hide MayStop;
    hide MinimumStopChecks;
  }

  /** The attempts of a run: each was added on a decision taken over those before it. */
  ghost predicate Reachable(p: Policy, cl: Clustering, b: Budget, attempts: seq<Attempt>) {
    attempts == [] ||
    (var front := attempts[..|attempts| - 1];
     && Reachable(p, cl, b, front)
     && attempts[|attempts| - 1].Valid()
     && exists c: Context :: c.attempts == front && c.budget == b && Adds(Choose(p, cl, c)))
  }

  /** Whatever happens between the attempts of a run, there are at most `max_attempts`, the
      totals stay below the caps plus the last attempt's own usage, and only the last attempt
      can be oversized. */
  lemma {:induction false} RunStaysWithinBudget(p: Policy, cl: Clustering, b: Budget, attempts: seq<Attempt>)
    requires b.Valid() && Reachable(p, cl, b, attempts)
    ensures |attempts| <= b.maxAttempts
    ensures attempts != [] ==>
              var last := attempts[|attempts| - 1];
              && Tokens(attempts) < b.maxTokens + last.tokens
              && Cost(attempts) < b.maxCost + last.cost
              && TimeMs(attempts) < b.maxTimeMs + last.latencyMs
    ensures forall i | 0 <= i < |attempts| - 1 :: !Oversized(b, attempts[i])
    ensures p.FixedAttempt? || p.SelfConsistency? ==> |attempts| <= if p.attempts < 0 then 0 else p.attempts
    ensures p.FixedRefinement? ==> |attempts| <= if p.refinements < 0 then 0 else p.refinements + 1
  {
    if attempts != [] {
      var front := attempts[..|attempts| - 1];
      var c: Context :| c.attempts == front && c.budget == b && Adds(Choose(p, cl, c));
      AddsOnlyWithinBudget(p, cl, c);
      hide Choose;
      hide Oversized;
      forall i | 0 <= i < |attempts| - 1 ensures !Oversized(b, attempts[i]) { assert attempts[i] in front; }
    }
  }

  /** Once exhausted, a budget stays exhausted whatever is added. */
  lemma ExhaustionIsPermanent(b: Budget, attempts: seq<Attempt>, a: Attempt)
    requires Exhausted(b, attempts) && a.Valid()
    ensures Exhausted(b, attempts + [a])
  {
    var all := attempts + [a];
    assert all[..|attempts|] == attempts;
    hide Oversized;
    if exists x | x in attempts :: Oversized(b, x) {
      var x :| x in attempts && Oversized(b, x);
      assert x in all;
    }
  }

  /** Every policy stops only with its mandatory checks passed, its output contract met and a
      calibrated confidence; the fixed ones also only without contradictions or gaps. */
  lemma StopsOnlyWhenChecked(p: Policy, cl: Clustering, c: Context)
    requires Stops(Choose(p, cl, c))
    ensures c.mandatoryChecksPassed && c.outputContractSatisfied && Calibrated(c)
    ensures !p.Adaptive? || !p.enabled ==> c.criticalContradictions == [] && c.missingInformation == []
    ensures p.Adaptive? && p.enabled ==>
              && !Exhausted(c.budget, c.attempts) && !c.calibrationShifted
              && c.riskClass in p.thresholds.thresholds && c.confidence.value.lowerBound.Some?
              && c.confidence.value.lowerBound.value >= p.thresholds.thresholds[c.riskClass]
              && Stable(p, cl(c.attempts)) && ValueExhausted(c)
  {
    hide Exhausted;
    hide Stable;
    hide ValueExhausted;
    NextIsNeverStop(c);
    hide NextAction;
  }

  lemma NextIsNeverStop(c: Context)
    ensures NextAction(c) != Stop && NextAction(c) != Abstain
  {
    hide BestNextAction;
  }

  /** The conditions of an adaptive stop that the evidence gaps do not touch. */
  predicate Settled(p: Policy, cl: Clustering, c: Context)
    requires p.Adaptive?
  {
    && !c.calibrationShifted && !Exhausted(c.budget, c.attempts)
    && (c.domain == p.thresholds.domain || p.thresholds.domain == "*")
    && c.riskClass in p.thresholds.thresholds
    && MayStop(p, cl(c.attempts), c) && Stop in c.availableActions
  }

  /** The adaptive policy stops exactly when it is settled and no gap can be resolved. */
  lemma AdaptiveStopsIff(p: Policy, cl: Clustering, c: Context)
    requires p.Adaptive? && p.enabled
    ensures Stops(Choose(p, cl, c)) <==>
              && Settled(p, cl, c) && !Blocked(c, c.ambiguousFields, Ask)
              && !Blocked(c, c.missingInformation, Retrieve) && !Blocked(c, c.criticalContradictions, Verify)
  {
    NextIsNeverStop(c);
    hide NextAction;
    hide Blocked;
    hide Exhausted;
    hide LeadingFraction;
    hide ValueExhausted;
  }

  function Worsened(
    c: Context, contradictions: seq<string>, missing: seq<string>, ambiguous: seq<string>): Context
  {
    c.(criticalContradictions := contradictions, missingInformation := missing, ambiguousFields := ambiguous)
  }

  lemma SettledIgnoresGaps(
    p: Policy, cl: Clustering, c: Context, contradictions: seq<string>, missing: seq<string>, ambiguous: seq<string>)
    requires p.Adaptive?
    ensures var worse := Worsened(c, contradictions, missing, ambiguous);
            Settled(p, cl, worse) <==> Settled(p, cl, c)
  {
    var worse := Worsened(c, contradictions, missing, ambiguous);
    SameBestAction(c, worse);
    assert ValueExhausted(worse) == ValueExhausted(c);
    hide BestNextAction;
    hide ValueExhausted;
    hide Exhausted;
    hide Stable;
    hide LeadingFraction;
  }

  lemma SameBestAction(c: Context, d: Context)
    requires c.expectedActionValues == d.expectedActionValues && c.actionCosts == d.actionCosts
    requires c.availableActions == d.availableActions
    ensures BestNextAction(c) == BestNextAction(d)
  {
    assert forall best, a :: Better(c, best, a) == Better(d, best, a);
    hide Better;
  }

  /** Where the adaptive policy stops, new critical contradictions, missing information or
      ambiguities change that exactly when the action that would resolve them is available. */
  lemma AdaptiveStopSurvivesIff(
    p: Policy, cl: Clustering, c: Context, contradictions: seq<string>, missing: seq<string>, ambiguous: seq<string>)
    requires p.Adaptive? && p.enabled && Stops(Choose(p, cl, c))
    ensures var worse := Worsened(c, contradictions, missing, ambiguous);
            Stops(Choose(p, cl, worse)) <==>
              && (contradictions != [] ==> Verify !in c.availableActions)
              && (missing != [] ==> Retrieve !in c.availableActions)
              && (ambiguous != [] ==> Ask !in c.availableActions)
  {
    var worse := Worsened(c, contradictions, missing, ambiguous);
    hide Choose;
    hide Settled;
    AdaptiveStopsIff(p, cl, c);
    AdaptiveStopsIff(p, cl, worse);
    SettledIgnoresGaps(p, cl, c, contradictions, missing, ambiguous);
  }

  /** The adaptive policy gives up exactly when no gap can be resolved and either the budget is
      exhausted or a calibration shift leaves it no way to diversify. */
  lemma AdaptiveAbstainsIff(p: Policy, cl: Clustering, c: Context)
    requires p.Adaptive? && p.enabled && Choose(p, cl, c).Ok?
    ensures Choose(p, cl, c).value.action == Abstain <==>
              && !Blocked(c, c.ambiguousFields, Ask) && !Blocked(c, c.missingInformation, Retrieve)
              && !Blocked(c, c.criticalContradictions, Verify)
              && (Exhausted(c.budget, c.attempts) || (c.calibrationShifted && Diversify !in c.availableActions))
  {
    NextIsNeverStop(c);
    hide NextAction;
    hide Exhausted;
    hide MayStop;
    hide Blocked;
  }

  /** The attempts a baseline asks for before it may stop. */
  function Target(p: Policy): int
    requires !p.Adaptive?
  {
    match p
    case FixedAttempt(n) => n
    case FixedRefinement(n) => n + 1
    case SelfConsistency(n, _) => n
  }

  /** A baseline asks for another attempt exactly while its target and its budget leave room,
      stops exactly when the target is met and the answer passes its checks, and otherwise
      abstains. */
  lemma BaselinesDecideIff(p: Policy, cl: Clustering, c: Context)
    requires !p.Adaptive?
    ensures Adds(Choose(p, cl, c)) <==> |c.attempts| < Target(p) && !Exhausted(c.budget, c.attempts)
    ensures Stops(Choose(p, cl, c)) <==>
              && |c.attempts| >= Target(p) && MinimumStopChecks(c)
              && (p.SelfConsistency? ==> LeadingFraction(cl(c.attempts)) >= p.minimumLeadingFraction)
    ensures !Adds(Choose(p, cl, c)) && !Stops(Choose(p, cl, c)) ==> Choose(p, cl, c).value.action == Abstain
  {
    hide Exhausted;
    hide MinimumStopChecks;
    hide LeadingFraction;
  }

  /** The adaptive policy asks for a sample although sampling is not available exactly when it
      falls through with nothing available but stopping and abstaining. */
  lemma UnavailableSampleIff(p: Policy, cl: Clustering, c: Context)
    requires p.Adaptive? && p.enabled && Choose(p, cl, c).Ok?
    ensures Choose(p, cl, c).value.action == Sample && Sample !in c.availableActions <==>
              && c.availableActions <= {Stop, Abstain} && !c.calibrationShifted && !Exhausted(c.budget, c.attempts)
              && !(MayStop(p, cl(c.attempts), c) && Stop in c.availableActions)
  {
    BestIsGreatest(c);
    hide BestNextAction;
    hide Exhausted;
    hide MayStop;
  }

  function Name(a: Action): string {
    match a
    case Sample => "SAMPLE"
    case Diversify => "DIVERSIFY"
    case Verify => "VERIFY"
    case Retrieve => "RETRIEVE"
    case Ask => "ASK"
    case Stop => "STOP"
    case Abstain => "ABSTAIN"
  }

  lemma NameRankIsAlphabetical(a: Action, b: Action)
    ensures NameRank(a) < NameRank(b) <==> a != b && Text.StringLeq(Name(a), Name(b))
  {
    TwoLettersDecide(Name(a), Name(b));
    TwoLettersDecide(Name(b), Name(a));
    hide Text.StringLeq;
  }

  lemma TwoLettersDecide(x: string, y: string)
    requires |x| >= 2 && |y| >= 2
    ensures x[0] < y[0] || (x[0] == y[0] && x[1] < y[1]) ==> Text.StringLeq(x, y) && !Text.StringLeq(y, x)
  {
    assert x[1..][0] == x[1] && y[1..][0] == y[1];
  }

  /** An action that would gather something, with a greater net value than every other one
      available or the later name among equals. */
  ghost predicate MostWorthwhile(c: Context, a: Action) {
    && a in c.availableActions && a != Stop && a != Abstain
    && forall b | b in c.availableActions && b != Stop && b != Abstain && b != a ::
         var gain := Lookup(c.expectedActionValues, a) - Lookup(c.actionCosts, a);
         var other := Lookup(c.expectedActionValues, b) - Lookup(c.actionCosts, b);
         gain > other || (gain == other && Text.StringLeq(Name(b), Name(a)))
  }

  /** An adaptive policy that may not stop verifies first when its confidence is not calibrated,
      otherwise takes the most worthwhile action, and samples when there is none. */
  lemma FallThroughIs(p: Policy, cl: Clustering, c: Context)
    requires p.Adaptive? && p.enabled && Choose(p, cl, c).Ok?
    requires Choose(p, cl, c).value.reason == StopPreconditionsUnmet
    ensures var a := Choose(p, cl, c).value.action;
            if (c.confidence.None? || !c.confidence.value.calibrated) && Verify in c.availableActions then a == Verify
            else if c.availableActions <= {Stop, Abstain} then a == Sample
            else MostWorthwhile(c, a)
  {
    assert Choose(p, cl, c).value.action == NextAction(c) by { hide NextAction; hide Exhausted; hide MayStop; }
    BestIsGreatest(c);
    hide BestNextAction;
    hide Choose;
    forall a, b ensures NameRank(a) < NameRank(b) <==> a != b && Text.StringLeq(Name(a), Name(b)) {
      NameRankIsAlphabetical(a, b);
    }
    hide NameRank;
    hide Name;
    hide Text.StringLeq;
  }

  /** The adaptive policy fails exactly when the thresholds it would have to consult are for
      another domain or leave the risk class out. */
  lemma AdaptiveFailsIff(p: Policy, cl: Clustering, c: Context)
    requires p.Adaptive? && p.enabled
    ensures var foreign := p.thresholds.domain != "*" && p.thresholds.domain != c.domain;
            var consults := && (c.ambiguousFields == [] || Ask !in c.availableActions)
                            && (c.missingInformation == [] || Retrieve !in c.availableActions)
                            && (c.criticalContradictions == [] || Verify !in c.availableActions)
                            && !c.calibrationShifted && !Exhausted(c.budget, c.attempts);
            && (Choose(p, cl, c) == Err(InapplicableDomain) <==> consults && foreign)
            && (Choose(p, cl, c) == Err(UncoveredRiskClass) <==>
                  consults && !foreign && c.riskClass !in p.thresholds.thresholds.Keys)
  {
    hide Exhausted;
    hide NextAction;
    hide MayStop;
  }

  /** The gaps come before the calibration, that before the budget, and all of them before the
      evidence for stopping; each is met by its own remedy. */
  lemma AdaptiveOrder(p: Policy, cl: Clustering, c: Context, choice: Choice)
    requires p.Adaptive? && p.enabled && Choose(p, cl, c) == Ok(choice)
    ensures var ambiguous, missing := c.ambiguousFields != [] && Ask in c.availableActions,
                                      c.missingInformation != [] && Retrieve in c.availableActions;
            var contradicted := c.criticalContradictions != [] && Verify in c.availableActions;
            && (ambiguous ==> choice == Choice(Ask, AmbiguityRequiresClarification))
            && (missing && !ambiguous ==> choice == Choice(Retrieve, MissingInformation))
            && (contradicted && !missing && !ambiguous ==> choice == Choice(Verify, CriticalContradiction))
            && (!contradicted && !missing && !ambiguous ==>
                  && (c.calibrationShifted <==> choice.reason == CalibrationShifted)
                  && (c.calibrationShifted ==>
                        choice.action == if Diversify in c.availableActions && !Exhausted(c.budget, c.attempts)
                                         then Diversify else Abstain)
                  && (!c.calibrationShifted && Exhausted(c.budget, c.attempts) ==>
                        choice == Choice(Abstain, BudgetExhausted))
                  && (!c.calibrationShifted && !Exhausted(c.budget, c.attempts) ==>
                        && choice.reason in {IndependenceInsufficient, StopPreconditionsMet, StopPreconditionsUnmet}
                        && (choice.reason == IndependenceInsufficient <==>
                              && Diversify in c.availableActions && |cl(c.attempts)| > 0
                              && |cl(c.attempts)[0].correlationGroups| < p.minimumIndependentGroups)
                        && (choice.reason == IndependenceInsufficient ==> choice.action == Diversify)))
  {
    hide Exhausted;
    hide NextAction;
    hide MayStop;
  }

  // ----- The decision a caller receives -----

  datatype Mode = FixedAttemptMode | FixedRefinementMode | SelfConsistencyMode | AdaptiveMode

  datatype Decision = Decision(
    choice: Choice, status: BudgetStatus, threshold: Option<real>, lowerBound: Option<real>,
    clusterCount: nat, leadingFraction: real, alternatives: seq<Action>, mode: Mode)

  /** The confidence was held against the risk threshold. */
  predicate ThresholdConsulted(r: Reason) {
    r == IndependenceInsufficient || r == StopPreconditionsMet || r == StopPreconditionsUnmet
  }

  function ModeOf(r: Reason): Mode {
    match r
    case FixedAttemptBaseline => FixedAttemptMode
    case FixedRefinementBaseline => FixedRefinementMode
    case SelfConsistencyBaseline => SelfConsistencyMode
    case _ => AdaptiveMode
  }

  predicate AttemptsClustered(r: Reason) { ModeOf(r) == SelfConsistencyMode || ModeOf(r) == AdaptiveMode }

  /** The available ones of the given actions, in order. */
  function Available(actions: seq<Action>, available: set<Action>): (r: seq<Action>)
    ensures forall a :: a in r <==> a in actions && a in available
  {
    if actions == [] then []
    else (if actions[0] in available then [actions[0]] else []) + Available(actions[1..], available)
  }

  const ALL_ACTIONS := [Sample, Diversify, Verify, Retrieve, Ask, Stop, Abstain]

  /** What a decision reports beside its action: the budget it was taken on, the threshold and
      lower bound exactly when they were compared, the clusters exactly when they were formed, and
      for the adaptive policy every available action. */
  ghost predicate Accompanies(d: Decision, p: Policy, cl: Clustering, c: Context) {
    var r := d.choice.reason;
    && Describes(d.status, c.budget, c.attempts) && d.mode == ModeOf(r)
    && (d.threshold.Some? <==> ThresholdConsulted(r))
    && (ThresholdConsulted(r) ==>
          && p.Adaptive? && c.riskClass in p.thresholds.thresholds
          && d.threshold == Some(p.thresholds.thresholds[c.riskClass])
          && d.lowerBound == if c.confidence.Some? then c.confidence.value.lowerBound else None)
    && (!ThresholdConsulted(r) ==> d.lowerBound == None)
    && d.clusterCount == (if AttemptsClustered(r) then |cl(c.attempts)| else 0)
    && d.leadingFraction == (if AttemptsClustered(r) then LeadingFraction(cl(c.attempts)) else 0.0)
    && (forall a :: a in d.alternatives <==> ModeOf(r) == AdaptiveMode && a in c.availableActions)
  }

  method Decide(p: Policy, cl: Clustering, c: Context) returns (r: Result<Decision, HaltingError>)
    ensures r.Ok? <==> Choose(p, cl, c).Ok?
    ensures r.Err? ==> Choose(p, cl, c) == Err(r.error)
    ensures r.Ok? ==> Choose(p, cl, c) == Ok(r.value.choice) && Accompanies(r.value, p, cl, c)
    ensures r.Ok? && Adds(Ok(r.value.choice)) ==> !r.value.status.exhausted
  {
    var status := Status(c.budget, c.attempts);
    var choice := Choose(p, cl, c);
    if choice.Err? { return Err(choice.error); }
    if ThresholdConsulted(choice.value.reason) { ConsultedMeansCovered(p, cl, c); }
    if Adds(choice) { AddsOnlyWithinBudget(p, cl, c); }
    hide Choose;
    hide LeadingFraction;
    hide Describes;
    var reason := choice.value.reason;
    var clustered := AttemptsClustered(reason);
    var clusters := cl(c.attempts);
    DescribedExhaustion(status, c.budget, c.attempts);
    var threshold := if ThresholdConsulted(reason) then Some(p.thresholds.thresholds[c.riskClass]) else None;
    var lowerBound :=
      if ThresholdConsulted(reason) && c.confidence.Some? then c.confidence.value.lowerBound else None;
    var alternatives := if ModeOf(reason) == AdaptiveMode then Available(ALL_ACTIONS, c.availableActions) else [];
    EveryAction();
    r := Ok(Decision(choice.value, status, threshold, lowerBound, if clustered then |clusters| else 0,
                     if clustered then LeadingFraction(clusters) else 0.0, alternatives, ModeOf(reason)));
  }

  lemma DescribedExhaustion(status: BudgetStatus, b: Budget, attempts: seq<Attempt>)
    requires Describes(status, b, attempts)
    ensures status.exhausted <==> Exhausted(b, attempts)
  {
  }

  lemma ConsultedMeansCovered(p: Policy, cl: Clustering, c: Context)
    requires Choose(p, cl, c).Ok? && ThresholdConsulted(Choose(p, cl, c).value.reason)
    ensures p.Adaptive? && c.riskClass in p.thresholds.thresholds
  {
    hide Exhausted;
    hide NextAction;
    hide MayStop;
  }

  lemma EveryAction()
    ensures forall a: Action :: a in ALL_ACTIONS
  {
    forall a: Action ensures a in ALL_ACTIONS {
      assert a == ALL_ACTIONS[match a
        case Sample => 0 case Diversify => 1 case Verify => 2 case Retrieve => 3
        case Ask => 4 case Stop => 5 case Abstain => 6];
    }
  }
}
