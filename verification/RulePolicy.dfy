/** The rule-based policy that decides what the control loop does next. */
module RulePolicy {
  import opened Wrappers

  datatype Decision = Continue | Replan | Pause | Terminate | Rollback

  /** What a decision looks at: the execution state and the failure flag of the observation. */
  datatype Situation = Situation(step: int, budgetRemaining: Option<real>, pendingCount: nat, failureDetected: bool)

  datatype Reason =
    | CriticalSectionActive | ReplanLimitReached | ResourceBudgetExhausted
    | FailureDetected | AllModulesComplete | DefaultContinue

  datatype Metadata = Metadata(decision: Decision, reasoning: Reason, alternatives: set<Decision>)

  datatype Settings = Settings(maxReplans: int, resourceThreshold: real, cooldown: int) {
    predicate ResourceExhausted(s: Situation) {
      s.budgetRemaining.Some? && s.budgetRemaining.value < resourceThreshold
    }
  }

  /** One decision: the situation, whether a critical section was active, and the outcome. */
  datatype Entry = Entry(situation: Situation, critical: bool, decision: Decision)

  class RulePolicy {
    const settings: Settings
    var replanCount: int
    var lastReplanStep: int
    var criticalSection: bool
    var current: Option<Situation>
    var lastMetadata: Option<Metadata>
    /** The decisions taken since construction or the last reset. */
    ghost var log: seq<Entry>

    ghost predicate Valid()
      reads this
    {
      && Explained(settings, log)
      && replanCount == |ReplanSteps(log)|
      && lastReplanStep == LastReplan(log)
    }

    constructor (settings: Settings)
      ensures Valid() && log == [] && !criticalSection && current.None? && this.settings == settings
    {
      this.settings := settings;
      replanCount, lastReplanStep, criticalSection, current, lastMetadata := 0, -1, false, None, None;
      log := [];
    }

    method SetCriticalSection(active: bool)
      requires Valid()
      modifies `criticalSection
      ensures Valid() && criticalSection == active
    {
      criticalSection := active;
    }

    predicate CanReplan()
      reads this
    {
      && !criticalSection
      && replanCount < settings.maxReplans
      && (current.None? || lastReplanStep < 0 || current.value.step - lastReplanStep >= settings.cooldown)
    }

    function ApplyRules(s: Situation): Decision
      reads this
    {
      if criticalSection then Continue
      else if replanCount >= settings.maxReplans then Terminate
      else if settings.ResourceExhausted(s) && CanReplan() then Replan
      else if s.failureDetected then (if CanReplan() then Replan else Rollback)
      else if s.pendingCount == 0 then Terminate
      else Continue
    }

    function Reasoning(s: Situation): Reason
      reads this
    {
      if criticalSection then CriticalSectionActive
      else if replanCount >= settings.maxReplans then ReplanLimitReached
      else if settings.ResourceExhausted(s) then ResourceBudgetExhausted
      else if s.failureDetected then FailureDetected
      else if s.pendingCount == 0 then AllModulesComplete
      else DefaultContinue
    }

    method Decide(s: Situation) returns (decision: Decision)
      requires Valid()
      modifies this
      ensures Valid() && criticalSection == old(criticalSection) && current == Some(s)
      ensures log == old(log) + [Entry(s, criticalSection, decision)]
      ensures Fits(settings, old(log), Entry(s, criticalSection, decision))
      ensures lastMetadata.Some? && lastMetadata.value.decision == decision
      ensures ReasonFits(settings, old(log), log[|log| - 1], lastMetadata.value.reasoning)
      ensures lastMetadata.value.alternatives == {Continue, Replan, Pause, Terminate, Rollback} - {decision}
    {
      hide Explained;
      hide ReplanSteps;
      current := Some(s);
      decision := ApplyRules(s);
      var reason := Reasoning(s);
      ghost var before, entry := log, Entry(s, criticalSection, decision);
      assert Fits(settings, before, entry) && ReasonFits(settings, before, entry, reason);
      hide Fits;
      hide ReasonFits;
      hide RulePolicy.ApplyRules;
      hide RulePolicy.Reasoning;
      hide RulePolicy.CanReplan;
      lastMetadata := Some(Metadata(decision, reason, {Continue, Replan, Pause, Terminate, Rollback} - {decision}));
      LogAppend(before, entry);
      ExplainedAppend(settings, before, entry);
      log := before + [entry];
      if decision == Replan {
        replanCount := replanCount + 1;
        lastReplanStep := s.step;
      }
    }

    method Reset()
      requires Valid()
      modifies this
      ensures Valid() && log == [] && criticalSection == old(criticalSection) && lastMetadata.None?
    {
      replanCount, lastReplanStep, lastMetadata := 0, -1, None;
      log := [];
    }
  }

  // ----- The runs the policy can have -----

  function ReplanSteps(log: seq<Entry>): seq<int> {
    if log == [] then []
    else
      var last := log[|log| - 1];
      ReplanSteps(log[..|log| - 1]) + (if last.decision == Replan then [last.situation.step] else [])
  }

  function LastReplan(log: seq<Entry>): int {
    var steps := ReplanSteps(log);
    if steps == [] then -1 else steps[|steps| - 1]
  }

  predicate LimitReached(settings: Settings, before: seq<Entry>) { |ReplanSteps(before)| >= settings.maxReplans }

  predicate CooledDown(settings: Settings, before: seq<Entry>, s: Situation) {
    LastReplan(before) < 0 || s.step >= LastReplan(before) + settings.cooldown
  }

  /** When each decision is taken, by the decisions before it. */
  ghost predicate Fits(settings: Settings, before: seq<Entry>, e: Entry) {
    var s := e.situation;
    var free := !e.critical && !LimitReached(settings, before);
    var wanted := settings.ResourceExhausted(s) || s.failureDetected;
    var cooled := CooledDown(settings, before, s);
    && (e.decision == Replan <==> free && wanted && cooled)
    && (e.decision == Rollback <==> free && s.failureDetected && !cooled)
    && (e.decision == Terminate <==>
          !e.critical && (LimitReached(settings, before) || (s.pendingCount == 0 && !s.failureDetected
              && !(wanted && cooled))))
    && e.decision != Pause
  }

  ghost predicate Explained(settings: Settings, log: seq<Entry>) {
    forall i | 0 <= i < |log| :: Fits(settings, log[..i], log[i])
  }

  lemma LogAppend(log: seq<Entry>, e: Entry)
    ensures ReplanSteps(log + [e]) == ReplanSteps(log) + (if e.decision == Replan then [e.situation.step] else [])
  {
    assert (log + [e])[..|log|] == log;
  }

  lemma ExplainedAppend(settings: Settings, log: seq<Entry>, e: Entry)
    ensures Explained(settings, log + [e]) <==> Explained(settings, log) && Fits(settings, log, e)
  {
    var all := log + [e];
    assert all[..|log|] == log && all[|log|] == e;
    assert forall i | 0 <= i < |log| :: all[..i] == log[..i] && all[i] == log[i];
    hide Fits;
    if Explained(settings, all) {
      forall i | 0 <= i < |log| ensures Fits(settings, log[..i], log[i]) {
        assert Fits(settings, all[..i], all[i]);
      }
      assert Fits(settings, all[..|log|], all[|log|]);
    }
  }

  /** Replanning happens at most `max_replans` times between resets. */
  lemma {:induction false} ReplansBounded(settings: Settings, log: seq<Entry>)
    requires Explained(settings, log)
    ensures |ReplanSteps(log)| <= if settings.maxReplans < 0 then 0 else settings.maxReplans
  {
    if log != [] {
      var before, last := log[..|log| - 1], log[|log| - 1];
      assert log == before + [last];
      ExplainedAppend(settings, before, last);
      ReplansBounded(settings, before);
    }
  }

  /** Never in a critical section, and nothing but TERMINATE after the limit outside one. */
  lemma CriticalAndLimit(settings: Settings, log: seq<Entry>, i: nat)
    requires Explained(settings, log) && i < |log|
    ensures log[i].critical ==> log[i].decision == Continue
    ensures LimitReached(settings, log[..i]) && !log[i].critical ==> log[i].decision == Terminate
  {
    assert Fits(settings, log[..i], log[i]);
  }

  /** Once the limit is reached it stays reached until a reset. */
  lemma {:induction false} LimitStays(settings: Settings, log: seq<Entry>, i: nat, j: nat)
    requires i <= j <= |log| && LimitReached(settings, log[..i])
    ensures LimitReached(settings, log[..j])
  {
    if i < j {
      LimitStays(settings, log, i, j - 1);
      assert log[..j][..j - 1] == log[..j - 1];
    }
  }

  ghost predicate NonNegativeSteps(log: seq<Entry>) {
    forall e | e in log :: e.situation.step >= 0
  }

  function Multiple(n: nat, cooldown: int): int { if n == 0 then 0 else Multiple(n - 1, cooldown) + cooldown }

  lemma {:induction false} MultipleIsProduct(n: nat, cooldown: int)
    ensures Multiple(n, cooldown) == n * cooldown
  {
    if n > 0 { MultipleIsProduct(n - 1, cooldown); }
  }

  /** Replans are spaced by the cooldown, however the step counter moves. */
  lemma ReplansSpaced(settings: Settings, log: seq<Entry>, i: nat, j: nat)
    requires Explained(settings, log) && NonNegativeSteps(log)
    requires i <= j < |ReplanSteps(log)|
    ensures ReplanSteps(log)[j] >= ReplanSteps(log)[i] + (j - i) * settings.cooldown
    ensures ReplanSteps(log)[j] >= 0
  {
    hide *;
    SpacedByMultiple(settings, log, i, j);
    MultipleIsProduct(j - i, settings.cooldown);
  }

  lemma {:induction false} SpacedByMultiple(settings: Settings, log: seq<Entry>, i: nat, j: nat)
    requires Explained(settings, log) && NonNegativeSteps(log)
    requires i <= j < |ReplanSteps(log)|
    ensures ReplanSteps(log)[j] >= ReplanSteps(log)[i] + Multiple(j - i, settings.cooldown)
    ensures ReplanSteps(log)[j] >= 0
  {
    hide *;
    NonEmptyLog(log);
    var before, last := log[..|log| - 1], log[|log| - 1];
    FrontOfLog(settings, log);
    if j < |ReplanSteps(before)| {
      SpacedByMultiple(settings, before, i, j);
    } else if i < j {
      SpacedByMultiple(settings, before, i, j - 1);
      CooledWhenReplanning(settings, before, last);
      OneMore(j - i, settings.cooldown);
    } else {
      OneMore(0, settings.cooldown);
    }
  }

  lemma NonEmptyLog(log: seq<Entry>)
    ensures ReplanSteps(log) != [] ==> log != []
  {
  }

  lemma OneMore(n: nat, cooldown: int)
    ensures Multiple(n, cooldown) == if n == 0 then 0 else Multiple(n - 1, cooldown) + cooldown
  {
  }

  lemma FrontOfLog(settings: Settings, log: seq<Entry>)
    requires log != [] && Explained(settings, log) && NonNegativeSteps(log)
    ensures var before, last := log[..|log| - 1], log[|log| - 1];
            && Explained(settings, before) && Fits(settings, before, last)
            && NonNegativeSteps(before) && last.situation.step >= 0
            && ReplanSteps(log) == ReplanSteps(before) + (if last.decision == Replan then [last.situation.step] else [])
  {
    var before, last := log[..|log| - 1], log[|log| - 1];
    assert log == before + [last];
    assert last in log && forall e | e in before :: e in log;
    ExplainedAppend(settings, before, last);
    LogAppend(before, last);
  }

  lemma CooledWhenReplanning(settings: Settings, before: seq<Entry>, e: Entry)
    requires Fits(settings, before, e) && e.decision == Replan && ReplanSteps(before) != []
    requires ReplanSteps(before)[|ReplanSteps(before)| - 1] >= 0
    ensures e.situation.step >= ReplanSteps(before)[|ReplanSteps(before)| - 1] + settings.cooldown
  {
    hide ReplanSteps;
  }

  // ----- The recorded reason -----

  /** The reason recorded with a decision: the first condition that holds. */
  ghost predicate ReasonFits(settings: Settings, before: seq<Entry>, e: Entry, reason: Reason) {
    match reason
    case CriticalSectionActive => e.critical
    case ReplanLimitReached => !e.critical && LimitReached(settings, before)
    case ResourceBudgetExhausted =>
      !e.critical && !LimitReached(settings, before) && settings.ResourceExhausted(e.situation)
    case FailureDetected =>
      && !e.critical && !LimitReached(settings, before) && !settings.ResourceExhausted(e.situation)
      && e.situation.failureDetected
    case AllModulesComplete =>
      && !e.critical && !LimitReached(settings, before) && !settings.ResourceExhausted(e.situation)
      && !e.situation.failureDetected && e.situation.pendingCount == 0
    case DefaultContinue =>
      && !e.critical && !LimitReached(settings, before) && !settings.ResourceExhausted(e.situation)
      && !e.situation.failureDetected && e.situation.pendingCount > 0
  }

  /** The decisions a reason can account for. */
  predicate Accounts(reason: Reason, decision: Decision) {
    match reason
    case CriticalSectionActive => decision == Continue
    case ReplanLimitReached => decision == Terminate
    case ResourceBudgetExhausted => decision == Replan
    case FailureDetected => decision == Replan || decision == Rollback
    case AllModulesComplete => decision == Terminate
    case DefaultContinue => decision == Continue
  }

  /** The recorded reason accounts for the decision except when the budget is exhausted but
      the cooldown forbids the replan: the decision then has another cause. */
  lemma ReasonAccountsIff(settings: Settings, before: seq<Entry>, e: Entry, reason: Reason)
    requires Fits(settings, before, e) && ReasonFits(settings, before, e, reason)
    ensures Accounts(reason, e.decision)
            <==> e.critical || LimitReached(settings, before)
                 || !settings.ResourceExhausted(e.situation) || CooledDown(settings, before, e.situation)
  {
  }
}
