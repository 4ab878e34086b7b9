/** recoverFailedRotation of `scripts/rotate-runtime-secret.ts` as a decision: which of the four
    injected actions it takes, in which order, and what it reports, as a function of the run's
    flags and of how each action answers. */
module RotationRecovery {

  datatype RecoveryState = RecoveryState(
    candidateNamed: bool,
    cutoverAcknowledged: bool,
    cutoverAttempted: bool,
    cutoverProved: bool,
    newPrincipalCreated: bool,
    retirementStarted: bool)

  datatype Action =
    | ReconcilePreparedPrincipal | ObserveCandidateAsCurrent | RollbackToPrevious | CleanupPreparedPrincipal

  datatype Review = Complete | NotRequired | OperatorReview

  datatype ErrorCode = Recovered | CandidateStateAmbiguous | CleanupRequiresReview
                     | CutoverStateAmbiguous | RetirementRequiresReview | RollbackRequiresReview

  datatype Result = CleanedPreparedPrincipal | NoMutationToRecover | OperatorReviewRequired | RolledBackAndCleaned

  datatype Outcome = Outcome(
    cleanup: Review, errorCode: ErrorCode, operatorReviewRequired: bool, result: Result, rollback: Review)

  /** How the actions would answer: the reconciliation throws, or says whether the principal is
      there; each of the others throws or completes. */
  datatype Answers = Answers(reconcileThrows: bool, found: bool, observed: bool, rolledBack: bool, cleaned: bool)

  /** Whether an action completes. */
  predicate Completes(a: Answers, action: Action) {
    match action
    case ReconcilePreparedPrincipal => !a.reconcileThrows
    case ObserveCandidateAsCurrent => a.observed
    case RollbackToPrevious => a.rolledBack
    case CleanupPreparedPrincipal => a.cleaned
  }

  datatype Report = Report(outcome: Outcome, taken: seq<Action>)

  function Recover(s: RecoveryState, a: Answers): Report {
    var asks := s.candidateNamed && !s.newPrincipalCreated;
    var asked := if asks then [ReconcilePreparedPrincipal] else [];
    if asks && a.reconcileThrows then
      Report(Outcome(OperatorReview, CandidateStateAmbiguous, true, OperatorReviewRequired, NotRequired), asked)
    else
      AfterReconcile(s, a, s.newPrincipalCreated || (asks && a.found), asked)
  }

  function AfterReconcile(s: RecoveryState, a: Answers, prepared: bool, taken: seq<Action>): Report {
    var blocked := if prepared then OperatorReview else NotRequired;
    if s.retirementStarted then
      Report(Outcome(OperatorReview, RetirementRequiresReview, true, OperatorReviewRequired,
                     if s.cutoverProved then OperatorReview else NotRequired), taken)
    else if s.cutoverAttempted && !s.cutoverProved && !a.observed then
      Report(Outcome(blocked, CutoverStateAmbiguous, true, OperatorReviewRequired, OperatorReview),
             taken + [ObserveCandidateAsCurrent])
    else
      var observing := if s.cutoverAttempted && !s.cutoverProved then [ObserveCandidateAsCurrent] else [];
      if !s.cutoverAttempted && !s.cutoverProved then
        AfterRollback(a, prepared, NotRequired, taken)
      else if a.rolledBack then
        AfterRollback(a, prepared, Complete, taken + observing + [RollbackToPrevious])
      else
        Report(Outcome(blocked, RollbackRequiresReview, true, OperatorReviewRequired, OperatorReview),
               taken + observing + [RollbackToPrevious])
  }

  function AfterRollback(a: Answers, prepared: bool, rollback: Review, taken: seq<Action>): Report {
    if !prepared then
      Report(Outcome(NotRequired, Recovered, false, NoMutationToRecover, rollback), taken)
    else if a.cleaned then
      Report(Outcome(Complete, Recovered, false,
                     if rollback == Complete then RolledBackAndCleaned else CleanedPreparedPrincipal, rollback),
             taken + [CleanupPreparedPrincipal])
    else
      Report(Outcome(OperatorReview, CleanupRequiresReview, true, OperatorReviewRequired, rollback),
             taken + [CleanupPreparedPrincipal])
  }

  // ---- what every recovery respects ----

  function Rank(action: Action): nat {
    match action
    case ReconcilePreparedPrincipal => 0
    case ObserveCandidateAsCurrent => 1
    case RollbackToPrevious => 2
    case CleanupPreparedPrincipal => 3
  }

  function Chosen(picks: bool, action: Action): seq<Action> {
    if picks then [action] else []
  }

  /** The actions picked, in the only order there is. */
  function Plan(asks: bool, observes: bool, rolls: bool, cleans: bool): seq<Action> {
    Chosen(asks, ReconcilePreparedPrincipal) + Chosen(observes, ObserveCandidateAsCurrent)
    + Chosen(rolls, RollbackToPrevious) + Chosen(cleans, CleanupPreparedPrincipal)
  }

  lemma PlanMembers(asks: bool, observes: bool, rolls: bool, cleans: bool)
    ensures var plan := Plan(asks, observes, rolls, cleans);
      && (ReconcilePreparedPrincipal in plan <==> asks) && (ObserveCandidateAsCurrent in plan <==> observes)
      && (RollbackToPrevious in plan <==> rolls) && (CleanupPreparedPrincipal in plan <==> cleans)
  {
  }

  lemma PlanOrder(asks: bool, observes: bool, rolls: bool, cleans: bool)
    ensures var plan := Plan(asks, observes, rolls, cleans);
      && (forall i, j :: 0 <= i < j < |plan| ==> Rank(plan[i]) < Rank(plan[j]))
      && (forall i :: 0 <= i < |plan| - 1 ==>
            && plan[i] != CleanupPreparedPrincipal
            && (plan[i] == RollbackToPrevious ==> cleans)
            && (plan[i] == ObserveCandidateAsCurrent ==> rolls || cleans)
            && (plan[i] == ReconcilePreparedPrincipal ==> observes || rolls || cleans))
  {
  }

  predicate Asks(s: RecoveryState) {
    s.candidateNamed && !s.newPrincipalCreated
  }

  predicate Proceeds(s: RecoveryState, a: Answers) {
    !s.retirementStarted && !(Asks(s) && a.reconcileThrows)
  }

  predicate Observes(s: RecoveryState, a: Answers) {
    Proceeds(s, a) && s.cutoverAttempted && !s.cutoverProved
  }

  predicate RollsBack(s: RecoveryState, a: Answers) {
    Proceeds(s, a) && (s.cutoverProved || (s.cutoverAttempted && a.observed))
  }

  predicate CleansUp(s: RecoveryState, a: Answers) {
    && Proceeds(s, a) && (s.newPrincipalCreated || (Asks(s) && a.found))
    && (if s.cutoverProved || s.cutoverAttempted then RollsBack(s, a) && a.rolledBack else true)
  }

  lemma TakenIsPlan(s: RecoveryState, a: Answers)
    ensures Recover(s, a).taken == Plan(Asks(s), Observes(s, a), RollsBack(s, a), CleansUp(s, a))
  {
  }

  /** Each action at most once and in this order; nothing after an action that threw; nothing but
      the catalog query once retirement has started; a rollback only after the cutover was proved
      or observed; a cleanup only if the cutover was never attempted or was rolled back. */
  lemma RecoveryIsDisciplined(s: RecoveryState, a: Answers)
    ensures var taken := Recover(s, a).taken;
      && (forall i, j :: 0 <= i < j < |taken| ==> Rank(taken[i]) < Rank(taken[j]))
      && (forall i :: 0 <= i < |taken| - 1 ==> Completes(a, taken[i]))
      && (s.retirementStarted ==> forall action :: action in taken ==> action == ReconcilePreparedPrincipal)
      && (RollbackToPrevious in taken ==>
            s.cutoverProved || (s.cutoverAttempted && ObserveCandidateAsCurrent in taken && a.observed))
      && (CleanupPreparedPrincipal in taken ==>
            (!s.cutoverAttempted && !s.cutoverProved) || (RollbackToPrevious in taken && a.rolledBack))
      && (CleanupPreparedPrincipal in taken ==>
            s.newPrincipalCreated || (ReconcilePreparedPrincipal in taken && a.found))
  {
    hide Recover, Plan;
    TakenIsPlan(s, a);
    PlanMembers(Asks(s), Observes(s, a), RollsBack(s, a), CleansUp(s, a));
    PlanOrder(Asks(s), Observes(s, a), RollsBack(s, a), CleansUp(s, a));
  }

  /** The report is accurate: no review is asked for exactly when retirement had not started and
      every action taken completed, and a step is called complete exactly when it was taken and
      completed. */
  lemma ReportIsAccurate(s: RecoveryState, a: Answers)
    ensures var r := Recover(s, a);
      && (r.outcome.operatorReviewRequired <==>
            s.retirementStarted || exists action :: action in r.taken && !Completes(a, action))
      && (r.outcome.rollback == Complete <==> RollbackToPrevious in r.taken && a.rolledBack)
      && (r.outcome.cleanup == Complete <==> CleanupPreparedPrincipal in r.taken && a.cleaned)
      && (r.outcome.operatorReviewRequired <==> r.outcome.errorCode != Recovered)
      && (r.outcome.operatorReviewRequired <==> r.outcome.result == OperatorReviewRequired)
  {
    TakenIsPlan(s, a);
    PlanMembers(Asks(s), Observes(s, a), RollsBack(s, a), CleansUp(s, a));
    var failed := exists action :: action in Recover(s, a).taken && !Completes(a, action);
    assert failed <==>
           || (Asks(s) && a.reconcileThrows) || (Observes(s, a) && !a.observed)
           || (RollsBack(s, a) && !a.rolledBack) || (CleansUp(s, a) && !a.cleaned) by {
      hide Recover, Plan;
      assert ReconcilePreparedPrincipal in Recover(s, a).taken <==> Asks(s);
    }
    hide Plan;
  }

  predicate Threw(s: RecoveryState, a: Answers, action: Action) {
    action in Recover(s, a).taken && !Completes(a, action)
  }

  predicate Did(s: RecoveryState, a: Answers, action: Action) {
    action in Recover(s, a).taken && Completes(a, action)
  }

  lemma WhatWasDone(s: RecoveryState, a: Answers)
    ensures Did(s, a, ReconcilePreparedPrincipal) <==> Asks(s) && !a.reconcileThrows
    ensures Threw(s, a, ReconcilePreparedPrincipal) <==> Asks(s) && a.reconcileThrows
    ensures Threw(s, a, ObserveCandidateAsCurrent) <==> Observes(s, a) && !a.observed
    ensures RollbackToPrevious in Recover(s, a).taken <==> RollsBack(s, a)
    ensures CleanupPreparedPrincipal in Recover(s, a).taken <==> CleansUp(s, a)
  {
    hide Recover, Plan;
    TakenIsPlan(s, a);
    PlanMembers(Asks(s), Observes(s, a), RollsBack(s, a), CleansUp(s, a));
  }

  /** The error code names the action that threw, or retirement where none threw before it was
      considered. */
  lemma ErrorNamesItsCause(s: RecoveryState, a: Answers)
    ensures var code := Recover(s, a).outcome.errorCode;
      && (code == CandidateStateAmbiguous <==> Threw(s, a, ReconcilePreparedPrincipal))
      && (code == CutoverStateAmbiguous <==> Threw(s, a, ObserveCandidateAsCurrent))
      && (code == RollbackRequiresReview <==> Threw(s, a, RollbackToPrevious))
      && (code == CleanupRequiresReview <==> Threw(s, a, CleanupPreparedPrincipal))
      && (code == RetirementRequiresReview <==> s.retirementStarted && !Threw(s, a, ReconcilePreparedPrincipal))
  {
    WhatWasDone(s, a);
  }

  /** The result names what was done. */
  lemma ResultNamesWhatWasDone(s: RecoveryState, a: Answers)
    ensures var outcome := Recover(s, a).outcome;
      && (outcome.result == RolledBackAndCleaned <==>
            Did(s, a, RollbackToPrevious) && Did(s, a, CleanupPreparedPrincipal))
      && (outcome.result == CleanedPreparedPrincipal <==>
            Did(s, a, CleanupPreparedPrincipal) && RollbackToPrevious !in Recover(s, a).taken)
      && (outcome.result == NoMutationToRecover <==>
            !outcome.operatorReviewRequired && CleanupPreparedPrincipal !in Recover(s, a).taken)
  {
    WhatWasDone(s, a);
  }

  /** What the operator must review: the cleanup, where a candidate may be left; the rollback, where the
      cutover was made, or may have been, and was not undone. */
  lemma ReviewIsNamed(s: RecoveryState, a: Answers)
    ensures var outcome := Recover(s, a).outcome;
      var blocked := Threw(s, a, ObserveCandidateAsCurrent) || Threw(s, a, RollbackToPrevious);
      && (outcome.cleanup == OperatorReview <==>
            || Threw(s, a, ReconcilePreparedPrincipal) || s.retirementStarted || Threw(s, a, CleanupPreparedPrincipal)
            || (blocked && (s.newPrincipalCreated || (Did(s, a, ReconcilePreparedPrincipal) && a.found))))
      && (outcome.rollback == OperatorReview <==>
            || blocked
            || (s.retirementStarted && s.cutoverProved && !Threw(s, a, ReconcilePreparedPrincipal)))
  {
    WhatWasDone(s, a);
  }

  /** The order in which a run sets its flags. */
  predicate Ordered(s: RecoveryState) {
    && (s.retirementStarted ==> s.cutoverProved)
    && (s.cutoverProved ==> s.cutoverAcknowledged)
    && (s.cutoverAcknowledged ==> s.cutoverAttempted)
    && (s.cutoverAttempted ==> s.newPrincipalCreated)
    && (s.newPrincipalCreated ==> s.candidateNamed)
  }

  /** "No mutation to recover" means that only for flags in order: then nothing was rolled back, the
      catalog did not show the candidate, and no cutover was attempted. */
  lemma NoMutationMeansNone(s: RecoveryState, a: Answers)
    requires Recover(s, a).outcome.result == NoMutationToRecover
    requires Ordered(s)
    ensures !s.cutoverAttempted && !s.newPrincipalCreated
    ensures Recover(s, a).taken == if s.candidateNamed then [ReconcilePreparedPrincipal] else []
    ensures s.candidateNamed ==> !a.found
  {
  }

  /** Flags out of order, which no run produces, would have a rollback reported as no mutation. */
  lemma UnorderedFlagsMisreport(a: Answers)
    requires a.rolledBack
    ensures var s := RecoveryState(false, true, true, true, false, false);
      && !Ordered(s)
      && Recover(s, a).outcome.result == NoMutationToRecover
      && RollbackToPrevious in Recover(s, a).taken
  {
    var s := RecoveryState(false, true, true, true, false, false);
    assert Recover(s, a).taken == [RollbackToPrevious];
  }
}
