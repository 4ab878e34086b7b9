/** The counters of the lifecycle checker in `scripts/evaluate-memory-architecture.ts` as counts of lines
    of the log, for any log. */
module ScaleCounts {
  import opened Options
  import opened ScaleLog

  /** The lines of an entity from the last one that opens it on; none if nothing does. */
  function Life(log: seq<Event>, id: string): seq<Event> {
    if log == [] then []
    else
      var before, last := Life(log[..|log| - 1], id), log[|log| - 1];
      if last.entityId != id then before
      else if last.kind == Original then [last]
      else if before == [] then []
      else before + [last]
  }

  /** An approval by the financial controller. */
  predicate Executes(e: Event) {
    e.kind == Decision && e.outcome == Approved && e.actorRole == FinancialController
  }

  /** An approval by anyone else. */
  predicate Oversteps(e: Event) {
    e.kind == Decision && e.outcome == Approved && e.actorRole != FinancialController
  }

  predicate Rejects(e: Event) {
    e.kind == Decision && e.outcome == Rejected
  }

  /** An approval was executed, or a rejection made. */
  predicate Decided(life: seq<Event>) {
    exists e :: e in life && (Executes(e) || Rejects(e))
  }

  /** What the last decision leaves as evidence, unless it oversteps; before any, what the life opened
      with. */
  function Evidence(life: seq<Event>): Option<string>
    requires life != []
  {
    var last := life[|life| - 1];
    if Executes(last) then Some(last.proposedEvidenceId)
    else if Rejects(last) then Some(last.priorEvidenceId)
    else if last.kind == Decision && last.outcome != Approved then None
    else if |life| == 1 then Some(life[0].priorEvidenceId)
    else Evidence(life[..|life| - 1])
  }

  /** A query is answered rightly if the evidence is the one the opening line expects, and if that line
      expects an abstention exactly where there is none. */
  predicate AnswersRightly(life: seq<Event>)
    requires life != []
  {
    && Evidence(life) == life[0].expectedEvidenceId
    && (life[0].expectedAbstain <==> Evidence(life) == None)
  }

  /** How far the life has come: the step of its last line of a known kind. */
  function Phase(life: seq<Event>): nat {
    if life == [] then 0
    else
      match life[|life| - 1].kind
      case Original => 1
      case Proposal => 2
      case Decision => 3
      case DecisionRetry => 4
      case Query => 5
      case OtherKind(_) => Phase(life[..|life| - 1])
  }

  function One(counts: bool): nat {
    if counts then 1 else 0
  }

  predicate DiffersFrom(opening: Event, e: Event) {
    || e.priorEvidenceId != opening.priorEvidenceId || e.proposedEvidenceId != opening.proposedEvidenceId
    || e.outcome != opening.outcome || e.idempotencyId != opening.idempotencyId
  }

  /** What is wrong with a line after a line numbered `previous`, given the entity's life so far: its number; a
      second opening; anything before an opening; other terms than those of the opening; a step out of
      order or of no known kind; a rejection by someone else than the financial controller. */
  function Flaws(previous: int, life: seq<Event>, e: Event): nat {
    One(e.sequence != previous + 1)
    + if e.kind == Original then One(life != [])
      else if life == [] then 1
      else
        One(DiffersFrom(life[0], e)) + One(Rejects(e) && e.actorRole != FinancialController)
        + match e.kind
          case Proposal => One(Phase(life) != 1)
          case Decision => One(Phase(life) != 2)
          case DecisionRetry => One(Phase(life) != 3)
          case Query => One(Phase(life) != 4)
          case _ => 1
  }

  /** All flaws of all lines. */
  function AllFlaws(log: seq<Event>): nat {
    if log == [] then 0
    else
      var before, last := log[..|log| - 1], log[|log| - 1];
      AllFlaws(before)
      + Flaws(if before == [] then -1 else before[|before| - 1].sequence, Life(before, last.entityId), last)
  }

  /** How many lines have a property, which may look at the life of the entity before the line. */
  ghost function Count(log: seq<Event>, counts: (seq<Event>, Event) -> bool): nat {
    if log == [] then 0
    else
      var before, last := log[..|log| - 1], log[|log| - 1];
      Count(before, counts) + if counts(Life(before, last.entityId), last) then 1 else 0
  }

  lemma LifeOpens(log: seq<Event>, id: string)
    ensures Life(log, id) != [] ==> Life(log, id)[0].kind == Original
    ensures Life(log, id) != [] <==> exists i :: 0 <= i < |log| && log[i].kind == Original && log[i].entityId == id
  {
    if log != [] {
      LifeOpens(log[..|log| - 1], id);
      var before, last := log[..|log| - 1], log[|log| - 1];
      assert forall i :: 0 <= i < |before| ==> before[i] == log[i];
    }
  }

  /** What the checker holds of each entity, in terms of its life. */
  predicate Holds(state: EntityState, life: seq<Event>)
    requires life != []
  {
    && state.currentEvidenceId == Evidence(life)
    && state.expectedEvidenceId == life[0].expectedEvidenceId && state.expectedAbstain == life[0].expectedAbstain
    && (state.decided <==> Decided(life)) && state.phase == Phase(life)
    && state.priorEvidenceId == life[0].priorEvidenceId && state.proposedEvidenceId == life[0].proposedEvidenceId
    && state.outcome == life[0].outcome && state.idempotencyId == life[0].idempotencyId
  }

  ghost predicate HoldsAll(c: Checker, log: seq<Event>) {
    forall id :: if Life(log, id) == [] then id !in c.states
                 else id in c.states && Holds(c.states[id], Life(log, id))
  }

  lemma LifeSnoc(log: seq<Event>, e: Event, id: string)
    ensures Life(log + [e], id) ==
      if e.entityId != id then Life(log, id)
      else if e.kind == Original then [e]
      else if Life(log, id) == [] then []
      else Life(log, id) + [e]
  {
    assert (log + [e])[..|log|] == log;
  }

  lemma HoldsSnoc(state: EntityState, life: seq<Event>, e: Event, c: Checker)
    requires life != [] && life[0].kind == Original && Holds(state, life) && e.kind != Original
    ensures var d := OnKnownEntity(c, state, e);
      && d.states == (if e.kind.OtherKind? then c.states else c.states[e.entityId := d.states[e.entityId]])
      && (e.kind.OtherKind? ==> Holds(state, life + [e]))
      && (!e.kind.OtherKind? ==> e.entityId in d.states && Holds(d.states[e.entityId], life + [e]))
  {
    var more := life + [e];
    assert more[..|more| - 1] == life && more[0] == life[0];
    assert Decided(more) <==> Decided(life) || Executes(e) || Rejects(e) by {
      assert forall x :: x in more <==> x in life || x == e;
    }
  }

  lemma OpenedHolds(e: Event)
    requires e.kind == Original
    ensures Holds(Opened(e), [e])
  {
  }

  lemma StepHolds(c: Checker, log: seq<Event>, e: Event)
    requires HoldsAll(c, log)
    ensures HoldsAll(Step(c, e), log + [e])
  {
    hide Holds, Life, Opened;
    var id := e.entityId;
    LifeSnoc(log, e, id);
    LifeOpens(log, id);
    OpenedIf(e);
    if e.kind != Original && Life(log, id) != [] {
      var counted := c.(records := c.records + 1, previousSequence := e.sequence,
                        invalid := c.invalid + Penalty(e.sequence != c.previousSequence + 1));
      HoldsSnoc(c.states[id], Life(log, id), e, counted);
      hide OnKnownEntity;
    }
    forall other
      ensures other != id ==> Life(log + [e], other) == Life(log, other)
    {
      LifeSnoc(log, e, other);
    }
  }

  lemma OpenedIf(e: Event)
    ensures e.kind == Original ==> Holds(Opened(e), [e])
  {
    if e.kind == Original {
      OpenedHolds(e);
    }
  }

  lemma {:induction false} RunHolds(log: seq<Event>)
    ensures HoldsAll(Run(log), log)
  {
    hide Step, Holds;
    if log != [] {
      var before, last := log[..|log| - 1], log[|log| - 1];
      RunHolds(before);
      StepHolds(Run(before), before, last);
      assert log == before + [last];
    }
  }

  predicate AsksOpened(life: seq<Event>, e: Event) {
    life != [] && e.kind == Query
  }

  predicate AsksRightly(life: seq<Event>, e: Event) {
    life != [] && e.kind == Query && AnswersRightly(life)
  }

  predicate ExecutesOpened(life: seq<Event>, e: Event) {
    life != [] && Executes(e)
  }

  predicate OverstepsOpened(life: seq<Event>, e: Event) {
    life != [] && Oversteps(e)
  }

  predicate RetriesDecided(life: seq<Event>, e: Event) {
    life != [] && e.kind == DecisionRetry && Decided(life)
  }

  lemma StepCounts(c: Checker, life: seq<Event>, e: Event)
    requires if life == [] then e.entityId !in c.states else e.entityId in c.states && Holds(c.states[e.entityId], life)
    ensures var d := Step(c, e);
      && d.records == c.records + 1
      && d.queries == c.queries + One(AsksOpened(life, e))
      && d.correctQueries == c.correctQueries + One(AsksRightly(life, e))
      && d.expectedActions == c.expectedActions + One(ExecutesOpened(life, e))
      && d.actionExecutions == c.actionExecutions + One(ExecutesOpened(life, e))
      && d.unauthorizedActions == c.unauthorizedActions + One(OverstepsOpened(life, e))
      && d.suppressions == c.suppressions + One(RetriesDecided(life, e))
      && d.previousSequence == e.sequence && d.invalid == c.invalid + Flaws(c.previousSequence, life, e)
  {
    hide Evidence, Opened, Decide, Decided, Phase;
  }

  lemma CountNext(log: seq<Event>, counts: (seq<Event>, Event) -> bool)
    requires log != []
    ensures var before, last := log[..|log| - 1], log[|log| - 1];
      Count(log, counts) == Count(before, counts) + One(counts(Life(before, last.entityId), last))
  {
  }

  /** Every counter is a count of lines: all lines; those of an opened entity that are queries, and those
      answered rightly; approvals by the controller, which are both expected and executed, and by
      others; and retries after a decision. What is invalid is the number of flaws. */
  lemma {:induction false} CountersCount(log: seq<Event>)
    ensures var c := Run(log);
      && c.records == |log|
      && c.queries == Count(log, AsksOpened) && c.correctQueries == Count(log, AsksRightly)
      && c.expectedActions == c.actionExecutions == Count(log, ExecutesOpened)
      && c.unauthorizedActions == Count(log, OverstepsOpened)
      && c.suppressions == Count(log, RetriesDecided)
      && c.invalid == AllFlaws(log)
      && c.previousSequence == (if log == [] then -1 else log[|log| - 1].sequence)
  {
    if log != [] {
      var before, last := log[..|log| - 1], log[|log| - 1];
      CountersCount(before);
      RunHolds(before);
      StepCounts(Run(before), Life(before, last.entityId), last);
      CountNext(log, AsksOpened);
      CountNext(log, AsksRightly);
      CountNext(log, ExecutesOpened);
      CountNext(log, OverstepsOpened);
      CountNext(log, RetriesDecided);
      RunUnfolds(log);
      hide Run, Step, Life, Count, Holds, Flaws, AsksOpened, AsksRightly, ExecutesOpened, OverstepsOpened,
           RetriesDecided;
    } else {
      RunEmpty();
    }
  }

  lemma RunUnfolds(log: seq<Event>)
    requires log != []
    ensures Run(log) == Step(Run(log[..|log| - 1]), log[|log| - 1])
  {
    hide Step;
  }

  lemma StatesAreOpened(log: seq<Event>, id: string)
    ensures id in Run(log).states <==> Life(log, id) != []
    ensures id in Run(log).states ==> Run(log).states[id].phase == Phase(Life(log, id))
  {
    RunHolds(log);
    hide Run, Life, Phase, Evidence, Decided;
  }

  lemma OpenedEntities(log: seq<Event>, ids: set<string>)
    requires forall id :: id in ids <==> Life(log, id) != []
    ensures |Run(log).states| == |ids|
    ensures Unfinished(Run(log).states) == set id | id in ids && Phase(Life(log, id)) != 5
  {
    hide Run, Life, Phase;
    var states := Run(log).states;
    forall id
      ensures id in states <==> id in ids
      ensures id in ids ==> states[id].phase == Phase(Life(log, id))
    {
      StatesAreOpened(log, id);
    }
    assert states.Keys == ids;
    assert |states| == |states.Keys|;
  }

  /** What the report adds: the entities opened, and among what is invalid those whose life did not come to
      its query. */
  lemma ReportCounts(log: seq<Event>, ids: set<string>)
    requires forall id :: id in ids <==> Life(log, id) != []
    ensures var r := ReportOf(Run(log));
      && r.records == |log| && r.entities == |ids|
      && r.queries == Count(log, AsksOpened)
      && r.expectedActions == r.actionExecutions == Count(log, ExecutesOpened)
      && r.unauthorizedActions == Count(log, OverstepsOpened)
      && r.decisionDuplicateSuppressions == Count(log, RetriesDecided)
      && r.invalidTransitions == AllFlaws(log) + |set id | id in ids && Phase(Life(log, id)) != 5|
  {
    hide Run, Life, Phase, Count, AllFlaws, Round6, Unfinished;
    CountersCount(log);
    OpenedEntities(log, ids);
  }
}
