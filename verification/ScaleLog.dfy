/** The lifecycle-log generator and streaming checker of
    `scripts/evaluate-memory-architecture.ts`. */
module ScaleLog {
  import opened Options
  import opened Text

  datatype Kind = Original | Proposal | Decision | DecisionRetry | Query | OtherKind(name: string)
  datatype Outcome = Approved | Rejected | OtherOutcome(name: string)
  datatype Role = FinancialController | OtherRole(name: string)

  /** One line of the log. The lines are cast, not validated, so kinds, outcomes and roles may be
      anything; every outcome that is neither "approved" nor "rejected" is handled as pending. */
  datatype Event = Event(
    sequence: int, entityId: string, sessionId: string, kind: Kind,
    priorEvidenceId: string, proposedEvidenceId: string, idempotencyId: string,
    outcome: Outcome, actorRole: Role,
    expectedEvidenceId: Option<string>, expectedAbstain: bool)

  datatype EntityState = EntityState(
    phase: nat, priorEvidenceId: string, proposedEvidenceId: string, outcome: Outcome,
    currentEvidenceId: Option<string>, expectedEvidenceId: Option<string>, expectedAbstain: bool,
    idempotencyId: string, decided: bool)

  /** The local variables of the checking loop. */
  datatype Checker = Checker(
    states: map<string, EntityState>, previousSequence: int, records: nat,
    queries: nat, correctQueries: nat, expectedActions: nat, actionExecutions: nat,
    unauthorizedActions: nat, suppressions: nat, invalid: nat)

  const INITIAL := Checker(map[], -1, 0, 0, 0, 0, 0, 0, 0, 0)

  datatype Report = Report(
    records: nat, entities: nat, queries: nat, queryAccuracy: real, expectedActions: nat,
    actionExecutions: nat, unauthorizedActions: nat, decisionDuplicateSuppressions: nat,
    invalidTransitions: nat)

  // ---- one event ----

  predicate SameTerms(state: EntityState, e: Event) {
    && state.priorEvidenceId == e.priorEvidenceId
    && state.proposedEvidenceId == e.proposedEvidenceId
    && state.outcome == e.outcome
    && state.idempotencyId == e.idempotencyId
  }

  function Opened(e: Event): EntityState {
    EntityState(1, e.priorEvidenceId, e.proposedEvidenceId, e.outcome, Some(e.priorEvidenceId),
                e.expectedEvidenceId, e.expectedAbstain, e.idempotencyId, false)
  }

  function Penalty(broken: bool): nat {
    if broken then 1 else 0
  }

  function Decide(state: EntityState, e: Event): EntityState {
    match e.outcome
    case Approved =>
      if e.actorRole != FinancialController then state.(phase := 3)
      else state.(phase := 3, currentEvidenceId := Some(e.proposedEvidenceId), decided := true)
    case Rejected =>
      state.(phase := 3, currentEvidenceId := Some(e.priorEvidenceId), decided := true)
    case OtherOutcome(_) =>
      state.(phase := 3, currentEvidenceId := None)
  }

  predicate Answered(state: EntityState) {
    && state.currentEvidenceId == state.expectedEvidenceId
    && state.currentEvidenceId.None? == state.expectedAbstain
  }

  function OnKnownEntity(c: Checker, state: EntityState, e: Event): Checker {
    var c := c.(invalid := c.invalid + Penalty(!SameTerms(state, e)));
    match e.kind
    case Proposal =>
      c.(states := c.states[e.entityId := state.(phase := 2)],
         invalid := c.invalid + Penalty(state.phase != 1))
    case Decision =>
      var executed := Penalty(e.outcome == Approved && e.actorRole == FinancialController);
      c.(states := c.states[e.entityId := Decide(state, e)],
         expectedActions := c.expectedActions + executed,
         actionExecutions := c.actionExecutions + executed,
         unauthorizedActions :=
           c.unauthorizedActions + Penalty(e.outcome == Approved && e.actorRole != FinancialController),
         invalid := c.invalid + Penalty(state.phase != 2)
           + Penalty(e.outcome == Rejected && e.actorRole != FinancialController))
    case DecisionRetry =>
      c.(states := c.states[e.entityId := state.(phase := 4)],
         suppressions := c.suppressions + Penalty(state.decided),
         invalid := c.invalid + Penalty(state.phase != 3))
    case Query =>
      c.(states := c.states[e.entityId := state.(phase := 5)],
         queries := c.queries + 1,
         correctQueries := c.correctQueries + Penalty(Answered(state)),
         invalid := c.invalid + Penalty(state.phase != 4))
    case _ =>
      c.(invalid := c.invalid + 1)
  }

  function Step(c: Checker, e: Event): Checker {
    var known := e.entityId in c.states;
    var c := c.(records := c.records + 1, previousSequence := e.sequence,
                invalid := c.invalid + Penalty(e.sequence != c.previousSequence + 1));
    if e.kind == Original then
      c.(states := c.states[e.entityId := Opened(e)], invalid := c.invalid + Penalty(known))
    else if !known then
      c.(invalid := c.invalid + 1)
    else
      OnKnownEntity(c, c.states[e.entityId], e)
  }

  function Run(log: seq<Event>): Checker {
    if log == [] then INITIAL else Step(Run(log[..|log| - 1]), log[|log| - 1])
  }

  function Unfinished(states: map<string, EntityState>): set<string> {
    set id | id in states && states[id].phase != 5
  }

  /** Number.prototype.toFixed(6): the nearest millionth, the larger of two equally near. */
  function Round6(value: real): real {
    (value * 1_000_000.0 + 0.5).Floor as real / 1_000_000.0
  }

  function ReportOf(c: Checker): Report {
    Report(c.records, |c.states|, c.queries,
           Round6(if c.queries == 0 then 0.0 else c.correctQueries as real / c.queries as real),
           c.expectedActions, c.actionExecutions, c.unauthorizedActions, c.suppressions,
           c.invalid + |Unfinished(c.states)|)
  }

  lemma RunEmpty()
    ensures Run([]) == INITIAL
  {
  }

  lemma RunNext(log: seq<Event>, n: nat)
    requires n < |log|
    ensures log[..0] == []
    ensures Run(log[..n + 1]) == Step(Run(log[..n]), log[n])
  {
    assert log[..n + 1][..n] == log[..n] && log[..n + 1][n] == log[n];
  }

  // ---- the source's loop ----

  method EvaluateScaleCorpus(log: seq<Event>) returns (report: Report)
    ensures report == ReportOf(Run(log))
  {
    hide Run, SameTerms, Opened, Round6, Unfinished;
    RunEmpty();
    var states: map<string, EntityState> := map[];
    var records, queries, correctQueries, expectedActions, actionExecutions := 0, 0, 0, 0, 0;
    var unauthorizedActions, suppressions, invalidTransitions := 0, 0, 0;
    var previousSequence := -1;
    for n := 0 to |log|
      invariant Run(log[..n]) == Checker(states, previousSequence, records, queries, correctQueries,
        expectedActions, actionExecutions, unauthorizedActions, suppressions, invalidTransitions)
    {
      RunNext(log, n);
      var event := log[n];
      records := records + 1;
      if event.sequence != previousSequence + 1 {
        invalidTransitions := invalidTransitions + 1;
      }
      previousSequence := event.sequence;
      if event.kind == Original {
        if event.entityId in states {
          invalidTransitions := invalidTransitions + 1;
        }
        states := states[event.entityId := Opened(event)];
        continue;
      }
      if event.entityId !in states {
        invalidTransitions := invalidTransitions + 1;
        continue;
      }
      var state := states[event.entityId];
      if !SameTerms(state, event) {
        invalidTransitions := invalidTransitions + 1;
      }
      if event.kind == Proposal {
        if state.phase != 1 { invalidTransitions := invalidTransitions + 1; }
        state := state.(phase := 2);
      } else if event.kind == Decision {
        if state.phase != 2 { invalidTransitions := invalidTransitions + 1; }
        state := state.(phase := 3);
        if event.outcome == Approved {
          if event.actorRole != FinancialController {
            unauthorizedActions := unauthorizedActions + 1;
          } else {
            state := state.(currentEvidenceId := Some(event.proposedEvidenceId), decided := true);
            expectedActions := expectedActions + 1;
            actionExecutions := actionExecutions + 1;
          }
        } else if event.outcome == Rejected {
          if event.actorRole != FinancialController { invalidTransitions := invalidTransitions + 1; }
          state := state.(currentEvidenceId := Some(event.priorEvidenceId), decided := true);
        } else {
          state := state.(currentEvidenceId := None);
        }
      } else if event.kind == DecisionRetry {
        if state.phase != 3 { invalidTransitions := invalidTransitions + 1; }
        state := state.(phase := 4);
        if state.decided { suppressions := suppressions + 1; }
      } else if event.kind == Query {
        if state.phase != 4 { invalidTransitions := invalidTransitions + 1; }
        state := state.(phase := 5);
        queries := queries + 1;
        var actualAbstain := state.currentEvidenceId.None?;
        if state.currentEvidenceId == state.expectedEvidenceId && actualAbstain == state.expectedAbstain {
          correctQueries := correctQueries + 1;
        }
      } else {
        invalidTransitions := invalidTransitions + 1;
        continue;
      }
      states := states[event.entityId := state];
    }
    assert log[..|log|] == log;
    var unfinished := CountUnfinished(states);
    invalidTransitions := invalidTransitions + unfinished;
    report := Report(records, |states|, queries,
      Round6(if queries == 0 then 0.0 else correctQueries as real / queries as real),
      expectedActions, actionExecutions, unauthorizedActions, suppressions, invalidTransitions);
  }

  /** The closing loop over the values of the state map, in any order. */
  method CountUnfinished(states: map<string, EntityState>) returns (count: nat)
    ensures count == |Unfinished(states)|
  {
    count := 0;
    var remaining := states.Keys;
    ghost var seen: set<string> := {};
    while remaining != {}
      invariant remaining <= states.Keys
      invariant seen == set id | id in Unfinished(states) && id !in remaining
      invariant count == |seen|
      decreases remaining
    {
      var id :| id in remaining;
      remaining := remaining - {id};
      if states[id].phase != 5 {
        count := count + 1;
        seen := seen + {id};
      }
    }
    assert seen == Unfinished(states);
  }

  // ---- the lifecycle every entity must follow ----

  function Project(log: seq<Event>, id: string): seq<Event> {
    if log == [] then
      []
    else
      var before, last := Project(log[..|log| - 1], id), log[|log| - 1];
      if last.entityId == id then before + [last] else before
  }

  function Stage(k: nat): Kind
    requires k < 5
  {
    match k case 0 => Original case 1 => Proposal case 2 => Decision case 3 => DecisionRetry case 4 => Query
  }

  predicate AgreesWith(first: Event, e: Event) {
    && first.priorEvidenceId == e.priorEvidenceId
    && first.proposedEvidenceId == e.proposedEvidenceId
    && first.outcome == e.outcome
    && first.idempotencyId == e.idempotencyId
  }

  /** A beginning of: original, proposal, decision, decision-retry, query, on constant terms, with
      any rejection made by the controller. */
  predicate LifePrefix(p: seq<Event>) {
    && |p| <= 5
    && (forall k :: 0 <= k < |p| ==> p[k].kind == Stage(k) && AgreesWith(p[0], p[k]))
    && (2 < |p| && p[2].outcome == Rejected ==> p[2].actorRole == FinancialController)
  }

  predicate Lifecycle(p: seq<Event>) {
    |p| == 5 && LifePrefix(p)
  }

  ghost predicate Numbered(log: seq<Event>) {
    forall i :: 0 <= i < |log| ==> log[i].sequence == i
  }

  predicate Occurs(log: seq<Event>, id: string) {
    Project(log, id) != []
  }

  ghost predicate CleanSoFar(log: seq<Event>) {
    Numbered(log) && forall id :: LifePrefix(Project(log, id))
  }

  /** The state a clean projection leaves behind. */
  function StateOf(p: seq<Event>): EntityState
    requires p != [] && LifePrefix(p)
  {
    var start := Opened(p[0]).(phase := |p|);
    if |p| < 3 then start else Decide(start, p[2]).(phase := |p|)
  }

  ghost predicate Tracks(c: Checker, log: seq<Event>)
    requires CleanSoFar(log)
  {
    && c.previousSequence == |log| - 1
    && (forall id :: id in c.states <==> Occurs(log, id))
    && (forall id :: id in c.states ==> c.states[id] == StateOf(Project(log, id)))
  }

  lemma ProjectSnoc(before: seq<Event>, e: Event, id: string)
    ensures Project(before + [e], id)
         == if e.entityId == id then Project(before, id) + [e] else Project(before, id)
  {
    assert (before + [e])[..|before|] == before;
  }

  /** Extending a life by one event keeps it a life exactly when the checker adds no penalty. */
  lemma LifeSnoc(p: seq<Event>, e: Event)
    requires LifePrefix(p)
    ensures LifePrefix(p + [e]) <==>
      if p == [] then e.kind == Original
      else
        && |p| < 5 && e.kind == Stage(|p|) && SameTerms(StateOf(p), e)
        && (e.kind == Decision && e.outcome == Rejected ==> e.actorRole == FinancialController)
  {
    var q := p + [e];
    assert forall k :: 0 <= k < |p| ==> q[k] == p[k];
    assert q[|p|] == e;
    if p != [] {
      assert SameTerms(StateOf(p), e) <==> AgreesWith(p[0], e);
    }
  }

  lemma LifePrefixShrinks(p: seq<Event>, e: Event)
    requires LifePrefix(p + [e])
    ensures LifePrefix(p)
  {
    var q := p + [e];
    assert forall k :: 0 <= k < |p| ==> q[k] == p[k];
  }

  lemma CleanShrinks(before: seq<Event>, e: Event)
    requires CleanSoFar(before + [e])
    ensures CleanSoFar(before)
  {
    var log := before + [e];
    assert forall i :: 0 <= i < |before| ==> log[i] == before[i];
    forall id ensures LifePrefix(Project(before, id)) {
      assert LifePrefix(Project(log, id));
      ProjectSnoc(before, e, id);
      if e.entityId == id {
        LifePrefixShrinks(Project(before, id), e);
      }
    }
  }

  lemma CleanSnoc(before: seq<Event>, e: Event)
    requires CleanSoFar(before)
    ensures CleanSoFar(before + [e]) <==>
      e.sequence == |before| && LifePrefix(Project(before, e.entityId) + [e])
  {
    var log := before + [e];
    assert log[|before|] == e && forall i :: 0 <= i < |before| ==> log[i] == before[i];
    ProjectSnoc(before, e, e.entityId);
    if e.sequence == |before| && LifePrefix(Project(before, e.entityId) + [e]) {
      forall id ensures LifePrefix(Project(log, id)) {
        ProjectSnoc(before, e, id);
      }
    }
    if CleanSoFar(log) {
      assert LifePrefix(Project(log, e.entityId));
    }
    hide LifePrefix;
  }

  /** From a checker that tracks a clean log, a step is free of penalty iff the log stays clean. */
  lemma StepPenalty(c: Checker, p: seq<Event>, e: Event)
    requires LifePrefix(p)
    requires e.entityId in c.states <==> p != []
    requires p != [] ==> c.states[e.entityId] == StateOf(p)
    ensures Step(c, e).invalid == c.invalid
       <==> e.sequence == c.previousSequence + 1 && LifePrefix(p + [e])
  {
    hide LifePrefix, SameTerms, Decide;
    LifeSnoc(p, e);
    if p != [] {
      PhaseIsLength(p);
    }
  }

  lemma PhaseIsLength(p: seq<Event>)
    requires p != [] && LifePrefix(p)
    ensures StateOf(p).phase == |p| <= 5
  {
  }

  lemma StepTracks(c: Checker, before: seq<Event>, e: Event)
    requires CleanSoFar(before) && Tracks(c, before) && CleanSoFar(before + [e])
    ensures Tracks(Step(c, e), before + [e])
  {
    var log := before + [e];
    var p := Project(before, e.entityId);
    CleanSnoc(before, e);
    LifeSnoc(p, e);
    StepStates(c, p, e);
    hide Step, LifePrefix, StateOf, Project;
    forall id
      ensures Project(log, id) == if e.entityId == id then p + [e] else Project(before, id)
    {
      ProjectSnoc(before, e, id);
    }
    assert |log| == |before| + 1;
  }

  lemma StateSnoc(p: seq<Event>, e: Event)
    requires LifePrefix(p) && LifePrefix(p + [e])
    ensures p == [] ==> StateOf(p + [e]) == Opened(e)
    ensures p != [] ==>
      StateOf(p + [e]) == (if |p| == 2 then Decide(StateOf(p), e) else StateOf(p).(phase := |p| + 1))
  {
    var q := p + [e];
    assert q[|p|] == e && forall k :: 0 <= k < |p| ==> q[k] == p[k];
  }

  lemma StepStates(c: Checker, p: seq<Event>, e: Event)
    requires LifePrefix(p) && LifePrefix(p + [e])
    requires e.entityId in c.states <==> p != []
    requires p != [] ==> c.states[e.entityId] == StateOf(p)
    ensures Step(c, e).previousSequence == e.sequence
    ensures Step(c, e).states == c.states[e.entityId := StateOf(p + [e])]
  {
    LifeSnoc(p, e);
    StateSnoc(p, e);
    assert p != [] ==> StateOf(p).phase == |p|;
    hide LifePrefix, Decide, StateOf, SameTerms;
  }

  lemma StepNeverForgives(c: Checker, e: Event)
    ensures c.invalid <= Step(c, e).invalid
  {
  }

  lemma {:induction false} CheckerTracks(log: seq<Event>)
    ensures Run(log).invalid == 0 <==> CleanSoFar(log)
    ensures CleanSoFar(log) ==> Tracks(Run(log), log)
  {
    if log == [] {
      assert forall id :: Project(log, id) == [];
    } else {
      var before, e := log[..|log| - 1], log[|log| - 1];
      assert log == before + [e];
      CheckerTracks(before);
      StepNeverForgives(Run(before), e);
      if CleanSoFar(before) {
        CleanSnoc(before, e);
        StepPenalty(Run(before), Project(before, e.entityId), e);
        if CleanSoFar(log) {
          StepTracks(Run(before), before, e);
        }
      } else if CleanSoFar(log) {
        CleanShrinks(before, e);
      }
      hide Step;
    }
  }

  /** The report counts no invalid transition exactly when the lines are numbered 0, 1, 2, ...
      and every entity that occurs lives one whole lifecycle. */
  lemma CheckerExact(log: seq<Event>)
    ensures ReportOf(Run(log)).invalidTransitions == 0 <==>
      Numbered(log) && forall id :: Occurs(log, id) ==> Lifecycle(Project(log, id))
  {
    var c := Run(log);
    CheckerTracks(log);
    if CleanSoFar(log) {
      assert forall id :: Occurs(log, id) ==> c.states[id].phase == |Project(log, id)|;
      if Unfinished(c.states) == {} {
        forall id | Occurs(log, id) ensures Lifecycle(Project(log, id)) {
          assert id !in Unfinished(c.states);
        }
      }
      if forall id :: Occurs(log, id) ==> Lifecycle(Project(log, id)) {
        assert Unfinished(c.states) == {};
      }
    }
    if forall id :: Occurs(log, id) ==> Lifecycle(Project(log, id)) {
      assert forall id :: LifePrefix(Project(log, id));
    }
  }

  // ---- the generator ----

  const GENERATOR_VERSION := "archon-memory-scale-v1"

  function PadStart(s: string, width: nat): string
    decreases width - |s|
  {
    if |s| < width then PadStart("0" + s, width) else s
  }

  function EntityId(index: nat): string {
    "entity-" + PadStart(Decimal(index), 6)
  }

  function OutcomeOf(index: nat): Outcome {
    if index % 3 == 0 then Approved else if index % 3 == 1 then Rejected else OtherOutcome("pending")
  }

  /** scaleEventsForEntity; `digest` stands for the hexadecimal SHA-256. */
  function ScaleEventsForEntity(index: nat, digest: string -> string): (events: seq<Event>)
    ensures |events| == 5
  {
    var id := EntityId(index);
    var prior, proposed := id + ":prior", id + ":corrected";
    var sum := digest(GENERATOR_VERSION + ":" + id);
    var outcome := OutcomeOf(index);
    var actor := if outcome.OtherOutcome? then OtherRole("none") else FinancialController;
    var expected :=
      match outcome
      case Approved => Some(proposed)
      case Rejected => Some(prior)
      case OtherOutcome(_) => None;
    var base := Event(index * 5, id, "session-a", Original, prior, proposed,
                      sum[..if |sum| < 32 then |sum| else 32], outcome, actor, expected,
                      outcome.OtherOutcome?);
    [base,
     base.(sequence := index * 5 + 1, sessionId := "session-b", kind := Proposal),
     base.(sequence := index * 5 + 2, sessionId := "session-b", kind := Decision),
     base.(sequence := index * 5 + 3, sessionId := "session-b", kind := DecisionRetry),
     base.(sequence := index * 5 + 4, sessionId := "session-c", kind := Query)]
  }

  function Corpus(entities: nat, digest: string -> string): seq<Event> {
    if entities == 0 then []
    else Corpus(entities - 1, digest) + ScaleEventsForEntity(entities - 1, digest)
  }

  /** generateScaleCorpus: the two nested loops, writing to `written`. */
  method GenerateScaleCorpus(entities: nat, digest: string -> string) returns (written: seq<Event>)
    ensures written == Corpus(entities, digest)
  {
    written := [];
    for entityIndex := 0 to entities
      invariant written == Corpus(entityIndex, digest)
    {
      hide ScaleEventsForEntity, Corpus;
      written := WriteAll(written, ScaleEventsForEntity(entityIndex, digest));
      CorpusNext(entityIndex, digest);
    }
  }

  method WriteAll(before: seq<Event>, events: seq<Event>) returns (written: seq<Event>)
    ensures written == before + events
  {
    written := before;
    for k := 0 to |events|
      invariant written == before + events[..k]
    {
      assert events[..k + 1] == events[..k] + [events[k]];
      written := written + [events[k]];
    }
    assert events[..|events|] == events;
  }

  lemma CorpusNext(entities: nat, digest: string -> string)
    ensures Corpus(entities + 1, digest)
         == Corpus(entities, digest) + ScaleEventsForEntity(entities, digest)
  {
  }

  // ---- entity identifiers are distinct ----

  lemma {:induction false} ValueIgnoresLeadingZero(s: string)
    ensures Value("0" + s) == Value(s)
  {
    if s == [] {
      assert "0" + s == "0" && "0"[..0] == "";
    } else {
      var init := s[..|s| - 1];
      assert ("0" + s)[..|s|] == "0" + init;
      ValueIgnoresLeadingZero(init);
    }
  }

  lemma {:induction false} ValueOfPadded(s: string, width: nat)
    ensures Value(PadStart(s, width)) == Value(s)
    decreases width - |s|
  {
    if |s| < width {
      ValueIgnoresLeadingZero(s);
      ValueOfPadded("0" + s, width);
    }
  }

  lemma EntityIdInjective(i: nat, j: nat)
    requires EntityId(i) == EntityId(j)
    ensures i == j
  {
    ValueOfPadded(Decimal(i), 6);
    ValueOfPadded(Decimal(j), 6);
    ValueOfDecimal(i);
    ValueOfDecimal(j);
    assert EntityId(i)[7..] == PadStart(Decimal(i), 6);
    assert EntityId(j)[7..] == PadStart(Decimal(j), 6);
  }

  // ---- the generator meets the checker ----

  lemma RunSnoc(log: seq<Event>, e: Event)
    ensures Run(log + [e]) == Step(Run(log), e)
  {
    assert (log + [e])[..|log|] == log;
  }

  /** Steps over one event of each stage, for an entity the checker tracks so far. */
  lemma StageStep(c: Checker, e: Event, known: EntityState)
    requires e.kind != Original && e.sequence == c.previousSequence + 1
    requires e.entityId in c.states && c.states[e.entityId] == known && SameTerms(known, e)
    requires 1 <= known.phase < 5 && e.kind == Stage(known.phase)
    requires e.outcome != OtherOutcome("pending") ==> e.actorRole == FinancialController
    requires e.outcome in {Approved, Rejected, OtherOutcome("pending")}
    ensures var d := Step(c, e);
            && d == c.(states := d.states, previousSequence := e.sequence, records := c.records + 1,
                 expectedActions := c.expectedActions + Penalty(e.kind == Decision && e.outcome == Approved),
                 actionExecutions := c.actionExecutions + Penalty(e.kind == Decision && e.outcome == Approved),
                 suppressions := c.suppressions + Penalty(e.kind == DecisionRetry && known.decided),
                 queries := c.queries + Penalty(e.kind == Query),
                 correctQueries := c.correctQueries + Penalty(e.kind == Query && Answered(known)))
            && d.states == c.states[e.entityId := if e.kind == Decision then Decide(known, e)
                                                  else known.(phase := known.phase + 1)]
  {
  }

  lemma EventFacts(index: nat, digest: string -> string)
    ensures var events, e := ScaleEventsForEntity(index, digest), ScaleEventsForEntity(index, digest)[0];
            && e.outcome == OutcomeOf(index)
            && e.expectedAbstain == OutcomeOf(index).OtherOutcome?
            && e.expectedEvidenceId == (match OutcomeOf(index)
                 case Approved => Some(e.proposedEvidenceId)
                 case Rejected => Some(e.priorEvidenceId)
                 case OtherOutcome(_) => None)
            && (OutcomeOf(index) != OtherOutcome("pending") ==> e.actorRole == FinancialController)
            && forall k :: 0 <= k < 5 ==>
                 && events[k].sequence == 5 * index + k && events[k].kind == Stage(k)
                 && events[k].entityId == EntityId(index)
                 && AgreesWith(e, events[k]) && events[k].actorRole == e.actorRole
  {
  }

  /** The five lines of an entity, in the generator's own words. */
  lemma LinesOfEntity(index: nat, digest: string -> string)
    ensures var lines, id := ScaleEventsForEntity(index, digest), EntityId(index);
      var sum := digest("archon-memory-scale-v1:" + id);
      && lines[0].sessionId == "session-a" && lines[4].sessionId == "session-c"
      && lines[1].sessionId == lines[2].sessionId == lines[3].sessionId == "session-b"
      && forall k :: 0 <= k < 5 ==>
           && lines[k].priorEvidenceId == id + ":prior" && lines[k].proposedEvidenceId == id + ":corrected"
           && (|sum| >= 32 ==> lines[k].idempotencyId == sum[..32])
           && lines[k].actorRole == (if index % 3 == 2 then OtherRole("none") else FinancialController)
           && lines[k].outcome == [Approved, Rejected, OtherOutcome("pending")][index % 3]
  {
    assert "archon-memory-scale-v1" + ":" == "archon-memory-scale-v1:";
    hide EntityId;
  }

  /** What one generated entity adds to the checker. */
  ghost predicate OneMore(c: Checker, d: Checker, index: nat) {
    && d.previousSequence == 5 * (index + 1) - 1
    && d.states.Keys == c.states.Keys + {EntityId(index)}
    && d.states[EntityId(index)].phase == 5
    && (forall id :: id in c.states ==> d.states[id] == c.states[id])
    && d.records == c.records + 5
    && d.queries == c.queries + 1 && d.correctQueries == c.correctQueries + 1
    && d.expectedActions == c.expectedActions + Penalty(index % 3 == 0)
    && d.actionExecutions == c.actionExecutions + Penalty(index % 3 == 0)
    && d.suppressions == c.suppressions + Penalty(index % 3 != 2)
    && d.unauthorizedActions == c.unauthorizedActions && d.invalid == c.invalid
  }

  /** Five generated events take a fresh entity through one whole, correctly answered life. */
  lemma EntityRun(log: seq<Event>, index: nat, digest: string -> string)
    requires Run(log).previousSequence == 5 * index - 1 && EntityId(index) !in Run(log).states
    ensures OneMore(Run(log), Run(log + ScaleEventsForEntity(index, digest)), index)
  {
    hide ScaleEventsForEntity, EntityId, Run;
    EventFacts(index, digest);
    var events := ScaleEventsForEntity(index, digest);
    RunFive(log, events);
    var c, id := Run(log), EntityId(index);
    var s1 := Opened(events[0]);
    var s2 := s1.(phase := 2);
    var s3 := Decide(s2, events[2]);
    var s4 := s3.(phase := 4);
    var c1 := Step(c, events[0]);
    assert c1 == c.(states := c.states[id := s1], records := c.records + 1, previousSequence := 5 * index);
    hide Step;
    StageStep(c1, events[1], s1);
    var c2 := Step(c1, events[1]);
    StageStep(c2, events[2], s2);
    var c3 := Step(c2, events[2]);
    StageStep(c3, events[3], s3);
    var c4 := Step(c3, events[3]);
    StageStep(c4, events[4], s4);
    assert Answered(s4);
    assert s3.decided <==> index % 3 != 2;
  }

  lemma RunFive(log: seq<Event>, events: seq<Event>)
    requires |events| == 5
    ensures Run(log + events) ==
      Step(Step(Step(Step(Step(Run(log), events[0]), events[1]), events[2]), events[3]), events[4])
  {
    hide Step;
    RunSnoc(log, events[0]);
    RunSnoc(log + [events[0]], events[1]);
    RunSnoc(log + [events[0]] + [events[1]], events[2]);
    RunSnoc(log + [events[0]] + [events[1]] + [events[2]], events[3]);
    RunSnoc(log + [events[0]] + [events[1]] + [events[2]] + [events[3]], events[4]);
    assert log + events ==
      log + [events[0]] + [events[1]] + [events[2]] + [events[3]] + [events[4]];
  }

  function Ids(entities: nat): set<string> {
    if entities == 0 then {} else Ids(entities - 1) + {EntityId(entities - 1)}
  }

  lemma {:induction false} FreshId(entities: nat, index: nat)
    requires entities <= index
    ensures EntityId(index) !in Ids(entities)
  {
    hide EntityId;
    if entities != 0 {
      FreshId(entities - 1, index);
      if EntityId(index) == EntityId(entities - 1) {
        EntityIdInjective(index, entities - 1);
      }
    }
  }

  /** The checker after `entities` generated entities. */
  ghost predicate Totals(c: Checker, entities: nat) {
    && c.previousSequence == 5 * entities - 1
    && c.states.Keys == Ids(entities) && |c.states| == entities
    && (forall id :: id in c.states ==> c.states[id].phase == 5)
    && c.records == 5 * entities
    && c.queries == c.correctQueries == entities
    && c.expectedActions == c.actionExecutions == (entities + 2) / 3
    && c.suppressions == entities - entities / 3
    && c.unauthorizedActions == 0 && c.invalid == 0
  }

  lemma TotalsStep(c: Checker, d: Checker, index: nat)
    requires Totals(c, index) && OneMore(c, d, index)
    ensures Totals(d, index + 1)
  {
    hide EntityId;
    FreshId(index, index);
    assert |d.states| == |d.states.Keys| && |c.states| == |c.states.Keys|;
  }

  lemma {:induction false} CorpusRun(entities: nat, digest: string -> string)
    ensures |Corpus(entities, digest)| == 5 * entities
    ensures Totals(Run(Corpus(entities, digest)), entities)
  {
    if entities != 0 {
      var index := entities - 1;
      var before := Corpus(index, digest);
      CorpusRun(index, digest);
      FreshId(index, index);
      EntityRun(before, index, digest);
      TotalsStep(Run(before), Run(Corpus(entities, digest)), index);
      hide EntityId, ScaleEventsForEntity, Run, OneMore;
    }
  }

  /** What the checker reports of the generated log, for every number of entities. */
  lemma GeneratorMeetsChecker(entities: nat, digest: string -> string)
    ensures ReportOf(Run(Corpus(entities, digest))) ==
      Report(5 * entities, entities, entities, if entities == 0 then 0.0 else 1.0,
             (entities + 2) / 3, (entities + 2) / 3, 0, entities - entities / 3, 0)
  {
    hide Run, Corpus, Round6;
    CorpusRun(entities, digest);
    var c := Run(Corpus(entities, digest));
    assert Unfinished(c.states) == {};
    RoundWhole();
    if entities != 0 {
      SelfQuotient(entities);
    }
  }

  lemma SelfQuotient(n: nat)
    requires n != 0
    ensures n as real / n as real == 1.0
  {
  }

  lemma RoundWhole()
    ensures Round6(0.0) == 0.0 && Round6(1.0) == 1.0
  {
  }

  /** Only queries are counted as correct, each at most once. */
  lemma {:induction false} CorrectAreQueries(log: seq<Event>)
    ensures Run(log).correctQueries <= Run(log).queries
  {
    if log != [] {
      CorrectAreQueries(log[..|log| - 1]);
    }
  }

  /** Whatever the log, a reported accuracy of 1 does not mean every query was answered: it means that
      the wrong answers are at most one in two million. */
  lemma ReportedPerfection(log: seq<Event>)
    requires Run(log).queries != 0
    ensures ReportOf(Run(log)).queryAccuracy == 1.0
       <==> 2_000_000 * (Run(log).queries - Run(log).correctQueries) <= Run(log).queries
  {
    hide Run;
    CorrectAreQueries(log);
    var c := Run(log);
    var ratio := c.correctQueries as real / c.queries as real;
    Quotient(c.correctQueries as real, c.queries as real);
    RatioBound(ratio, c.correctQueries as real, c.queries as real, 0.999_999_5);
    LinearBound(c.correctQueries, c.queries);
    RoundsToOne(ratio);
    hide Round6;
  }

  lemma RatioBound(ratio: real, k: real, q: real, bound: real)
    requires k <= q && q > 0.0 && ratio * q == k
    ensures ratio <= 1.0
    ensures bound <= ratio <==> bound * q <= k
  {
    ScaleInequality(ratio, 1.0, q);
    ScaleInequality(bound, ratio, q);
  }

  lemma LinearBound(correct: nat, queries: nat)
    ensures 0.999_999_5 * queries as real <= correct as real
       <==> 2_000_000 * (queries - correct) <= queries
  {
    var lost := (queries - correct) as real;
    assert 0.999_999_5 * queries as real <= correct as real <==> 2_000_000.0 * lost <= queries as real;
    assert (2_000_000 * (queries - correct)) as real == 2_000_000.0 * lost;
  }

  lemma Quotient(k: real, q: real)
    requires q > 0.0
    ensures k / q * q == k
  {
  }

  lemma RoundsToOne(ratio: real)
    requires ratio <= 1.0
    ensures Round6(ratio) == 1.0 <==> 0.999_999_5 <= ratio
  {
    var scaled := ratio * 1_000_000.0 + 0.5;
    assert scaled.Floor <= 1_000_000;
    assert scaled.Floor == 1_000_000 <==> 1_000_000.0 <= scaled;
  }

  lemma ScaleInequality(x: real, y: real, q: real)
    requires q > 0.0
    ensures x <= y <==> x * q <= y * q
  {
    assert (y - x) * q == y * q - x * q;
  }
}
