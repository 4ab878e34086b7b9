/** createCredentialPoolController of `src/db/client.ts`: a pool pointer refreshed by at most one
    asynchronous task at a time. Between two awaits the code runs alone, so each stretch from one
    await to the next is one step; steps of any calls may interleave in any order. Every step is
    first given as a function on values, about which runs of any length are proved safe, and then as
    a method of the controller that performs it on the controller's fields. */
module PoolController {
  import opened Options
  import opened Text

  type PoolId = nat
  type TaskId = nat

  datatype Source = Direct | SecretsManager
  datatype Credential = Credential(version: string, source: Source)

  const DIRECT := Credential("direct-environment", Direct)

  datatype Deadline = At(time: int) | Never

  predicate Before(now: int, deadline: Deadline) {
    deadline.Never? || now < deadline.time
  }

  datatype Answer = Fulfilled(pool: PoolId) | Rejected

  /** Where a refresh stands: awaiting the credential, awaiting the probe of its candidate, awaiting
      the end of a candidate that failed it; then refresh() has settled and `catch` is next, then
      `catch` has and `finally` is next, and then callers may see the answer. */
  datatype Phase =
    | Resolving
    | Probing(candidate: PoolId)
    | Discarding(candidate: PoolId)
    | Refreshed(answer: Answer)
    | Handled(answer: Answer)
    | Settled(answer: Answer)

  datatype Task = Task(fallback: Option<PoolId>, phase: Phase)

  /** A pool ever created: by which refresh (none: installed directly), from which credential,
      whether a probe succeeded, and how often `end` was called on it. */
  datatype Pool = Pool(maker: Option<TaskId>, credential: Credential, proved: bool, ends: nat)

  /** A call of get. It is `promised` an answer if a pool was there when it began and no close has
      emptied the controller since. */
  datatype Call = Waiting(task: TaskId, promised: bool) | Returned(answer: Answer, promised: bool)

  datatype Closing = Awaiting(task: TaskId) | Closed

  /** The four fields of the controller, and what surrounds them: pools, refreshes, callers. The time
      of the last completed attempt, `checkedAt`, is kept for the claims only. */
  datatype State = State(
    refreshMs: nat,
    currentPool: Option<PoolId>,
    credentialVersion: Option<string>,
    nextCredentialCheckAt: Deadline,
    refreshPromise: Option<TaskId>,
    checkedAt: int,
    pools: seq<Pool>,
    tasks: seq<Task>,
    calls: seq<Call>,
    closings: seq<Closing>)

  function Initial(refreshMs: nat): State {
    State(refreshMs, None, None, At(0), None, 0, [], [], [], [])
  }

  // ---- the cadence ----

  /** databaseSecretRefreshMs: None where it throws. */
  function DatabaseSecretRefreshMs(value: Option<string>): Option<nat> {
    var normalized := if value.Some? then Trim(value.value) else "";
    if normalized != [] && !IsNumeral(normalized) then None
    else
      var parsed := if normalized != [] then Value(normalized) else 30;
      if parsed < 15 || parsed > 300 then None else Some(parsed * 1_000)
  }

  /** It accepts, up to surrounding white space, nothing or a numeral from 15 to 300, and so never
      asks for a cadence below 15 s or above 5 min. */
  lemma RefreshCadence(value: Option<string>, ms: nat)
    ensures DatabaseSecretRefreshMs(value) == Some(ms) <==>
      var text := if value.Some? then Trim(value.value) else "";
      || (text == "" && ms == 30_000)
      || exists seconds: nat :: 15 <= seconds <= 300 && text == Decimal(seconds) && ms == 1_000 * seconds
  {
    hide Trim, AllDigits, Value, Decimal;
    var text := if value.Some? then Trim(value.value) else "";
    if IsNumeral(text) {
      DecimalOfValue(text);
    }
    forall seconds: nat | text == Decimal(seconds)
      ensures IsNumeral(text) && Value(text) == seconds
    {
      DecimalIsNumeral(seconds);
      ValueOfDecimal(seconds);
    }
  }

  // ---- steps ----

  function WithPhase(s: State, t: TaskId, phase: Phase): State
    requires t < |s.tasks|
  {
    s.(tasks := s.tasks[t := s.tasks[t].(phase := phase)])
  }

  function EndPool(pools: seq<Pool>, p: PoolId): seq<Pool> {
    if p < |pools| then pools[p := pools[p].(ends := pools[p].ends + 1)] else pools
  }

  function EndPrevious(pools: seq<Pool>, p: Option<PoolId>): seq<Pool> {
    if p.Some? then EndPool(pools, p.value) else pools
  }

  function AfterGet(s: State, now: int): State {
    if s.currentPool.Some? && Before(now, s.nextCredentialCheckAt) then
      s.(calls := s.calls + [Returned(Fulfilled(s.currentPool.value), true)])
    else
      var asked := if s.refreshPromise.Some? then s
                   else s.(refreshPromise := Some(|s.tasks|), tasks := s.tasks + [Task(s.currentPool, Resolving)]);
      asked.(calls := s.calls + [Waiting(asked.refreshPromise.value, s.currentPool.Some?)])
  }

  /** The credential arrived: it is the one in use, or a candidate is created and its probe begun. */
  function AfterResolved(s: State, t: TaskId, credential: Credential, now: int): State
    requires t < |s.tasks|
  {
    if s.currentPool.Some? && credential.source == SecretsManager
       && s.credentialVersion == Some(credential.version) then
      WithPhase(s.(nextCredentialCheckAt := At(now + s.refreshMs), checkedAt := now),
                t, Refreshed(Fulfilled(s.currentPool.value)))
    else
      WithPhase(s.(pools := s.pools + [Pool(Some(t), credential, false, 0)]), t, Probing(|s.pools|))
  }

  /** The probe succeeded: the pointer swaps and the previous pool is ended. */
  function AfterProved(s: State, t: TaskId, now: int): State
    requires t < |s.tasks| && s.tasks[t].phase.Probing? && s.tasks[t].phase.candidate < |s.pools|
  {
    var p := s.tasks[t].phase.candidate;
    var credential := s.pools[p].credential;
    var proved := s.pools[p := s.pools[p].(proved := true)];
    WithPhase(
      s.(currentPool := Some(p), credentialVersion := Some(credential.version),
         nextCredentialCheckAt := if credential.source == SecretsManager then At(now + s.refreshMs) else Never,
         checkedAt := now,
         pools := EndPrevious(proved, s.currentPool)),
      t, Refreshed(Fulfilled(p)))
  }

  /** The probe failed: the candidate is ended. */
  function AfterUnproved(s: State, t: TaskId): State
    requires t < |s.tasks| && s.tasks[t].phase.Probing?
  {
    var p := s.tasks[t].phase.candidate;
    WithPhase(s.(pools := EndPool(s.pools, p)), t, Discarding(p))
  }

  /** get's catch: a failed refresh falls back to the pool it began with, if that is still current. */
  function AfterCaught(s: State, t: TaskId, now: int): State
    requires t < |s.tasks| && s.tasks[t].phase.Refreshed?
  {
    var task := s.tasks[t];
    if task.phase.answer.Rejected? && task.fallback.Some? && s.currentPool == task.fallback then
      WithPhase(s.(nextCredentialCheckAt := At(now + 15_000), checkedAt := now),
                t, Handled(Fulfilled(task.fallback.value)))
    else
      WithPhase(s, t, Handled(task.phase.answer))
  }

  /** get's finally */
  function AfterFinally(s: State, t: TaskId): State
    requires t < |s.tasks| && s.tasks[t].phase.Handled?
  {
    WithPhase(s.(refreshPromise := None), t, Settled(s.tasks[t].phase.answer))
  }

  function AfterReturn(s: State, c: nat): State
    requires c < |s.calls| && s.calls[c].Waiting? && s.calls[c].task < |s.tasks|
    requires s.tasks[s.calls[c].task].phase.Settled?
  {
    s.(calls := s.calls[c := Returned(s.tasks[s.calls[c].task].phase.answer, s.calls[c].promised)])
  }

  function Unpromised(c: Call): Call {
    if c.Waiting? then Waiting(c.task, false) else c
  }

  function UnpromisedAll(calls: seq<Call>): (r: seq<Call>)
    ensures |r| == |calls| && forall i :: 0 <= i < |calls| ==> r[i] == Unpromised(calls[i])
  {
    seq(|calls|, i requires 0 <= i < |calls| => Unpromised(calls[i]))
  }

  /** close from its resumption on: everything is cleared, whatever it was, and the pool ended. */
  function Emptied(s: State): State {
    s.(currentPool := None, credentialVersion := None, nextCredentialCheckAt := At(0), refreshPromise := None,
       pools := EndPrevious(s.pools, s.currentPool),
       calls := UnpromisedAll(s.calls))
  }

  function AfterClose(s: State): State {
    if s.refreshPromise.Some? then s.(closings := s.closings + [Awaiting(s.refreshPromise.value)])
    else Emptied(s.(closings := s.closings + [Closed]))
  }

  function AfterCloseResumed(s: State, c: nat): State
    requires c < |s.closings|
  {
    Emptied(s.(closings := s.closings[c := Closed]))
  }

  /** getPool with DATABASE_URL set: what is current, or a new pool installed directly. */
  function AfterGetPool(s: State): State {
    if s.currentPool.Some? then s
    else s.(currentPool := Some(|s.pools|), credentialVersion := Some(DIRECT.version),
            nextCredentialCheckAt := Never, pools := s.pools + [Pool(None, DIRECT, false, 0)])
  }

  datatype Event =
    | Get(now: int)
    | Resolved(task: TaskId, credential: Credential, now: int)
    | ResolveFailed(task: TaskId)
    | Proved(task: TaskId, now: int)
    | Unproved(task: TaskId)
    | Discarded(task: TaskId)
    | Caught(task: TaskId, now: int)
    | Finally(task: TaskId)
    | Return(call: nat)
    | Close
    | CloseResumed(closing: nat)
    | GetPool

  predicate Enabled(s: State, e: Event) {
    match e
    case Resolved(t, _, _) => t < |s.tasks| && s.tasks[t].phase.Resolving?
    case ResolveFailed(t) => t < |s.tasks| && s.tasks[t].phase.Resolving?
    case Proved(t, _) => t < |s.tasks| && s.tasks[t].phase.Probing? && s.tasks[t].phase.candidate < |s.pools|
    case Unproved(t) => t < |s.tasks| && s.tasks[t].phase.Probing?
    case Discarded(t) => t < |s.tasks| && s.tasks[t].phase.Discarding?
    case Caught(t, _) => t < |s.tasks| && s.tasks[t].phase.Refreshed?
    case Finally(t) => t < |s.tasks| && s.tasks[t].phase.Handled?
    case Return(c) =>
      c < |s.calls| && s.calls[c].Waiting? && s.calls[c].task < |s.tasks| && s.tasks[s.calls[c].task].phase.Settled?
    case CloseResumed(c) =>
      c < |s.closings| && s.closings[c].Awaiting? && s.closings[c].task < |s.tasks|
      && s.tasks[s.closings[c].task].phase.Settled?
    case _ => true
  }

  function Step(s: State, e: Event): State
    requires Enabled(s, e)
  {
    match e
    case Get(now) => AfterGet(s, now)
    case Resolved(t, credential, now) => AfterResolved(s, t, credential, now)
    case ResolveFailed(t) => WithPhase(s, t, Refreshed(Rejected))
    case Proved(t, now) => AfterProved(s, t, now)
    case Unproved(t) => AfterUnproved(s, t)
    case Discarded(t) => WithPhase(s, t, Refreshed(Rejected))
    case Caught(t, now) => AfterCaught(s, t, now)
    case Finally(t) => AfterFinally(s, t)
    case Return(c) => AfterReturn(s, c)
    case Close => AfterClose(s)
    case CloseResumed(c) => AfterCloseResumed(s, c)
    case GetPool => AfterGetPool(s)
  }

  // ---- runs ----

  predicate Run(s: State, events: seq<Event>)
    decreases |events|
  {
    events == [] || (Enabled(s, events[0]) && Run(Step(s, events[0]), events[1..]))
  }

  function After(s: State, events: seq<Event>): State
    requires Run(s, events)
    decreases |events|
  {
    if events == [] then s else After(Step(s, events[0]), events[1..])
  }

  // ---- every pool is accounted for ----

  ghost predicate IsProbed(s: State, p: PoolId) {
    exists t :: 0 <= t < |s.tasks| && s.tasks[t].phase == Probing(p)
  }

  predicate IsCurrent(s: State, p: PoolId) {
    s.currentPool == Some(p)
  }

  predicate IsEnded(s: State, p: PoolId)
    requires p < |s.pools|
  {
    s.pools[p].ends > 0
  }

  /** The current pool is a proved or directly installed one, never ended, and its credential's
      version is the one remembered. */
  predicate CurrentIsGood(s: State) {
    && (s.currentPool.None? <==> s.credentialVersion.None?)
    && (s.currentPool.Some? ==>
          s.currentPool.value < |s.pools|
          && var pool := s.pools[s.currentPool.value];
             pool.ends == 0 && (pool.proved || pool.maker.None?)
             && s.credentialVersion == Some(pool.credential.version))
  }

  predicate ProbesOwnTheirPools(s: State) {
    && (forall t :: 0 <= t < |s.tasks| && s.tasks[t].phase.Probing? ==>
          var p := s.tasks[t].phase.candidate;
          p < |s.pools| && s.pools[p].maker == Some(t) && s.pools[p].ends == 0 && !IsCurrent(s, p))
    && (forall p :: 0 <= p < |s.pools| ==>
          s.pools[p].ends <= 1
          && (s.pools[p].ends == 0 && !IsCurrent(s, p) ==>
                s.pools[p].maker.Some? && s.pools[p].maker.value < |s.tasks|
                && s.tasks[s.pools[p].maker.value].phase == Probing(p)))
  }

  /** A secret-backed pool is due for a check no later than the longer, and any pool no sooner than the
      shorter, of the cadence and 15 s after the last completed attempt. */
  predicate ChecksAreDue(s: State) {
    && (s.currentPool.Some? && s.currentPool.value < |s.pools|
        && s.pools[s.currentPool.value].credential.source == SecretsManager ==>
          && s.nextCredentialCheckAt.At?
          && s.nextCredentialCheckAt.time <= s.checkedAt + (if s.refreshMs > 15_000 then s.refreshMs else 15_000))
    && (s.currentPool.Some? && s.nextCredentialCheckAt.At? ==>
          s.checkedAt + (if s.refreshMs < 15_000 then s.refreshMs else 15_000) <= s.nextCredentialCheckAt.time)
  }

  predicate Sound(s: State) {
    CurrentIsGood(s) && ProbesOwnTheirPools(s) && ChecksAreDue(s)
  }

  lemma PhaseKeepsSound(s: State, t: TaskId, phase: Phase)
    requires Sound(s) && t < |s.tasks| && !s.tasks[t].phase.Probing? && !phase.Probing?
    ensures Sound(WithPhase(s, t, phase))
  {
  }

  lemma GetKeepsSound(s: State, now: int)
    requires Sound(s)
    ensures Sound(AfterGet(s, now))
  {
  }

  lemma ResolvedKeepsSound(s: State, t: TaskId, credential: Credential, now: int)
    requires Sound(s) && t < |s.tasks| && s.tasks[t].phase.Resolving?
    ensures Sound(AfterResolved(s, t, credential, now))
  {
  }

  lemma ProvedKeepsSound(s: State, t: TaskId, now: int)
    requires Sound(s) && Enabled(s, Proved(t, now))
    ensures Sound(AfterProved(s, t, now))
  {
  }

  lemma UnprovedKeepsSound(s: State, t: TaskId)
    requires Sound(s) && Enabled(s, Unproved(t))
    ensures Sound(AfterUnproved(s, t))
  {
  }

  lemma CaughtKeepsSound(s: State, t: TaskId, now: int)
    requires Sound(s) && Enabled(s, Caught(t, now))
    ensures Sound(AfterCaught(s, t, now))
  {
  }

  lemma EmptyingKeepsSound(s: State)
    requires Sound(s)
    ensures Sound(Emptied(s))
  {
  }

  lemma GetPoolKeepsSound(s: State)
    requires Sound(s)
    ensures Sound(AfterGetPool(s))
  {
  }

  lemma StepKeepsSound(s: State, e: Event)
    requires Sound(s) && Enabled(s, e)
    ensures Sound(Step(s, e)) && Step(s, e).refreshMs == s.refreshMs
  {
    hide CurrentIsGood, ProbesOwnTheirPools, ChecksAreDue;
    match e
    case Get(now) => GetKeepsSound(s, now);
    case Resolved(t, credential, now) => ResolvedKeepsSound(s, t, credential, now);
    case ResolveFailed(t) => PhaseKeepsSound(s, t, Refreshed(Rejected));
    case Proved(t, now) => ProvedKeepsSound(s, t, now);
    case Unproved(t) => UnprovedKeepsSound(s, t);
    case Discarded(t) => PhaseKeepsSound(s, t, Refreshed(Rejected));
    case Caught(t, now) => CaughtKeepsSound(s, t, now);
    case Finally(t) => FinallyKeepsSound(s, t);
    case Return(c) => CallersDoNotMatter(s, AfterReturn(s, c));
    case Close => CloseKeepsSound(s);
    case CloseResumed(c) => CloseResumedKeepsSound(s, c);
    case GetPool => GetPoolKeepsSound(s);
  }

  lemma FinallyKeepsSound(s: State, t: TaskId)
    requires Sound(s) && Enabled(s, Finally(t))
    ensures Sound(AfterFinally(s, t))
  {
  }

  lemma CloseKeepsSound(s: State)
    requires Sound(s)
    ensures Sound(AfterClose(s))
  {
    var closing := s.(closings := s.closings + [Closed]);
    CallersDoNotMatter(s, closing);
    EmptyingKeepsSound(closing);
    if s.refreshPromise.Some? {
      CallersDoNotMatter(s, AfterClose(s));
    }
  }

  lemma CloseResumedKeepsSound(s: State, c: nat)
    requires Sound(s) && c < |s.closings|
    ensures Sound(AfterCloseResumed(s, c))
  {
    var closing := s.(closings := s.closings[c := Closed]);
    CallersDoNotMatter(s, closing);
    EmptyingKeepsSound(closing);
  }

  lemma CallersDoNotMatter(s: State, s': State)
    requires Sound(s) && s' == s.(calls := s'.calls, closings := s'.closings)
    ensures Sound(s')
  {
  }

  lemma InitialIsSound(refreshMs: nat)
    ensures Sound(Initial(refreshMs)) && Initial(refreshMs).refreshMs == refreshMs
  {
  }

  lemma {:induction false} RunKeepsSound(s: State, events: seq<Event>)
    requires Sound(s) && Run(s, events)
    ensures Sound(After(s, events)) && After(s, events).refreshMs == s.refreshMs
    decreases |events|
  {
    hide Sound, Step;
    if events != [] {
      StepKeepsSound(s, events[0]);
      RunKeepsSound(Step(s, events[0]), events[1..]);
    }
  }

  /** In every run each pool ever created is in exactly one of probing, current and ended, was ended
      at most once, and the current pool is a proved or directly installed one, never ended, under
      the version it was built from. */
  lemma EveryPoolIsAccountedFor(refreshMs: nat, events: seq<Event>)
    requires Run(Initial(refreshMs), events)
    ensures var s := After(Initial(refreshMs), events);
      && CurrentIsGood(s)
      && (forall p :: 0 <= p < |s.pools| ==>
            && s.pools[p].ends <= 1
            && (IsProbed(s, p) || IsCurrent(s, p) || IsEnded(s, p))
            && !(IsProbed(s, p) && IsCurrent(s, p)) && !(IsProbed(s, p) && IsEnded(s, p))
            && !(IsCurrent(s, p) && IsEnded(s, p)))
      && (forall t, u :: 0 <= t < u < |s.tasks| && s.tasks[t].phase.Probing? ==> s.tasks[u].phase != s.tasks[t].phase)
  {
    RunKeepsSound(Initial(refreshMs), events);
    var s := After(Initial(refreshMs), events);
    forall p | 0 <= p < |s.pools|
      ensures IsProbed(s, p) || IsCurrent(s, p) || IsEnded(s, p)
    {
      if s.pools[p].ends == 0 && !IsCurrent(s, p) {
        assert s.tasks[s.pools[p].maker.value].phase == Probing(p);
      }
    }
  }

  /** In every run, a get that returns a secret-backed pool without asking does so less than the
      longer of the cadence and 15 s after the last completed attempt. */
  lemma FastPathIsFresh(refreshMs: nat, events: seq<Event>, now: int)
    requires Run(Initial(refreshMs), events)
    ensures var s := After(Initial(refreshMs), events);
      var s' := AfterGet(s, now);
      s'.tasks == s.tasks && s'.calls[|s.calls|].Returned? ==>
        && s'.calls[|s.calls|].answer == Fulfilled(s.currentPool.value)
        && s.currentPool.value < |s.pools| && s.pools[s.currentPool.value].ends == 0
        && (s.pools[s.currentPool.value].credential.source == SecretsManager ==>
              now - s.checkedAt < if refreshMs > 15_000 then refreshMs else 15_000)
  {
    RunKeepsSound(Initial(refreshMs), events);
  }

  /** In every run, a get that starts a refresh while there is a pool does so no sooner than the shorter
      of the cadence and 15 s after the last completed attempt: failures do not make it ask faster. */
  lemma RefreshIsPaced(refreshMs: nat, events: seq<Event>, now: int)
    requires Run(Initial(refreshMs), events)
    ensures var s := After(Initial(refreshMs), events);
      s.currentPool.Some? && AfterGet(s, now).tasks != s.tasks ==>
        now - s.checkedAt >= if refreshMs < 15_000 then refreshMs else 15_000
  {
    RunKeepsSound(Initial(refreshMs), events);
  }

  // ---- one refresh at a time ----

  predicate InFlight(s: State, t: TaskId) {
    t < |s.tasks| && !s.tasks[t].phase.Settled?
  }

  /** The refresh in flight, if there is one, is the one get would join. */
  ghost predicate SingleFlight(s: State) {
    && (forall t: TaskId :: InFlight(s, t) ==> s.refreshPromise == Some(t))
    && (s.refreshPromise.Some? ==> InFlight(s, s.refreshPromise.value))
  }

  /** close resumes while a refresh newer than the one it awaited is in flight. */
  predicate Overtakes(s: State, e: Event) {
    e.CloseResumed? && s.refreshPromise.Some?
  }

  /** Everything but a get that asks, a finally and a close leaves the set in flight as it is. */
  lemma FlightStays(s: State, e: Event)
    requires Enabled(s, e) && !e.Get? && !e.Finally?
    ensures forall t: TaskId :: InFlight(Step(s, e), t) <==> InFlight(s, t)
  {
  }

  /** Exactly the overtaking closes break it. */
  lemma SingleFlightExact(s: State, e: Event)
    requires SingleFlight(s) && Enabled(s, e)
    ensures SingleFlight(Step(s, e)) <==> !Overtakes(s, e)
  {
    var s' := Step(s, e);
    if e.Get? {
      assert forall t: TaskId :: t < |s.tasks| ==> (InFlight(s', t) <==> InFlight(s, t));
    } else if e.Finally? {
      assert forall t: TaskId :: InFlight(s', t) <==> InFlight(s, t) && t != e.task;
      assert InFlight(s, e.task);
    } else {
      FlightStays(s, e);
      PromiseStays(s, e);
      hide Step;
      if Overtakes(s, e) {
        assert InFlight(s', s.refreshPromise.value);
      }
    }
  }

  lemma PromiseStays(s: State, e: Event)
    requires Enabled(s, e) && !e.Get? && !e.Finally?
    ensures Step(s, e).refreshPromise == if e.CloseResumed? then None else s.refreshPromise
  {
  }

  // ---- get does not reject while there is a pool ----

  predicate Answers(phase: Phase) {
    (phase.Refreshed? || phase.Handled? || phase.Settled?) && phase.answer.Fulfilled?
  }

  predicate Rejects(phase: Phase) {
    (phase.Handled? || phase.Settled?) && phase.answer.Rejected?
  }

  /** A refresh that began with a pool either has its answer or still has that pool to fall back to;
      one that began without leaves get nothing to join until it is done. */
  predicate Backed(s: State, task: Task) {
    || Answers(task.phase)
    || (task.fallback.Some? && s.currentPool == task.fallback && !Rejects(task.phase))
    || (task.fallback.None? && (s.currentPool.None? || s.nextCredentialCheckAt.Never?))
  }

  predicate Kept(s: State, c: Call) {
    match c
    case Waiting(t, promised) =>
      && t < |s.tasks|
      && (promised && !Answers(s.tasks[t].phase) ==> InFlight(s, t))
      && (InFlight(s, t) && !Answers(s.tasks[t].phase) ==> (promised <==> s.tasks[t].fallback.Some?))
    case Returned(answer, promised) => promised ==> answer.Fulfilled?
  }

  ghost predicate KeepsPromises(s: State) {
    && (forall t: TaskId :: InFlight(s, t) ==> Backed(s, s.tasks[t]))
    && (forall c :: c in s.calls ==> Kept(s, c))
  }

  predicate Orderly(s: State, events: seq<Event>)
    decreases |events|
  {
    events == []
    || (Enabled(s, events[0]) && !Overtakes(s, events[0]) && Orderly(Step(s, events[0]), events[1..]))
  }

  lemma GetKeepsPromises(s: State, now: int)
    requires SingleFlight(s) && KeepsPromises(s)
    ensures KeepsPromises(AfterGet(s, now))
  {
  }

  lemma TaskKeepsPromises(s: State, e: Event)
    requires SingleFlight(s) && KeepsPromises(s) && Enabled(s, e)
    requires !e.Get? && !e.Return? && !e.Close? && !e.CloseResumed? && !e.GetPool?
    ensures KeepsPromises(Step(s, e))
  {
    var s' := Step(s, e);
    assert InFlight(s, e.task);
    OthersStay(s, e);
    forall c | c in s'.calls
      ensures Kept(s', c)
    {
      assert Kept(s, c);
    }
  }

  lemma OthersStay(s: State, e: Event)
    requires SingleFlight(s) && KeepsPromises(s) && Enabled(s, e)
    requires !e.Get? && !e.Return? && !e.Close? && !e.CloseResumed? && !e.GetPool?
    ensures var s' := Step(s, e);
      && s'.calls == s.calls && |s'.tasks| == |s.tasks|
      && (forall u: TaskId :: u < |s.tasks| && u != e.task ==> s'.tasks[u] == s.tasks[u] && !InFlight(s, u))
      && s'.tasks[e.task].fallback == s.tasks[e.task].fallback
      && (Answers(s.tasks[e.task].phase) ==> Answers(s'.tasks[e.task].phase))
      && (InFlight(s', e.task) ==> Backed(s', s'.tasks[e.task]))
      && (!InFlight(s', e.task) && s.tasks[e.task].fallback.Some? ==> Answers(s'.tasks[e.task].phase))
  {
    assert InFlight(s, e.task);
    assert forall u: TaskId :: InFlight(s, u) ==> u == e.task;
  }

  lemma EmptyingKeepsPromises(s: State)
    requires SingleFlight(s) && KeepsPromises(s) && s.refreshPromise.None?
    ensures KeepsPromises(Emptied(s))
  {
    var s' := Emptied(s);
    assert forall t: TaskId :: InFlight(s', t) ==> InFlight(s, t);
    forall c | c in s'.calls
      ensures Kept(s', c)
    {
      var i :| 0 <= i < |s'.calls| && s'.calls[i] == c;
      assert s.calls[i] in s.calls;
    }
  }

  lemma ReturnKeepsPromises(s: State, c: nat)
    requires KeepsPromises(s) && Enabled(s, Return(c))
    ensures KeepsPromises(AfterReturn(s, c))
  {
    var s' := AfterReturn(s, c);
    assert Kept(s, s.calls[c]);
    assert forall t: TaskId :: InFlight(s', t) <==> InFlight(s, t);
    forall call | call in s'.calls
      ensures Kept(s', call)
    {
      assert call in s.calls ==> Kept(s, call);
    }
  }

  lemma GetPoolKeepsPromises(s: State)
    requires KeepsPromises(s)
    ensures KeepsPromises(AfterGetPool(s))
  {
    var s' := AfterGetPool(s);
    assert forall t: TaskId :: InFlight(s', t) <==> InFlight(s, t);
    forall call | call in s'.calls
      ensures Kept(s', call)
    {
      assert Kept(s, call);
    }
  }

  lemma ClosingsDoNotMatter(s: State, s': State)
    requires s' == s.(closings := s'.closings)
    ensures SingleFlight(s) ==> SingleFlight(s')
    ensures KeepsPromises(s) ==> KeepsPromises(s')
  {
    assert forall t: TaskId :: InFlight(s', t) <==> InFlight(s, t);
    if KeepsPromises(s) {
      forall call | call in s'.calls
        ensures Kept(s', call)
      {
        assert Kept(s, call);
      }
    }
  }

  lemma StepKeepsPromises(s: State, e: Event)
    requires SingleFlight(s) && KeepsPromises(s) && Enabled(s, e) && !Overtakes(s, e)
    ensures KeepsPromises(Step(s, e))
  {
    hide KeepsPromises, SingleFlight;
    match e
    case Get(now) => GetKeepsPromises(s, now);
    case Return(c) => ReturnKeepsPromises(s, c);
    case GetPool => GetPoolKeepsPromises(s);
    case Close => CloseKeepsPromises(s);
    case CloseResumed(c) =>
      var closing := s.(closings := s.closings[c := Closed]);
      ClosingsDoNotMatter(s, closing);
      EmptyingKeepsPromises(closing);
    case _ => TaskKeepsPromises(s, e);
  }

  lemma CloseKeepsPromises(s: State)
    requires SingleFlight(s) && KeepsPromises(s)
    ensures KeepsPromises(AfterClose(s))
  {
    hide KeepsPromises, SingleFlight;
    if s.refreshPromise.Some? {
      ClosingsDoNotMatter(s, AfterClose(s));
    } else {
      var closing := s.(closings := s.closings + [Closed]);
      ClosingsDoNotMatter(s, closing);
      EmptyingKeepsPromises(closing);
    }
  }

  lemma {:induction false} OrderlyRunKeepsPromises(s: State, events: seq<Event>)
    requires SingleFlight(s) && KeepsPromises(s) && Orderly(s, events)
    ensures Run(s, events) && SingleFlight(After(s, events)) && KeepsPromises(After(s, events))
    decreases |events|
  {
    hide SingleFlight, KeepsPromises, Step;
    if events != [] {
      SingleFlightExact(s, events[0]);
      StepKeepsPromises(s, events[0]);
      OrderlyRunKeepsPromises(Step(s, events[0]), events[1..]);
    }
  }

  /** In every run in which no close overtakes a refresh, at most one refresh is in flight, and no
      get that found a pool when it began is rejected, unless a close emptied the controller while
      it waited. */
  lemma GetsAreAnswered(refreshMs: nat, events: seq<Event>)
    requires Orderly(Initial(refreshMs), events)
    ensures Run(Initial(refreshMs), events)
    ensures var s := After(Initial(refreshMs), events);
      && (forall t: TaskId, u: TaskId :: InFlight(s, t) && InFlight(s, u) ==> t == u)
      && Returned(Rejected, true) !in s.calls
  {
    OrderlyRunKeepsPromises(Initial(refreshMs), events);
    var s := After(Initial(refreshMs), events);
    forall c | c in s.calls
      ensures c != Returned(Rejected, true)
    {
      assert Kept(s, c);
    }
  }

  /** A close that awaited one refresh clears the next one's promise, and the get after that starts
      a second refresh beside it. */
  lemma OvertakingCloseOverlaps(refreshMs: nat)
    ensures var s6 := Step(Step(Step(Step(Step(Step(Initial(refreshMs), Get(0)), Close), ResolveFailed(0)),
                                     Caught(0, 0)), Finally(0)), Get(1));
      && Enabled(s6, CloseResumed(0)) && Overtakes(s6, CloseResumed(0))
      && var s8 := Step(Step(s6, CloseResumed(0)), Get(2));
         InFlight(s8, 1) && InFlight(s8, 2)
  {
  }

  /** In every run in which no close overtakes a refresh: when a refresh has failed, a get waiting on it is
      rejected exactly if there was no pool when it began, whatever has been installed since, and
      otherwise given the pool that was there. */
  lemma RejectedExactlyWithoutPool(refreshMs: nat, events: seq<Event>, c: nat, now: int)
    requires Orderly(Initial(refreshMs), events) && Run(Initial(refreshMs), events)
    requires var s := After(Initial(refreshMs), events);
      && c < |s.calls| && s.calls[c].Waiting? && s.calls[c].task < |s.tasks|
      && s.tasks[s.calls[c].task].phase == Refreshed(Rejected)
    ensures var s := After(Initial(refreshMs), events);
      var t := s.calls[c].task;
      && (s.calls[c].promised <==> s.tasks[t].fallback.Some?)
      && AfterCaught(s, t, now).tasks[t].phase
         == Handled(if s.calls[c].promised then Fulfilled(s.tasks[t].fallback.value) else Rejected)
  {
    OrderlyRunKeepsPromises(Initial(refreshMs), events);
    var s := After(Initial(refreshMs), events);
    assert Kept(s, s.calls[c]) && InFlight(s, s.calls[c].task);
    assert Backed(s, s.tasks[s.calls[c].task]);
  }

  /** In every run, closes that overtake included: a failed refresh is answered with the pool it began with
      exactly if that is still the current one, which then is checked again after 15 s and has not been
      ended; otherwise the waiting gets are rejected and nothing changes. */
  lemma FallbackIsCurrent(refreshMs: nat, events: seq<Event>, t: TaskId, now: int)
    requires Run(Initial(refreshMs), events)
    requires var s := After(Initial(refreshMs), events); t < |s.tasks| && s.tasks[t].phase == Refreshed(Rejected)
    ensures var s := After(Initial(refreshMs), events);
      var s' := Step(s, Caught(t, now));
      && s'.currentPool == s.currentPool && s'.pools == s.pools
      && if s.currentPool.Some? && s.currentPool == s.tasks[t].fallback then
           && s'.tasks[t].phase == Handled(Fulfilled(s.currentPool.value))
           && s'.nextCredentialCheckAt == At(now + 15_000)
           && s.currentPool.value < |s.pools| && s.pools[s.currentPool.value].ends == 0
         else
           s'.tasks[t].phase == Handled(Rejected) && s'.nextCredentialCheckAt == s.nextCredentialCheckAt
  {
    RunKeepsSound(Initial(refreshMs), events);
  }

  /** So a pool installed while a first refresh is failing does not save the gets waiting on it. */
  lemma LateInstallIsTooLate(refreshMs: nat)
    ensures var s := Step(Step(Step(Step(Step(Step(Initial(refreshMs), Get(0)), GetPool), ResolveFailed(0)),
                                    Caught(0, 0)), Finally(0)), Return(0));
      s.currentPool == Some(0) && s.calls == [Returned(Rejected, false)]
  {
  }

  // ---- what is handed out ----

  /** Proved, or installed directly. */
  predicate IsMade(s: State, p: PoolId) {
    p < |s.pools| && (s.pools[p].proved || s.pools[p].maker.None?)
  }

  predicate TaskIsMade(s: State, task: Task) {
    && (task.fallback.Some? ==> IsMade(s, task.fallback.value))
    && (Answers(task.phase) ==> IsMade(s, task.phase.answer.pool))
    && (task.phase.Probing? ==> task.phase.candidate < |s.pools| && !IsMade(s, task.phase.candidate))
  }

  predicate CallIsMade(s: State, c: Call) {
    c.Returned? && c.answer.Fulfilled? ==> IsMade(s, c.answer.pool)
  }

  predicate HandsOutMade(s: State) {
    && (forall t :: 0 <= t < |s.tasks| ==> TaskIsMade(s, s.tasks[t]))
    && (forall c :: 0 <= c < |s.calls| ==> CallIsMade(s, s.calls[c]))
  }

  /** Pools stay made, and only a proof makes one that was not. */
  lemma MadeStays(s: State, e: Event)
    requires Sound(s) && Enabled(s, e)
    ensures |Step(s, e).pools| >= |s.pools|
    ensures forall p: PoolId :: p < |s.pools| ==>
      (IsMade(Step(s, e), p) <==> IsMade(s, p) || (e.Proved? && p == s.tasks[e.task].phase.candidate))
  {
    hide ChecksAreDue, ProbesOwnTheirPools;
  }

  lemma ResolvedTasksStayMade(s: State, t: TaskId, credential: Credential, now: int)
    requires Sound(s) && HandsOutMade(s) && Enabled(s, Resolved(t, credential, now))
    ensures var s' := AfterResolved(s, t, credential, now);
      forall u :: 0 <= u < |s'.tasks| ==> TaskIsMade(s', s'.tasks[u])
  {
    hide ChecksAreDue, ProbesOwnTheirPools, CallIsMade;
  }

  lemma ProvedTasksStayMade(s: State, t: TaskId, now: int)
    requires Sound(s) && HandsOutMade(s) && Enabled(s, Proved(t, now))
    ensures var s' := AfterProved(s, t, now);
      forall u :: 0 <= u < |s'.tasks| ==> TaskIsMade(s', s'.tasks[u])
  {
    hide ChecksAreDue, CurrentIsGood, CallIsMade;
  }

  lemma OtherTasksStayMade(s: State, e: Event)
    requires Sound(s) && HandsOutMade(s) && Enabled(s, e) && !e.Resolved? && !e.Proved?
    ensures forall t :: 0 <= t < |Step(s, e).tasks| ==> TaskIsMade(Step(s, e), Step(s, e).tasks[t])
  {
    hide ChecksAreDue, ProbesOwnTheirPools, CallIsMade, IsMade;
    MadeStays(s, e);
    CurrentIsMade(s);
  }

  lemma CurrentIsMade(s: State)
    requires Sound(s)
    ensures s.currentPool.Some? ==> IsMade(s, s.currentPool.value)
    ensures forall p: PoolId :: IsMade(s, p) ==> p < |s.pools|
  {
    hide ChecksAreDue, ProbesOwnTheirPools;
  }

  lemma TasksStayMade(s: State, e: Event)
    requires Sound(s) && HandsOutMade(s) && Enabled(s, e)
    ensures forall t :: 0 <= t < |Step(s, e).tasks| ==> TaskIsMade(Step(s, e), Step(s, e).tasks[t])
  {
    hide Sound, HandsOutMade, TaskIsMade;
    match e
    case Resolved(t, credential, now) => ResolvedTasksStayMade(s, t, credential, now);
    case Proved(t, now) => ProvedTasksStayMade(s, t, now);
    case _ => OtherTasksStayMade(s, e);
  }

  lemma CallsStayMade(s: State, e: Event)
    requires Sound(s) && HandsOutMade(s) && Enabled(s, e)
    ensures forall c :: 0 <= c < |Step(s, e).calls| ==> CallIsMade(Step(s, e), Step(s, e).calls[c])
  {
    hide ChecksAreDue, ProbesOwnTheirPools;
    MadeStays(s, e);
  }

  lemma {:induction false} RunHandsOutMade(s: State, events: seq<Event>)
    requires Sound(s) && HandsOutMade(s) && Run(s, events)
    ensures Sound(After(s, events)) && HandsOutMade(After(s, events))
    decreases |events|
  {
    hide Sound, Step, TaskIsMade, CallIsMade;
    if events != [] {
      StepKeepsSound(s, events[0]);
      TasksStayMade(s, events[0]);
      CallsStayMade(s, events[0]);
      RunHandsOutMade(Step(s, events[0]), events[1..]);
    }
  }

  /** In every run, a pool that a refresh has answered with, or that a get has returned, is ended
      exactly when it is no longer current. */
  lemma HandedOutEndedExactly(refreshMs: nat, events: seq<Event>)
    requires Run(Initial(refreshMs), events)
    ensures var s := After(Initial(refreshMs), events);
      && (forall t :: 0 <= t < |s.tasks| && Answers(s.tasks[t].phase) ==>
            && s.tasks[t].phase.answer.pool < |s.pools|
            && (IsEnded(s, s.tasks[t].phase.answer.pool) <==> !IsCurrent(s, s.tasks[t].phase.answer.pool)))
      && (forall c :: 0 <= c < |s.calls| && s.calls[c].Returned? && s.calls[c].answer.Fulfilled? ==>
            && s.calls[c].answer.pool < |s.pools|
            && (IsEnded(s, s.calls[c].answer.pool) <==> !IsCurrent(s, s.calls[c].answer.pool)))
  {
    RunHandsOutMade(Initial(refreshMs), events);
    EveryPoolIsAccountedFor(refreshMs, events);
    hide CurrentIsGood, ChecksAreDue, ProbesOwnTheirPools, Run, After;
    var s := After(Initial(refreshMs), events);
    forall p: PoolId | IsMade(s, p)
      ensures IsEnded(s, p) <==> !IsCurrent(s, p)
    {
      MadeIsNotProbed(s, p);
    }
    assert forall t :: 0 <= t < |s.tasks| ==> TaskIsMade(s, s.tasks[t]);
    assert forall c :: 0 <= c < |s.calls| ==> CallIsMade(s, s.calls[c]);
  }

  lemma MadeIsNotProbed(s: State, p: PoolId)
    requires HandsOutMade(s) && IsMade(s, p)
    ensures !IsProbed(s, p)
  {
  }

  /** It can be ended before the waiting get returns it: a close after the refresh gets in between. */
  lemma EndedPoolIsReturned(refreshMs: nat, credential: Credential)
    ensures var s := Step(Step(Step(Step(Step(Step(Step(Initial(refreshMs), Get(0)), Resolved(0, credential, 0)),
                            Proved(0, 0)), Caught(0, 0)), Finally(0)), Event.Close), Return(0));
      s.calls == [Returned(Fulfilled(0), false)] && s.pools[0].ends == 1 && s.currentPool.None?
  {
  }

  // ---- from a resolved credential to the pool in use ----

  /** The credential is a secret, and the current pool was built from its version. */
  predicate IsInUse(s: State, credential: Credential) {
    && credential.source == SecretsManager && s.currentPool.Some? && s.currentPool.value < |s.pools|
    && s.pools[s.currentPool.value].credential.version == credential.version
  }

  /** In every run: a refresh that resolves a secret of the version the current pool was built from
      creates no pool, ends none and swaps nothing, but is answered with that pool, which is due again
      after the cadence; any other resolution creates exactly one pool, from what was resolved, and has
      the refresh probe it, while the current pool stays in use. */
  lemma ResolutionDecides(refreshMs: nat, events: seq<Event>, t: TaskId, credential: Credential, now: int)
    requires Run(Initial(refreshMs), events)
    requires Enabled(After(Initial(refreshMs), events), Resolved(t, credential, now))
    ensures var s := After(Initial(refreshMs), events);
      var s' := Step(s, Resolved(t, credential, now));
      && s'.currentPool == s.currentPool && s'.credentialVersion == s.credentialVersion
      && s'.refreshPromise == s.refreshPromise && s'.calls == s.calls && s'.closings == s.closings
      && if IsInUse(s, credential) then
           && s'.pools == s.pools && s'.nextCredentialCheckAt == At(now + refreshMs)
           && s'.tasks == s.tasks[t := s.tasks[t].(phase := Refreshed(Fulfilled(s.currentPool.value)))]
         else
           && s'.pools == s.pools + [Pool(Some(t), credential, false, 0)]
           && s'.nextCredentialCheckAt == s.nextCredentialCheckAt
           && s'.tasks == s.tasks[t := s.tasks[t].(phase := Probing(|s.pools|))]
  {
    RunKeepsSound(Initial(refreshMs), events);
  }

  /** Pools keep the credential they were built from, and a refresh that probes a pool probes no other
      later. */
  lemma StepKeepsCandidates(s: State, e: Event)
    requires Enabled(s, e)
    ensures |s.pools| <= |Step(s, e).pools| && |s.tasks| <= |Step(s, e).tasks|
    ensures forall p :: 0 <= p < |s.pools| ==> Step(s, e).pools[p].credential == s.pools[p].credential
    ensures forall t :: 0 <= t < |s.tasks| && !s.tasks[t].phase.Resolving? ==>
      && !Step(s, e).tasks[t].phase.Resolving?
      && (Step(s, e).tasks[t].phase.Probing? ==> Step(s, e).tasks[t].phase == s.tasks[t].phase)
  {
  }

  lemma {:induction false} RunKeepsCandidates(s: State, events: seq<Event>)
    requires Run(s, events)
    ensures var s' := After(s, events);
      && |s.pools| <= |s'.pools| && |s.tasks| <= |s'.tasks|
      && (forall p :: 0 <= p < |s.pools| ==> s'.pools[p].credential == s.pools[p].credential)
      && (forall t :: 0 <= t < |s.tasks| && !s.tasks[t].phase.Resolving? ==>
            && !s'.tasks[t].phase.Resolving?
            && (s'.tasks[t].phase.Probing? ==> s'.tasks[t].phase == s.tasks[t].phase))
    decreases |events|
  {
    hide Step;
    if events != [] {
      StepKeepsCandidates(s, events[0]);
      RunKeepsCandidates(Step(s, events[0]), events[1..]);
    }
  }

  /** The swap, on a candidate that is not current. */
  lemma ProofInstalls(s: State, t: TaskId, now: int)
    requires Sound(s) && Enabled(s, Proved(t, now))
    ensures var s' := Step(s, Proved(t, now));
      var p := s.tasks[t].phase.candidate;
      var credential := s.pools[p].credential;
      && s'.currentPool == Some(p) && |s'.pools| == |s.pools| && s'.pools[p].credential == credential
      && s'.credentialVersion == Some(credential.version)
      && s'.nextCredentialCheckAt == (if credential.source == SecretsManager then At(now + s.refreshMs) else Never)
      && s'.tasks[t].phase == Refreshed(Fulfilled(p))
      && forall q :: 0 <= q < |s.pools| ==>
           s'.pools[q].ends == s.pools[q].ends + if s.currentPool == Some(q) then 1 else 0
  {
    hide ChecksAreDue;
  }

  /** In every run, whatever happens between: when the pool of a resolution has been probed with success,
      it is current, built from what that resolution gave and remembered under its version; it is due
      again after the cadence if it came from a secret, and otherwise never; the pool it replaces, and
      no other, has been ended. */
  lemma ResolvedCredentialIsUsed(refreshMs: nat, before: seq<Event>, t: TaskId, credential: Credential, since: int,
                                 between: seq<Event>, now: int)
    requires Run(Initial(refreshMs), before)
    requires Enabled(After(Initial(refreshMs), before), Resolved(t, credential, since))
    requires var resolved := Step(After(Initial(refreshMs), before), Resolved(t, credential, since));
      && Run(resolved, between) && Enabled(After(resolved, between), Proved(t, now))
    ensures var s := After(Step(After(Initial(refreshMs), before), Resolved(t, credential, since)), between);
      var s' := Step(s, Proved(t, now));
      && s'.currentPool == Some(|After(Initial(refreshMs), before).pools|)
      && s'.currentPool.value < |s'.pools| && s'.pools[s'.currentPool.value].credential == credential
      && s'.credentialVersion == Some(credential.version)
      && s'.nextCredentialCheckAt == (if credential.source == SecretsManager then At(now + refreshMs) else Never)
      && s'.tasks[t].phase == Refreshed(Fulfilled(s'.currentPool.value))
      && |s'.pools| == |s.pools|
      && forall p :: 0 <= p < |s.pools| ==>
           s'.pools[p].ends == s.pools[p].ends + if s.currentPool == Some(p) then 1 else 0
  {
    InitialIsSound(refreshMs);
    hide Step, Sound;
    var s0 := After(Initial(refreshMs), before);
    var resolution := Resolved(t, credential, since);
    var resolved := Step(s0, resolution);
    RunKeepsSound(Initial(refreshMs), before);
    StepKeepsSound(s0, resolution);
    RunKeepsSound(resolved, between);
    var s := After(resolved, between);
    ResolutionDecides(refreshMs, before, t, credential, since);
    RunKeepsCandidates(resolved, between);
    ProofInstalls(s, t, now);
  }

  lemma SwapReplacesAnother(s: State, t: TaskId)
    requires Sound(s) && t < |s.tasks| && s.tasks[t].phase.Probing?
    ensures s.tasks[t].phase.candidate < |s.pools|
    ensures s.currentPool.Some? ==> s.currentPool.value < |s.pools| && s.currentPool.value != s.tasks[t].phase.candidate
  {
  }

  // ---- the controller ----

  /** The closure of createCredentialPoolController. A method runs from one await to the next; what
      the source keeps in suspended calls is in `tasks`, `calls` and `closings`. */
  class CredentialPoolController {
    const refreshMs: nat
    var currentPool: Option<PoolId>
    var credentialVersion: Option<string>
    var nextCredentialCheckAt: Deadline
    var refreshPromise: Option<TaskId>
    ghost var checkedAt: int
    var pools: seq<Pool>
    var tasks: seq<Task>
    var calls: seq<Call>
    var closings: seq<Closing>

    ghost function Snapshot(): State
      reads this
    {
      State(refreshMs, currentPool, credentialVersion, nextCredentialCheckAt, refreshPromise, checkedAt,
            pools, tasks, calls, closings)
    }

    ghost predicate Valid()
      reads this
    {
      Sound(Snapshot())
    }

    constructor (refreshMs: nat)
      ensures Snapshot() == Initial(refreshMs) && Valid()
    {
      this.refreshMs := refreshMs;
      currentPool, credentialVersion, nextCredentialCheckAt, refreshPromise := None, None, At(0), None;
      checkedAt, pools, tasks, calls, closings := 0, [], [], [], [];
    }

    /** pool.end() */
    method End(p: PoolId)
      requires p < |pools|
      modifies `pools
      ensures pools == EndPool(old(pools), p)
    {
      pools := pools[p := pools[p].(ends := pools[p].ends + 1)];
    }

    /** get up to its await: the current pool, or the refresh to wait for. */
    method Get(now: int) returns (answer: Option<PoolId>)
      requires Valid()
      modifies this
      ensures Snapshot() == Step(old(Snapshot()), Event.Get(now))
      ensures Valid()
      ensures answer.Some? ==> answer == currentPool && tasks == old(tasks) && pools[answer.value].ends == 0
      ensures answer.None? ==>
        refreshPromise.Some? && calls == old(calls) + [Waiting(refreshPromise.value, currentPool.Some?)]
    {
      StepKeepsSound(Snapshot(), Event.Get(now));
      if currentPool.Some? && Before(now, nextCredentialCheckAt) {
        calls := calls + [Returned(Fulfilled(currentPool.value), true)];
        return currentPool;
      }
      if refreshPromise.None? {
        var provenFallback := currentPool;
        refreshPromise := Some(|tasks|);
        tasks := tasks + [Task(provenFallback, Resolving)];
      }
      calls := calls + [Waiting(refreshPromise.value, currentPool.Some?)];
      answer := None;
    }

    /** refresh after resolveCredential answered. */
    method RefreshResolved(t: TaskId, credential: Credential, now: int)
      requires Valid() && Enabled(Snapshot(), Resolved(t, credential, now))
      modifies this
      ensures Snapshot() == Step(old(Snapshot()), Resolved(t, credential, now))
      ensures Valid()
    {
      StepKeepsSound(Snapshot(), Resolved(t, credential, now));
      if currentPool.Some? && credential.source == SecretsManager && credentialVersion == Some(credential.version) {
        nextCredentialCheckAt := At(now + refreshMs);
        checkedAt := now;
        tasks := tasks[t := tasks[t].(phase := Refreshed(Fulfilled(currentPool.value)))];
        return;
      }
      var candidate := |pools|;
      pools := pools + [Pool(Some(t), credential, false, 0)];
      tasks := tasks[t := tasks[t].(phase := Probing(candidate))];
    }

    /** refresh after proveCandidate succeeded. */
    method RefreshProved(t: TaskId, now: int)
      requires Valid() && Enabled(Snapshot(), Proved(t, now))
      modifies this
      ensures Snapshot() == Step(old(Snapshot()), Proved(t, now))
      ensures Valid()
      ensures currentPool == Some(old(tasks)[t].phase.candidate)
    {
      hide CurrentIsGood, ProbesOwnTheirPools, ChecksAreDue;
      StepKeepsSound(Snapshot(), Proved(t, now));
      SwapReplacesAnother(Snapshot(), t);
      var candidate := tasks[t].phase.candidate;
      var credential := pools[candidate].credential;
      pools := pools[candidate := pools[candidate].(proved := true)];
      var previous := currentPool;
      currentPool := Some(candidate);
      credentialVersion := Some(credential.version);
      nextCredentialCheckAt := if credential.source == SecretsManager then At(now + refreshMs) else Never;
      checkedAt := now;
      if previous.Some? && previous.value != candidate {
        End(previous.value);
      }
      tasks := tasks[t := tasks[t].(phase := Refreshed(Fulfilled(candidate)))];
    }

    /** refresh after proveCandidate threw, up to the await of candidate.end(). */
    method RefreshUnproved(t: TaskId)
      requires Valid() && Enabled(Snapshot(), Unproved(t))
      modifies this
      ensures Snapshot() == Step(old(Snapshot()), Unproved(t))
      ensures Valid()
    {
      StepKeepsSound(Snapshot(), Unproved(t));
      var candidate := tasks[t].phase.candidate;
      End(candidate);
      tasks := tasks[t := tasks[t].(phase := Discarding(candidate))];
    }

    /** refresh throws: the credential could not be resolved, or the failed candidate has ended. */
    method RefreshFailed(t: TaskId)
      requires Valid()
      requires Enabled(Snapshot(), ResolveFailed(t)) || Enabled(Snapshot(), Discarded(t))
      modifies `tasks
      ensures Enabled(old(Snapshot()), ResolveFailed(t)) ==> Snapshot() == Step(old(Snapshot()), ResolveFailed(t))
      ensures Enabled(old(Snapshot()), Discarded(t)) ==> Snapshot() == Step(old(Snapshot()), Discarded(t))
      ensures Valid()
    {
      PhaseKeepsSound(Snapshot(), t, Refreshed(Rejected));
      tasks := tasks[t := tasks[t].(phase := Refreshed(Rejected))];
    }

    /** get's catch handler. */
    method Catch(t: TaskId, now: int)
      requires Valid() && Enabled(Snapshot(), Caught(t, now))
      modifies this
      ensures Snapshot() == Step(old(Snapshot()), Caught(t, now))
      ensures Valid()
    {
      StepKeepsSound(Snapshot(), Caught(t, now));
      var answer := tasks[t].phase.answer;
      var provenFallback := tasks[t].fallback;
      if answer.Rejected? && provenFallback.Some? && currentPool == provenFallback {
        nextCredentialCheckAt := At(now + 15_000);
        checkedAt := now;
        answer := Fulfilled(provenFallback.value);
      }
      tasks := tasks[t := tasks[t].(phase := Handled(answer))];
    }

    /** get's finally handler. */
    method FinallyClear(t: TaskId)
      requires Valid() && Enabled(Snapshot(), Finally(t))
      modifies `refreshPromise, `tasks
      ensures Snapshot() == Step(old(Snapshot()), Finally(t))
      ensures Valid()
    {
      StepKeepsSound(Snapshot(), Finally(t));
      refreshPromise := None;
      tasks := tasks[t := tasks[t].(phase := Settled(tasks[t].phase.answer))];
    }

    /** get after its await. */
    method GetReturns(c: nat) returns (answer: Answer)
      requires Valid() && Enabled(Snapshot(), Return(c))
      modifies `calls
      ensures Snapshot() == Step(old(Snapshot()), Return(c))
      ensures Valid()
      ensures calls[c] == Returned(answer, old(calls)[c].promised)
    {
      StepKeepsSound(Snapshot(), Return(c));
      answer := tasks[calls[c].task].phase.answer;
      calls := calls[c := Returned(answer, calls[c].promised)];
    }

    /** close up to its await, if it has one. */
    method Close()
      requires Valid()
      modifies this
      ensures Snapshot() == Step(old(Snapshot()), Event.Close)
      ensures Valid()
    {
      StepKeepsSound(Snapshot(), Event.Close);
      if refreshPromise.Some? {
        closings := closings + [Awaiting(refreshPromise.value)];
        return;
      }
      closings := closings + [Closed];
      Empty();
    }

    method CloseResumes(c: nat)
      requires Valid() && Enabled(Snapshot(), CloseResumed(c))
      modifies this
      ensures Snapshot() == Step(old(Snapshot()), CloseResumed(c))
      ensures Valid()
    {
      StepKeepsSound(Snapshot(), CloseResumed(c));
      closings := closings[c := Closed];
      Empty();
    }

    /** The rest of close. That waiting calls lose their promise is bookkeeping. */
    method Empty()
      requires currentPool.Some? ==> currentPool.value < |pools|
      modifies this
      ensures Snapshot() == Emptied(old(Snapshot()))
    {
      var closing := currentPool;
      currentPool, credentialVersion, nextCredentialCheckAt, refreshPromise := None, None, At(0), None;
      if closing.Some? {
        End(closing.value);
      }
      calls := UnpromisedAll(calls);
    }

    method InstallDirect(value: PoolId) returns (p: PoolId)
      requires currentPool.None? ==> value < |pools|
      modifies `currentPool, `credentialVersion, `nextCredentialCheckAt
      ensures old(currentPool).Some? ==> p == old(currentPool).value && Snapshot() == old(Snapshot())
      ensures old(currentPool).None? ==> p == value && Snapshot() == old(Snapshot()).(
        currentPool := Some(value), credentialVersion := Some(DIRECT.version), nextCredentialCheckAt := Never)
    {
      if currentPool.Some? {
        return currentPool.value;
      }
      currentPool := Some(value);
      credentialVersion := Some("direct-environment");
      nextCredentialCheckAt := Never;
      p := value;
    }

    /** getPool: throws, changing nothing, when there is no pool and no DATABASE_URL. */
    method GetPool(hasUrl: bool) returns (p: Option<PoolId>)
      requires Valid()
      modifies this
      ensures p.None? <==> old(currentPool).None? && !hasUrl
      ensures p.None? ==> Snapshot() == old(Snapshot())
      ensures p.Some? ==> p == currentPool && Snapshot() == Step(old(Snapshot()), Event.GetPool)
      ensures Valid()
    {
      StepKeepsSound(Snapshot(), Event.GetPool);
      if currentPool.Some? {
        return currentPool;
      }
      if !hasUrl {
        return None;
      }
      pools := pools + [Pool(None, DIRECT, false, 0)];
      var installed := InstallDirect(|pools| - 1);
      p := Some(installed);
    }
  }
}
