/** The world `scripts/rotate-runtime-secret.ts` acts on: the version labels of one secret in
    Secrets Manager, the users of the database with their live sessions, and a clock. Every call
    may fail before or after its effect, clients come and go between any two calls, and label
    reads may be stale. */
module RotationWorld {
  import opened Options

  type VersionId = nat
  type Principal = nat
  type SessionId = nat

  datatype Stage = Current | Pending | Previous

  datatype User = User(login: bool, sessions: set<SessionId>)

  /** `versions` gives the principal each stored secret version names; a label is on at most one
      version. */
  datatype World = World(
    versions: map<VersionId, Principal>,
    labels: map<Stage, VersionId>,
    users: map<Principal, User>)

  datatype Fate = Succeeded | FailedBefore | FailedAfter

  function LabelPositions(w: World): set<(Stage, VersionId)> {
    set stage | stage in w.labels :: (stage, w.labels[stage])
  }

  lemma LabelsAreSeen(w: World, seen: set<(Stage, VersionId)>)
    ensures LabelPositions(w) <= seen <==> forall stage :: stage in w.labels ==> (stage, w.labels[stage]) in seen
  {
    forall stage | stage in w.labels
      ensures (stage, w.labels[stage]) in LabelPositions(w)
    {
    }
  }

  predicate CanLogIn(w: World, p: Principal) {
    p in w.users && w.users[p].login
  }

  predicate Drained(w: World, p: Principal) {
    p in w.users && !w.users[p].login && w.users[p].sessions == {}
  }

  predicate On(w: World, stage: Stage, v: VersionId) {
    stage in w.labels && w.labels[stage] == v
  }

  /** The property at stake: AWSCURRENT names a principal that exists and can log in. */
  predicate Served(w: World) {
    && Current in w.labels && w.labels[Current] in w.versions
    && CanLogIn(w, w.versions[w.labels[Current]])
  }

  /** Same labels, versions and users with the same login options; sessions may differ. */
  predicate SameAccounts(a: World, b: World) {
    && b.versions == a.versions && b.labels == a.labels && b.users.Keys == a.users.Keys
    && forall p :: p in a.users ==> b.users[p].login == a.users[p].login
  }

  /** What clients can do between two calls: close sessions, and open them where login is on. */
  predicate ClientsMove(a: World, b: World) {
    && SameAccounts(a, b)
    && forall p :: p in a.users && !a.users[p].login ==> b.users[p].sessions <= a.users[p].sessions
  }

  /** No client opens anything. */
  predicate ClientsOnlyLeave(a: World, b: World) {
    && SameAccounts(a, b)
    && forall p :: p in a.users ==> b.users[p].sessions <= a.users[p].sessions
  }

  // ---- effects ----

  function WithoutLogin(w: World, p: Principal): World {
    if p in w.users then w.(users := w.users[p := w.users[p].(login := false)]) else w
  }

  function WithUser(w: World, p: Principal): World {
    if p in w.users then w else w.(users := w.users[p := User(true, {})])
  }

  function WithoutUser(w: World, p: Principal): World {
    w.(users := w.users - {p})
  }

  function WithoutSession(w: World, id: SessionId): World {
    w.(users := map p | p in w.users :: w.users[p].(sessions := w.users[p].sessions - {id}))
  }

  /** PutSecretValue with a client token and VersionStages [AWSPENDING]: a repeated token is
      ignored, a new one stores the version and takes the label. */
  function WithPending(w: World, v: VersionId, p: Principal): World {
    if v in w.versions then w
    else w.(versions := w.versions[v := p], labels := w.labels[Pending := v])
  }

  /** UpdateSecretVersionStage with MoveToVersionId: refused unless the label is where the caller
      says. Moving AWSCURRENT puts AWSPREVIOUS on the version it leaves. */
  function WithCurrentMoved(w: World, target: VersionId, from: VersionId): Option<World> {
    if target in w.versions && On(w, Current, from) then
      Some(w.(labels := w.labels[Current := target][Previous := from]))
    else
      None
  }

  function WithLabelRemoved(w: World, stage: Stage, v: VersionId): Option<World> {
    if On(w, stage, v) then Some(w.(labels := w.labels - {stage})) else None
  }

  /** The calls that change something. */
  datatype Command =
    | CreateUser(principal: Principal)
    | AlterUserNoLogin(principal: Principal)
    | CancelSession(session: SessionId)
    | DropUser(principal: Principal)
    | PutSecretValue(version: VersionId, principal: Principal)
    | MoveCurrent(target: VersionId, from: VersionId)
    | RemoveLabel(stage: Stage, version: VersionId)

  /** What a call leaves behind, or None where it is refused. */
  function EffectOf(w: World, c: Command): Option<World> {
    match c
    case CreateUser(p) => if p in w.users then None else Some(WithUser(w, p))
    case AlterUserNoLogin(p) => if p in w.users then Some(WithoutLogin(w, p)) else None
    case CancelSession(id) => Some(WithoutSession(w, id))
    case DropUser(p) => if p in w.users then Some(WithoutUser(w, p)) else None
    case PutSecretValue(v, p) => Some(WithPending(w, v, p))
    case MoveCurrent(target, from) => WithCurrentMoved(w, target, from)
    case RemoveLabel(stage, v) => WithLabelRemoved(w, stage, v)
  }

  /** No call forgets a version, labels one that is not stored, or drops anyone but DROP USER. */
  lemma EffectsAreOrderly(w: World, c: Command, next: World)
    requires EffectOf(w, c) == Some(next)
    requires forall stage :: stage in w.labels ==> w.labels[stage] in w.versions
    ensures w.versions.Keys <= next.versions.Keys
    ensures forall stage :: stage in next.labels ==> next.labels[stage] in next.versions
    ensures forall p :: p in w.users && p !in next.users ==> c == Command.DropUser(p)
  {
  }

  function StagesOf(w: World, v: VersionId): set<Stage> {
    set stage | stage in w.labels && w.labels[stage] == v
  }

  /** A complete version inventory, page by page, as far as one version is concerned: each page
      lists the label sets of its entries for that version, which has one entry iff it is stored. */
  predicate Inventories(pages: seq<seq<set<Stage>>>, w: World, v: VersionId) {
    && (forall i, j :: 0 <= i < |pages| && 0 <= j < |pages[i]| ==>
          v in w.versions && pages[i][j] == StagesOf(w, v))
    && (v in w.versions ==> exists i :: 0 <= i < |pages| && pages[i] != [])
  }

  // ---- what a run has seen for itself ----

  /** What decides how a run goes on: a label read on a version, a principal proved exact, the pending
      credential proved by a query, a login refused, the hosted app serving a principal, and a number of
      role statements about a principal accepted. */
  datatype Proof =
    | LabelSeen(stage: Stage, version: VersionId)
    | LoginProved(principal: Principal)
    | PendingProved(principal: Principal)
    | LoginRefused(principal: Principal)
    | Converged(principal: Principal)
    | RolesChanged(principal: Principal, statements: nat)

  /** The observation was made after the first n. */
  ghost predicate Since(n: nat, log: seq<Proof>, x: Proof) {
    exists i :: n <= i < |log| && log[i] == x
  }

  lemma SinceGrows(n: nat, log: seq<Proof>, m: nat, later: seq<Proof>, x: Proof)
    requires Since(n, log, x) && log <= later && m <= n
    ensures Since(m, later, x) && x in later
  {
    var i :| n <= i < |log| && log[i] == x;
    assert later[i] == x;
  }

  // ---- what a run must never do ----

  /** What is at stake in one run: the version labelled AWSCURRENT when it starts, the principal
      that version names, and the names the run generates for its candidate. */
  datatype Stake = Stake(version: VersionId, principal: Principal, token: VersionId, candidate: Principal)

  /** AWSCURRENT is on the original version or the candidate's, and the principal it names can
      log in. */
  predicate Safe(s: Stake, w: World) {
    && Current in w.labels
    && s.version in w.versions && w.versions[s.version] == s.principal
    && (w.labels[Current] == s.version || w.labels[Current] == s.token)
    && w.labels[Current] in w.versions
    && (On(w, Current, s.token) ==> w.versions[s.token] == s.candidate)
    && CanLogIn(w, w.versions[w.labels[Current]])
  }

  /** No step of the history drops a user that could log in or had a session. */
  ghost predicate QuietDrops(history: seq<World>) {
    forall i, p :: 0 <= i < |history| - 1 && p in history[i].users && p !in history[i + 1].users
      ==> Drained(history[i], p)
  }

  ghost predicate SafeHistory(s: Stake, history: seq<World>) {
    QuietDrops(history) && forall w :: w in history ==> Safe(s, w)
  }

  /** The original principal could log in throughout. */
  ghost predicate PrincipalKept(s: Stake, history: seq<World>) {
    forall w :: w in history ==> CanLogIn(w, s.principal)
  }

  lemma ClientsMoveTwice(a: World, b: World, c: World)
    requires ClientsMove(a, b) && ClientsMove(b, c)
    ensures ClientsMove(a, c)
    ensures ClientsOnlyLeave(a, b) && ClientsOnlyLeave(b, c) ==> ClientsOnlyLeave(a, c)
  {
  }

  lemma ClientsMoveNot(a: World)
    ensures ClientsMove(a, a) && ClientsOnlyLeave(a, a)
  {
  }

  lemma SafetyIgnoresClients(s: Stake, a: World, b: World)
    requires SameAccounts(a, b)
    ensures Safe(s, a) <==> Safe(s, b)
    ensures forall p :: CanLogIn(a, p) <==> CanLogIn(b, p)
    ensures ClientsMove(a, b) ==> forall p :: Drained(a, p) ==> Drained(b, p)
  {
  }

  function Last(history: seq<World>): World
    requires history != []
  {
    history[|history| - 1]
  }

  /** The history grew, and each guarantee survives if the new state respects it. */
  ghost predicate Preserves(s: Stake, before: seq<World>, after: seq<World>)
    requires after != []
  {
    && before <= after
    && (QuietDrops(before) ==> QuietDrops(after))
    && ((SafeHistory(s, before) && Safe(s, Last(after))) ==> SafeHistory(s, after))
    && ((PrincipalKept(s, before) && CanLogIn(Last(after), s.principal)) ==> PrincipalKept(s, after))
  }

  predicate DropsQuietly(a: World, b: World) {
    forall p :: p in a.users && p !in b.users ==> Drained(a, p)
  }

  lemma AppendPreserves(s: Stake, history: seq<World>, next: World)
    requires history != [] && DropsQuietly(Last(history), next)
    ensures Preserves(s, history, history + [next])
  {
    var after := history + [next];
    if QuietDrops(history) {
      forall i, p | 0 <= i < |after| - 1 && p in after[i].users && p !in after[i + 1].users
        ensures Drained(after[i], p)
      {
        if i < |history| - 1 {
          assert after[i + 1] == history[i + 1];
        }
      }
    }
    hide Safe, Drained;
  }

  /** Two stretches, the first of which ends in a state no worse than it began. */
  lemma PreservesThen(s: Stake, h0: seq<World>, h1: seq<World>, h2: seq<World>)
    requires h0 != [] && h1 != [] && h2 != []
    requires Preserves(s, h0, h1) && Preserves(s, h1, h2) && SameAccounts(Last(h0), Last(h1))
    ensures Preserves(s, h0, h2)
  {
    SafetyIgnoresClients(s, Last(h0), Last(h1));
    assert Last(h0) in h0;
    hide Safe;
  }

  /** Two stretches, the second of which ends as it began. */
  lemma PreservesBefore(s: Stake, h0: seq<World>, h1: seq<World>, h2: seq<World>)
    requires h0 != [] && h1 != [] && h2 != []
    requires Preserves(s, h0, h1) && Preserves(s, h1, h2) && SameAccounts(Last(h1), Last(h2))
    ensures Preserves(s, h0, h2)
  {
    SafetyIgnoresClients(s, Last(h1), Last(h2));
    hide Safe;
  }

  /** Two stretches in which only clients acted. */
  lemma ClientsThen(s: Stake, h0: seq<World>, h1: seq<World>, h2: seq<World>)
    requires h0 != [] && h1 != [] && h2 != []
    requires Preserves(s, h0, h1) && ClientsMove(Last(h0), Last(h1))
    requires Preserves(s, h1, h2) && ClientsMove(Last(h1), Last(h2))
    ensures Preserves(s, h0, h2) && ClientsMove(Last(h0), Last(h2))
    ensures ClientsOnlyLeave(Last(h0), Last(h1)) && ClientsOnlyLeave(Last(h1), Last(h2))
      ==> ClientsOnlyLeave(Last(h0), Last(h2))
  {
    hide Preserves;
    PreservesThen(s, h0, h1, h2);
    ClientsMoveTwice(Last(h0), Last(h1), Last(h2));
  }

  lemma PreservesNothing(s: Stake, history: seq<World>)
    requires history != []
    ensures Preserves(s, history, history)
  {
    assert Last(history) in history;
  }

  /** The provider side: AWS, the admin connection to the database, the hosted app and the clock.
      `history` records every state of the world, `log` every observation; `seen` holds every label
      position a stale read may still report. A `faultless` world fails no call, serves current labels and opens no new
      session. */
  class Providers {
    var world: World
    var now: nat
    var seen: set<(Stage, VersionId)>
    const faultless: bool
    ghost const stake: Stake
    ghost var history: seq<World>
    ghost var log: seq<Proof>

    ghost predicate Valid()
      reads this
    {
      && history != [] && Last(history) == world
      && (forall stage :: stage in world.labels ==> (stage, world.labels[stage]) in seen)
      && (forall stage, v :: (stage, v) in seen ==> v in world.versions)
    }

    constructor (world: World, seen: set<(Stage, VersionId)>, faultless: bool, ghost stake: Stake)
      requires forall stage :: stage in world.labels ==> (stage, world.labels[stage]) in seen
      requires forall stage, v :: (stage, v) in seen ==> v in world.versions
      ensures Valid() && history == [world] && log == []
      ensures this.world == world && this.seen == seen && this.faultless == faultless && this.stake == stake
    {
      this.world, this.seen, this.faultless, this.stake := world, seen, faultless, stake;
      this.now := 0;
      this.history, this.log := [world], [];
    }

    /** The records only grow, and the guarantees survive if the new state respects them. */
    twostate predicate Extends()
      requires history != []
      reads this
    {
      && old(now) <= now && old(seen) <= seen && old(log) <= log
      && Preserves(stake, old(history), history)
    }

    /** Nothing happened but clients moving. */
    twostate predicate OnlyClients()
      reads this
    {
      && ClientsMove(old(world), world) && seen == old(seen)
      && (faultless ==> ClientsOnlyLeave(old(world), world))
    }

    /** A call failed before its effect, failed after it, or succeeded with it; clients moved to
        `mid` first. */
    twostate predicate Called(ok: bool, mid: World, effect: Option<World>)
      reads this
    {
      && ClientsMove(old(world), mid) && (faultless ==> ClientsOnlyLeave(old(world), mid))
      && (world == mid || (effect.Some? && world == effect.value))
      && (ok ==> effect.Some? && world == effect.value)
      && (faultless && effect.Some? ==> ok)
    }

    /** Enters the next state into the history. */
    method Become(next: World)
      requires Valid()
      requires world.versions.Keys <= next.versions.Keys
      requires forall stage :: stage in next.labels ==> next.labels[stage] in next.versions
      modifies `world, `history, `seen
      ensures Valid() && world == next
      ensures seen == old(seen) + LabelPositions(next)
      ensures DropsQuietly(old(world), next) ==> Extends()
    {
      hide SafeHistory, PrincipalKept;
      if DropsQuietly(world, next) {
        AppendPreserves(stake, history, next);
      }
      world := next;
      history := history + [next];
      seen := seen + LabelPositions(next);
    }

    /** Time passes and clients come and go. */
    method Interfere()
      requires Valid()
      modifies this
      ensures Valid() && Extends() && OnlyClients()
    {
      hide SafeHistory, PrincipalKept;
      PreservesNothing(stake, history);
      ClientsMoveNot(world);
      var next: World := *;
      if (if faultless then ClientsOnlyLeave(world, next) else ClientsMove(world, next)) {
        Become(next);
      }
      var elapsed: int := *;
      if elapsed > 0 {
        now := now + elapsed;
      }
    }

    method Decide() returns (fate: Fate)
      ensures faultless ==> fate == Succeeded
    {
      fate := *;
      if faultless {
        fate := Succeeded;
      }
    }

    /** Applies an effect or not, as fate has it. */
    method Apply(effect: Option<World>) returns (ok: bool)
      requires Valid()
      requires effect.Some? ==>
        && world.versions.Keys <= effect.value.versions.Keys
        && forall stage :: stage in effect.value.labels ==> effect.value.labels[stage] in effect.value.versions
      modifies `world, `history, `seen
      ensures Valid()
      ensures world == old(world) || (effect.Some? && world == effect.value)
      ensures ok ==> effect.Some? && world == effect.value
      ensures faultless && effect.Some? ==> ok
      ensures world == old(world) ==> seen == old(seen)
      ensures old(seen) <= seen <= old(seen) + LabelPositions(world)
      ensures DropsQuietly(old(world), world) ==> Extends()
    {
      hide Preserves;
      PreservesNothing(stake, history);
      ok := false;
      var fate := Decide();
      if effect.Some? && fate != FailedBefore {
        Become(effect.value);
        ok := fate == Succeeded;
      }
    }

    // ---- reads ----

    /** Any round trip that changes nothing: it may fail. */
    method Attempt() returns (ok: bool)
      requires Valid()
      modifies this
      ensures Valid() && Extends() && OnlyClients()
      ensures faultless ==> ok
    {
      Interfere();
      var fate := Decide();
      ok := fate == Succeeded;
    }

    /** GetSecretValue by stage: an error, or a version that holds or once held the label. */
    method ReadSecretStage(stage: Stage) returns (r: Option<VersionId>)
      requires Valid()
      modifies this
      ensures Valid() && Extends() && OnlyClients()
      ensures r.Some? ==> (stage, r.value) in seen && Since(|old(log)|, log, LabelSeen(stage, r.value))
      ensures faultless && stage in world.labels ==> r == Some(world.labels[stage])
    {
      var ok := Attempt();
      var v: VersionId := *;
      r := None;
      if ok && (stage, v) in seen {
        r := Some(v);
      }
      if faultless && stage in world.labels {
        r := Some(world.labels[stage]);
      }
      if r.Some? {
        Note(LabelSeen(stage, r.value));
      }
    }

    ghost method Note(x: Proof)
      modifies `log
      ensures old(log) <= log && Since(|old(log)|, log, x)
    {
      log := log + [x];
      assert log[|log| - 1] == x;
    }

    /** ListSecretVersionIds over all pages, filtered for one version. */
    method ListVersions(v: VersionId) returns (r: Option<seq<seq<set<Stage>>>>)
      requires Valid()
      modifies this
      ensures Valid() && Extends() && OnlyClients()
      ensures r.Some? ==> Inventories(r.value, world, v)
      ensures faultless ==> r == Some([if v in world.versions then [StagesOf(world, v)] else []])
    {
      var ok := Attempt();
      var pages: seq<seq<set<Stage>>> := *;
      var single := [if v in world.versions then [StagesOf(world, v)] else []];
      r := None;
      if ok && Inventories(pages, world, v) {
        r := Some(pages);
      }
      if faultless {
        assert v in world.versions ==> single[0] != [];
        r := Some(single);
      }
    }

    /** SHOW USERS WHERE username = p: an error, or whether there is a row and its login option. */
    method ShowUser(p: Principal) returns (r: Option<Option<bool>>)
      requires Valid()
      modifies this
      ensures Valid() && Extends() && OnlyClients()
      ensures r.Some? ==> r.value == if p in world.users then Some(world.users[p].login) else None
      ensures faultless ==> r.Some?
    {
      var ok := Attempt();
      r := None;
      if ok {
        r := Some(if p in world.users then Some(world.users[p].login) else None);
      }
    }

    /** SHOW CLUSTER SESSIONS WHERE user_name = p. */
    method ShowSessions(p: Principal) returns (r: Option<set<SessionId>>)
      requires Valid()
      modifies this
      ensures Valid() && Extends() && OnlyClients()
      ensures r.Some? ==> r.value == if p in world.users then world.users[p].sessions else {}
      ensures faultless ==> r.Some?
    {
      var ok := Attempt();
      r := None;
      if ok {
        r := Some(if p in world.users then world.users[p].sessions else {});
      }
    }

    /** proveExactPrincipal: it passes only if the principal exists and can log in. */
    method ProveLogin(p: Principal) returns (ok: bool)
      requires Valid()
      modifies this
      ensures Valid() && Extends() && OnlyClients()
      ensures ok ==> CanLogIn(world, p) && Since(|old(log)|, log, LoginProved(p))
      ensures faultless && CanLogIn(world, p) ==> ok
    {
      ok := Attempt();
      ok := ok && CanLogIn(world, p);
      if ok {
        Note(LoginProved(p));
      }
    }

    /** testPendingCredential: a connection and a query with the pending credential. */
    method TestPendingCredential(p: Principal) returns (ok: bool)
      requires Valid()
      modifies this
      ensures Valid() && Extends() && OnlyClients()
      ensures ok ==> CanLogIn(world, p) && Since(|old(log)|, log, PendingProved(p))
      ensures faultless && CanLogIn(world, p) ==> ok
    {
      ok := Attempt();
      ok := ok && CanLogIn(world, p);
      if ok {
        Note(PendingProved(p));
      }
    }

    /** proveCredentialRejected: a connection attempt that passes only if the login is refused. */
    method ProveRejected(p: Principal) returns (ok: bool)
      requires Valid()
      modifies this
      ensures Valid() && Extends() && OnlyClients()
      ensures ok ==> !CanLogIn(world, p) && Since(|old(log)|, log, LoginRefused(p))
      ensures faultless && !CanLogIn(world, p) ==> ok
    {
      ok := Attempt();
      ok := ok && !CanLogIn(world, p);
      if ok {
        Note(LoginRefused(p));
      }
    }

    /** waitForHostedPrincipal: it may time out; success only says what the hosted app answered. */
    method WaitForHostedPrincipal(p: Principal) returns (ok: bool)
      requires Valid()
      modifies this
      ensures Valid() && Extends() && OnlyClients()
      ensures ok ==> Since(|old(log)|, log, Converged(p))
      ensures faultless ==> ok
    {
      ok := Attempt();
      if ok {
        Note(Converged(p));
      }
    }

    /** setTimeout: at least that long. */
    method Sleep(ms: nat)
      requires Valid()
      modifies this
      ensures Valid() && Extends() && OnlyClients()
      ensures now >= old(now) + ms
    {
      Interfere();
      now := now + ms;
    }

    // ---- calls with effects ----

    /** Clients move, and then the call has its effect or not. That a drop is quiet is up to the caller. */
    method Call(c: Command) returns (ok: bool, ghost mid: World)
      requires Valid()
      modifies this
      ensures Valid() && old(log) <= log
      ensures Called(ok, mid, EffectOf(mid, c))
      ensures old(seen) <= seen <= old(seen) + LabelPositions(world)
      ensures world.labels == mid.labels ==> seen == old(seen)
      ensures (c.DropUser? && c.principal in old(world).users ==> Drained(old(world), c.principal)) ==> Extends()
    {
      hide Preserves;
      ghost var h0 := history;
      Interfere();
      mid := world;
      ghost var h1 := history;
      var effect := EffectOf(world, c);
      if effect.Some? {
        EffectsAreOrderly(world, c, effect.value);
      }
      ok := Apply(effect);
      LabelsAreSeen(mid, old(seen));
      if DropsQuietly(mid, world) {
        PreservesThen(stake, h0, h1, history);
      }
    }

    method CreateUser(p: Principal) returns (ok: bool, ghost mid: World)
      requires Valid()
      modifies this
      ensures Valid() && Extends() && seen == old(seen)
      ensures Called(ok, mid, if p in mid.users then None else Some(WithUser(mid, p)))
    {
      ok, mid := Call(Command.CreateUser(p));
    }

    method AlterUserNoLogin(p: Principal) returns (ok: bool, ghost mid: World)
      requires Valid()
      modifies this
      ensures Valid() && Extends() && seen == old(seen)
      ensures Called(ok, mid, if p in mid.users then Some(WithoutLogin(mid, p)) else None)
    {
      ok, mid := Call(Command.AlterUserNoLogin(p));
    }

    method CancelSession(id: SessionId) returns (ok: bool, ghost mid: World)
      requires Valid()
      modifies this
      ensures Valid() && Extends() && seen == old(seen)
      ensures Called(ok, mid, Some(WithoutSession(mid, id)))
    {
      ok, mid := Call(Command.CancelSession(id));
    }

    /** DROP USER. It does not look at sessions: that the history stays quiet is up to the caller. */
    method DropUser(p: Principal) returns (ok: bool, ghost mid: World)
      requires Valid()
      modifies this
      ensures Valid() && seen == old(seen) && old(log) <= log
      ensures (p in old(world).users ==> Drained(old(world), p)) ==> Extends()
      ensures Called(ok, mid, if p in mid.users then Some(WithoutUser(mid, p)) else None)
    {
      ok, mid := Call(Command.DropUser(p));
    }

    method PutSecretValue(v: VersionId, p: Principal) returns (ok: bool, ghost mid: World)
      requires Valid()
      modifies this
      ensures Valid() && Extends()
      ensures Called(ok, mid, Some(WithPending(mid, v, p)))
      ensures seen <= old(seen) + {(Pending, v)}
    {
      ok, mid := Call(Command.PutSecretValue(v, p));
    }

    method MoveCurrent(target: VersionId, from: VersionId) returns (ok: bool, ghost mid: World)
      requires Valid()
      modifies this
      ensures Valid() && Extends()
      ensures Called(ok, mid, WithCurrentMoved(mid, target, from))
      ensures seen <= old(seen) + {(Current, target), (Previous, from)}
      ensures world == mid ==> seen == old(seen)
    {
      ok, mid := Call(Command.MoveCurrent(target, from));
    }

    method RemoveLabel(stage: Stage, v: VersionId) returns (ok: bool, ghost mid: World)
      requires Valid()
      modifies this
      ensures Valid() && Extends() && seen == old(seen)
      ensures Called(ok, mid, WithLabelRemoved(mid, stage, v))
    {
      ok, mid := Call(Command.RemoveLabel(stage, v));
      assert LabelPositions(world) <= LabelPositions(mid);
    }
  }
}
