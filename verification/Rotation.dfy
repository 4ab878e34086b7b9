/** The credential rotation of `scripts/rotate-runtime-secret.ts`: rotateRuntimeCredential and the
    recovery it runs when anything throws, against the providers of RotationWorld. A method that
    throws in the source returns `ok == false`. */
module Rotation {
  import opened Options
  import opened RotationPolls
  import opened RotationRecovery
  import opened RotationWorld

  /** What a run remembers: the version it read as AWSCURRENT and the principal that version names,
      the token of the version it puts, and its flags. */
  datatype Ledger = Ledger(
    oldVersion: Option<VersionId>, oldPrincipal: Principal, newVersionId: Option<VersionId>, flags: RecoveryState)

  const BLANK := Ledger(None, 0, None, RecoveryState(false, false, false, false, false, false))

  /** The names a run generates are fresh as far as the secret store goes; the user name may
      collide with anything but the principal being served. */
  predicate Disjoint(s: Stake) {
    s.token != s.version && s.candidate != s.principal
  }

  predicate LedgerOrdered(s: Stake, l: Ledger) {
    && Ordered(l.flags)
    && (l.newVersionId.Some? ==> l.newVersionId.value == s.token && l.flags.newPrincipalCreated)
    && (l.flags.cutoverAttempted ==> l.newVersionId.Some?)
    && (l.flags.candidateNamed ==> l.oldVersion.Some?)
    && (l.flags.newPrincipalCreated ==> Disjoint(s))
  }

  /** The world as a run may rely on it, given what it remembers. */
  predicate Fits(s: Stake, w: World, seen: set<(Stage, VersionId)>, l: Ledger) {
    && Safe(s, w) && s.token != s.version
    && (s.token in w.versions ==> l.newVersionId.Some? && w.versions[s.token] == s.candidate)
    && ((Current, s.token) in seen ==>
          l.flags.cutoverAttempted && l.oldVersion == Some(s.version) && On(w, Current, s.token))
    && (On(w, Current, s.token) ==> (Current, s.token) in seen)
    && (l.oldVersion.Some? ==>
          && (Current, l.oldVersion.value) in seen
          && l.oldVersion.value in w.versions && w.versions[l.oldVersion.value] == l.oldPrincipal)
    && (l.flags.newPrincipalCreated ==> CanLogIn(w, s.candidate))
    && (!l.flags.retirementStarted ==> CanLogIn(w, s.principal))
    && (l.flags.cutoverAcknowledged ==> On(w, Current, s.token))
  }

  /** AWSCURRENT is back on, or never left, the original version. */
  predicate Restored(s: Stake, w: World) {
    Safe(s, w) && On(w, Current, s.version) && CanLogIn(w, s.principal)
    && (s.token in w.versions ==> w.versions[s.token] == s.candidate)
  }

  /** The same versions under the same labels. */
  predicate SameStore(a: World, b: World) {
    a.labels == b.labels && a.versions == b.versions
  }

  /** Nothing of the candidate is left: no user, and no label on its version. */
  predicate Cleaned(s: Stake, w: World) {
    s.candidate !in w.users && !On(w, Pending, s.token) && !On(w, Previous, s.token)
  }

  /** What the record of a run must show: AWSCURRENT served throughout, only drained principals
      dropped, and the original principal untouched until retirement. */
  ghost predicate Unharmed(s: Stake, history: seq<World>, retirementStarted: bool) {
    SafeHistory(s, history) && (!retirementStarted ==> PrincipalKept(s, history))
  }

  /** What a run has seen before it sets a flag: no candidate is named before the principal in use was
      proved, none counts as created without its ten role statements and its own proof, no
      cutover is attempted before the pending version and its credential were proved, and no
      retirement starts before both labels and the hosted app were seen to have moved. */
  predicate Backed(s: Stake, l: Ledger, log: seq<Proof>) {
    && (l.flags.candidateNamed ==> LoginProved(l.oldPrincipal) in log)
    && (l.flags.newPrincipalCreated ==> LoginProved(s.candidate) in log && RolesChanged(s.candidate, 10) in log)
    && (l.flags.cutoverAttempted ==> LabelSeen(Pending, s.token) in log && PendingProved(s.candidate) in log)
    && (l.flags.cutoverProved ==> LabelSeen(Current, s.token) in log)
    && (l.flags.retirementStarted ==>
          l.oldVersion.Some? && LabelSeen(Previous, l.oldVersion.value) in log && Converged(s.candidate) in log)
  }

  lemma BackedGrows(s: Stake, l: Ledger, log: seq<Proof>, later: seq<Proof>)
    requires Backed(s, l, log) && log <= later
    ensures Backed(s, l, later)
  {
    InLater(log, later);
  }

  lemma BackedNote(s: Stake, l: Ledger, l': Ledger, log: seq<Proof>)
    requires Backed(s, l, log)
    requires l'.oldVersion == l.oldVersion && l'.oldPrincipal == l.oldPrincipal
    requires l'.flags.candidateNamed ==> l.flags.candidateNamed
    requires l'.flags.newPrincipalCreated ==> l.flags.newPrincipalCreated
    requires l'.flags.retirementStarted ==> l.flags.retirementStarted
    requires l'.flags.cutoverAttempted && !l.flags.cutoverAttempted ==>
      LabelSeen(Pending, s.token) in log && PendingProved(s.candidate) in log
    requires l'.flags.cutoverProved && !l.flags.cutoverProved ==> LabelSeen(Current, s.token) in log
    ensures Backed(s, l', log)
  {
  }

  lemma InLater(log: seq<Proof>, later: seq<Proof>)
    requires log <= later
    ensures forall x :: x in log ==> x in later
  {
    forall x | x in log
      ensures x in later
    {
      var i :| 0 <= i < |log| && log[i] == x;
      assert later[i] == x;
    }
  }

  /** The closing observations of a complete rotation, made after the first n. */
  ghost predicate Observed(s: Stake, n: nat, log: seq<Proof>) {
    && Since(n, log, LabelSeen(Current, s.token)) && Since(n, log, LabelSeen(Previous, s.version))
    && Since(n, log, LoginProved(s.candidate)) && Since(n, log, Converged(s.candidate))
  }

  /** First the old login was refused, then the closing observations were made. */
  ghost predicate Concluded(s: Stake, n: nat, log: seq<Proof>) {
    exists m :: n <= m <= |log| && Since(n, log[..m], LoginRefused(s.principal)) && Observed(s, m, log)
  }

  lemma Concludes(s: Stake, n: nat, l1: seq<Proof>, l2: seq<Proof>, log: seq<Proof>)
    requires Since(n, l1, LoginRefused(s.principal)) && n <= |l1| && l1 <= l2 <= log && Observed(s, |l2|, log)
    ensures Concluded(s, n, log)
  {
    hide Since;
    SinceGrows(n, l1, n, l2, LoginRefused(s.principal));
    assert log[..|l2|] == l2;
  }

  lemma ConcludedSince(s: Stake, n: nat, log: seq<Proof>)
    requires Concluded(s, n, log)
    ensures Concluded(s, 0, log)
  {
    hide Since;
    var m :| n <= m <= |log| && Since(n, log[..m], LoginRefused(s.principal)) && Observed(s, m, log);
    SinceGrows(n, log[..m], 0, log[..m], LoginRefused(s.principal));
  }

  lemma UnharmedExtends(s: Stake, before: seq<World>, after: seq<World>, retiring: bool)
    requires before != [] && after != []
    requires Preserves(s, before, after) && Unharmed(s, before, retiring) && Safe(s, Last(after))
    requires !retiring ==> CanLogIn(Last(after), s.principal)
    ensures Unharmed(s, after, retiring)
  {
    hide SafeHistory, PrincipalKept, Safe;
  }

  lemma FitsIsSafe(s: Stake, w: World, seen: set<(Stage, VersionId)>, l: Ledger)
    requires Fits(s, w, seen, l)
    ensures Safe(s, w)
    ensures !l.flags.retirementStarted ==> CanLogIn(w, s.principal)
    ensures l.newVersionId.None? && LedgerOrdered(s, l) ==> On(w, Current, s.version) && s.token !in w.versions
    ensures l.flags.newPrincipalCreated ==> CanLogIn(w, s.candidate)
    ensures s.token != s.version
    ensures l.oldVersion == Some(s.version) ==> l.oldPrincipal == s.principal
    ensures l.flags.cutoverAcknowledged ==> On(w, Current, s.token) && (Current, s.token) in seen
    ensures l.flags.cutoverAcknowledged ==> l.oldVersion == Some(s.version)
    ensures !l.flags.cutoverAttempted ==> On(w, Current, s.version) && !On(w, Current, s.token)
  {
  }

  /** Remembering more without acting. */
  lemma FitsNote(s: Stake, w: World, seen: set<(Stage, VersionId)>, l: Ledger, l': Ledger)
    requires Fits(s, w, seen, l)
    requires l'.oldVersion != l.oldVersion || l'.oldPrincipal != l.oldPrincipal ==>
      && l.oldVersion.None? && l'.oldVersion.Some? && (Current, l'.oldVersion.value) in seen
      && l'.oldVersion.value in w.versions && w.versions[l'.oldVersion.value] == l'.oldPrincipal
    requires l'.newVersionId == l.newVersionId || l'.newVersionId.Some?
    requires l.flags.cutoverAttempted ==> l'.flags.cutoverAttempted
    requires l.flags.retirementStarted ==> l'.flags.retirementStarted
    requires l'.flags.newPrincipalCreated ==> l.flags.newPrincipalCreated || CanLogIn(w, s.candidate)
    requires l'.flags.cutoverAcknowledged ==> l.flags.cutoverAcknowledged || On(w, Current, s.token)
    ensures Fits(s, w, seen, l')
  {
    hide Safe;
  }

  lemma UnharmedRetiring(s: Stake, history: seq<World>)
    requires Unharmed(s, history, false)
    ensures Unharmed(s, history, true)
  {
  }

  lemma DropIsSameButUsers(a: World, b: World, principal: Principal)
    requires SameAccounts(a, b) || SameAccounts(WithoutUser(a, principal), b)
    ensures SameButLogin(a, b, principal) || SameAccounts(WithoutUser(a, principal), b)
  {
  }

  // ---- what each step does to the world a run relies on ----

  lemma FitsClients(s: Stake, a: World, b: World, seen: set<(Stage, VersionId)>, l: Ledger)
    requires Fits(s, a, seen, l) && SameAccounts(a, b)
    ensures Fits(s, b, seen, l)
  {
    SafetyIgnoresClients(s, a, b);
    hide Safe;
  }

  lemma FitsCreate(s: Stake, a: World, mid: World, b: World, seen: set<(Stage, VersionId)>, l: Ledger)
    requires Fits(s, a, seen, l) && ClientsMove(a, mid)
    requires b == mid || (s.candidate !in mid.users && b == WithUser(mid, s.candidate))
    ensures Fits(s, b, seen, l)
  {
    FitsClients(s, a, mid, seen, l);
  }

  lemma FitsPut(s: Stake, a: World, mid: World, b: World, seen: set<(Stage, VersionId)>,
                seen': set<(Stage, VersionId)>, l: Ledger)
    requires Fits(s, a, seen, l) && ClientsMove(a, mid) && l.newVersionId.Some?
    requires b == mid || b == WithPending(mid, s.token, s.candidate)
    requires seen <= seen' <= seen + {(Pending, s.token)}
    ensures Fits(s, b, seen', l)
  {
    FitsClients(s, a, mid, seen, l);
  }

  lemma FitsCutOver(s: Stake, a: World, mid: World, b: World, seen: set<(Stage, VersionId)>,
                    seen': set<(Stage, VersionId)>, l: Ledger)
    requires Fits(s, a, seen, l) && LedgerOrdered(s, l) && ClientsMove(a, mid)
    requires l.flags.cutoverAttempted && !l.flags.cutoverAcknowledged
    requires b == mid || WithCurrentMoved(mid, s.token, l.oldVersion.value) == Some(b)
    requires forall stage :: stage in b.labels ==> (stage, b.labels[stage]) in seen'
    requires seen <= seen' <= seen + {(Current, s.token), (Previous, l.oldVersion.value)}
    requires b == mid ==> seen' == seen
    ensures Fits(s, b, seen', l)
    ensures b != mid ==>
      && On(b, Current, s.token) && On(b, Previous, s.version)
      && (On(mid, Pending, s.token) ==> On(b, Pending, s.token))
  {
    FitsClients(s, a, mid, seen, l);
  }

  /** Once AWSCURRENT is on the candidate's version, the original principal is nobody's. */
  lemma FitsRetire(s: Stake, a: World, b: World, seen: set<(Stage, VersionId)>, l: Ledger)
    requires Fits(s, a, seen, l) && LedgerOrdered(s, l) && l.flags.retirementStarted
    requires SameButLogin(a, b, s.principal) || SameAccounts(WithoutUser(a, s.principal), b)
    ensures Fits(s, b, seen, l)
    ensures b.labels == a.labels
  {
  }

  lemma FitsUnlabel(s: Stake, a: World, mid: World, b: World, seen: set<(Stage, VersionId)>, l: Ledger, stage: Stage)
    requires Fits(s, a, seen, l) && ClientsMove(a, mid) && stage != Current
    requires b == mid || WithLabelRemoved(mid, stage, s.token) == Some(b)
    ensures Fits(s, b, seen, l)
    ensures b.labels == a.labels || b.labels == a.labels - {stage}
  {
    FitsClients(s, a, mid, seen, l);
  }

  /** Going back: AWSCURRENT returns to the original version. */
  lemma RestoredByRollback(s: Stake, a: World, mid: World, b: World, seen: set<(Stage, VersionId)>, l: Ledger)
    requires Fits(s, a, seen, l) && ClientsMove(a, mid) && !l.flags.retirementStarted
    requires (Current, s.token) in seen
    requires b == mid || WithCurrentMoved(mid, s.version, s.token) == Some(b)
    ensures Safe(s, b) && CanLogIn(b, s.principal)
    ensures WithCurrentMoved(mid, s.version, s.token) == Some(b) ==> Restored(s, b)
  {
    FitsClients(s, a, mid, seen, l);
  }

  /** Before the cutover there is nothing to restore. */
  lemma RestoredUntouched(s: Stake, w: World, seen: set<(Stage, VersionId)>, l: Ledger)
    requires Fits(s, w, seen, l) && LedgerOrdered(s, l) && !l.flags.cutoverAttempted
    ensures Restored(s, w)
    ensures l.newVersionId.None? ==> s.token !in w.versions
    ensures l.flags.newPrincipalCreated ==> Disjoint(s)
    ensures s.candidate != s.principal ==> Disjoint(s)
  {
  }

  lemma RestoredClients(s: Stake, a: World, b: World)
    requires Restored(s, a) && SameAccounts(a, b)
    ensures Restored(s, b)
  {
  }

  lemma RestoredPut(s: Stake, a: World, mid: World, b: World)
    requires Restored(s, a) && ClientsMove(a, mid) && s.token != s.version
    requires b == mid || b == WithPending(mid, s.token, s.candidate)
    ensures Restored(s, b)
  {
  }

  lemma RestoredUnlabel(s: Stake, a: World, mid: World, b: World, stage: Stage)
    requires Restored(s, a) && ClientsMove(a, mid) && stage != Current
    requires b == mid || WithLabelRemoved(mid, stage, s.token) == Some(b)
    ensures Restored(s, b)
    ensures b.labels == a.labels || b.labels == a.labels - {stage}
  {
  }

  lemma RestoredDrop(s: Stake, a: World, b: World)
    requires Restored(s, a) && s.candidate != s.principal
    requires SameButLogin(a, b, s.candidate) || SameAccounts(WithoutUser(a, s.candidate), b)
    ensures Restored(s, b) && b.labels == a.labels
  {
  }

  /** Where a run starts: AWSCURRENT is on a version whose principal can log in, and the request
      token is new. */
  predicate Starts(s: Stake, w: World) {
    && On(w, Current, s.version) && s.version in w.versions && w.versions[s.version] == s.principal
    && CanLogIn(w, s.principal)
    && s.token !in w.versions
  }

  lemma StartFits(s: Stake, w: World, seen: set<(Stage, VersionId)>)
    requires Starts(s, w)
    requires forall stage, v :: (stage, v) in seen ==> v in w.versions
    ensures Fits(s, w, seen, BLANK) && LedgerOrdered(s, BLANK) && Unharmed(s, [w], false)
  {
  }

  /** With its principal gone, AWSCURRENT is not served. */
  lemma GoneIsUnserved(s: Stake, a: World, b: World)
    requires Starts(s, a)
    ensures s.principal in a.users
    ensures SameStore(a, b) && s.principal !in b.users ==> !Served(b)
  {
  }

  lemma UnharmedIsQuiet(s: Stake, history: seq<World>, retiring: bool)
    requires Unharmed(s, history, retiring)
    ensures QuietDrops(history)
  {
  }

  lemma StaysQuiet(s: Stake, before: seq<World>, after: seq<World>)
    requires after != [] && Preserves(s, before, after) && QuietDrops(before)
    ensures QuietDrops(after)
  {
  }

  /** What an unharmed record shows to someone who only knows AWSCURRENT. */
  lemma UnharmedIsServed(s: Stake, history: seq<World>, retiring: bool)
    requires Unharmed(s, history, retiring)
    ensures QuietDrops(history) && forall w :: w in history ==> Served(w)
  {
    forall w | w in history
      ensures Served(w)
    {
      assert Safe(s, w);
    }
  }

  /** rotateRuntimeCredential's locals, which its recovery closes over. `token` and `candidate` are
      the generated request token and principal name. */
  class Run {
    const providers: Providers
    const token: VersionId
    const candidate: Principal
    const drainGraceSeconds: nat
    var oldVersion: Option<VersionId>
    var oldPrincipal: Principal
    var newVersionId: Option<VersionId>
    var candidateNamed: bool
    var newPrincipalCreated: bool
    var cutoverAttempted: bool
    var cutoverAcknowledged: bool
    var cutoverProved: bool
    var retirementStarted: bool

    function Flags(): RecoveryState
      reads this
    {
      RecoveryState(candidateNamed, cutoverAcknowledged, cutoverAttempted, cutoverProved,
                    newPrincipalCreated, retirementStarted)
    }

    function Book(): Ledger
      reads this
    {
      Ledger(oldVersion, oldPrincipal, newVersionId, Flags())
    }

    ghost predicate Tracks()
      reads this, providers
    {
      && providers.Valid()
      && token == providers.stake.token && candidate == providers.stake.candidate
      && LedgerOrdered(providers.stake, Book())
      && Fits(providers.stake, providers.world, providers.seen, Book())
      && Unharmed(providers.stake, providers.history, retirementStarted)
      && Backed(providers.stake, Book(), providers.log)
    }

    constructor (providers: Providers, drainGraceSeconds: nat, token: VersionId, candidate: Principal)
      ensures this.providers == providers && this.token == token && this.candidate == candidate
      ensures Book() == BLANK
    {
      this.providers, this.drainGraceSeconds := providers, drainGraceSeconds;
      this.token, this.candidate := token, candidate;
      oldVersion, oldPrincipal, newVersionId := None, 0, None;
      candidateNamed, newPrincipalCreated := false, false;
      cutoverAttempted, cutoverAcknowledged, cutoverProved, retirementStarted := false, false, false, false;
    }

    /** Nothing of the run's own changed, and the world is still one to rely on. */
    twostate lemma Advances()
      requires old(Tracks()) && unchanged(this)
      requires providers.Valid() && providers.Extends()
      requires Fits(providers.stake, providers.world, providers.seen, Book())
      ensures Tracks()
    {
      hide Fits, Safe, Preserves, SafeHistory, PrincipalKept;
      FitsIsSafe(providers.stake, providers.world, providers.seen, Book());
      UnharmedExtends(providers.stake, old(providers.history), providers.history, retirementStarted);
      BackedGrows(providers.stake, Book(), old(providers.log), providers.log);
    }

    /** On the outside only clients moved. */
    twostate lemma StillTracks()
      requires old(Tracks()) && unchanged(this)
      requires providers.Valid() && providers.Extends() && providers.OnlyClients()
      ensures Tracks()
    {
      hide Fits, Safe, Preserves, SafeHistory, PrincipalKept;
      FitsClients(providers.stake, old(providers.world), providers.world, providers.seen, Book());
      Advances();
    }

    // ---- reads, as a run sees them ----

    /** A connection, which changes nothing. */
    method Connect() returns (ok: bool)
      requires Tracks()
      modifies providers
      ensures Tracks() && SameAccounts(old(providers.world), providers.world) && old(providers.log) <= providers.log
      ensures providers.faultless ==> ok
    {
      hide Fits, Safe, Preserves, Unharmed, ClientsMove, ClientsOnlyLeave, SameAccounts;
      ok := providers.Attempt();
      StillTracks();
      MoveKeepsAccounts(old(providers.world), providers.world);
    }

    method Converge(principal: Principal) returns (ok: bool)
      requires Tracks()
      modifies providers
      ensures Tracks() && SameAccounts(old(providers.world), providers.world) && old(providers.log) <= providers.log
      ensures ok ==> Since(|old(providers.log)|, providers.log, Converged(principal))
      ensures providers.faultless ==> ok
    {
      hide Fits, Safe, Preserves, Unharmed, ClientsMove, ClientsOnlyLeave, SameAccounts, Since;
      ok := providers.WaitForHostedPrincipal(principal);
      StillTracks();
      MoveKeepsAccounts(old(providers.world), providers.world);
    }

    method Await(stage: Stage, v: VersionId) returns (ok: bool)
      requires Tracks()
      modifies providers
      ensures Tracks() && SameAccounts(old(providers.world), providers.world) && old(providers.log) <= providers.log
      ensures ok ==>
        (stage, v) in providers.seen && Since(|old(providers.log)|, providers.log, LabelSeen(stage, v))
      ensures providers.faultless && On(old(providers.world), stage, v) ==> ok
    {
      hide Fits, Safe, Preserves, Unharmed, ClientsMove, ClientsOnlyLeave, Since;
      ok := WaitForSecretStageVersion(providers, stage, v);
      StillTracks();
      MoveKeepsAccounts(old(providers.world), providers.world);
    }

    method Prove(principal: Principal) returns (ok: bool)
      requires Tracks()
      modifies providers
      ensures Tracks() && SameAccounts(old(providers.world), providers.world) && old(providers.log) <= providers.log
      ensures ok ==>
        CanLogIn(providers.world, principal) && Since(|old(providers.log)|, providers.log, LoginProved(principal))
      ensures providers.faultless && CanLogIn(old(providers.world), principal) ==> ok
    {
      hide Fits, Safe, Preserves, Unharmed, ClientsMove, ClientsOnlyLeave, Since;
      ok := providers.ProveLogin(principal);
      StillTracks();
      MoveKeepsAccounts(old(providers.world), providers.world);
    }

    method TestPending(principal: Principal) returns (ok: bool)
      requires Tracks()
      modifies providers
      ensures Tracks() && SameAccounts(old(providers.world), providers.world) && old(providers.log) <= providers.log
      ensures ok ==> Since(|old(providers.log)|, providers.log, PendingProved(principal))
      ensures providers.faultless && CanLogIn(old(providers.world), principal) ==> ok
    {
      hide Fits, Safe, Preserves, Unharmed, ClientsMove, ClientsOnlyLeave, Since;
      ok := providers.TestPendingCredential(principal);
      StillTracks();
      MoveKeepsAccounts(old(providers.world), providers.world);
    }

    // ---- the forward path ----

    /** From the start to a candidate principal that can log in. A name that already exists ends the
        run before anything is created. */
    method Prepare() returns (ok: bool)
      requires Tracks() && Book() == BLANK
      modifies providers, `oldVersion, `oldPrincipal, `candidateNamed, `newPrincipalCreated
      ensures Tracks() && ok == newPrincipalCreated
      ensures SameStore(old(providers.world), providers.world)
      ensures providers.faultless ==>
        && ok == (candidate !in old(providers.world).users) && candidateNamed
        && candidate in providers.world.users && oldVersion == Some(providers.stake.version)
    {
      hide Fits, Safe, Preserves, Unharmed;
      ok := ReadCurrent();
      if !ok {
        return;
      }
      ghost var l := Book();
      candidateNamed := true;
      FitsNote(providers.stake, providers.world, providers.seen, l, Book());
      ok := CreateRuntimePrincipal();
      if !ok {
        return;
      }
      FitsIsSafe(providers.stake, providers.world, providers.seen, Book());
      l := Book();
      newPrincipalCreated := true;
      FitsNote(providers.stake, providers.world, providers.seen, l, Book());
    }

    /** The start of the run: connect, read AWSCURRENT, and prove the principal it names. */
    method ReadCurrent() returns (ok: bool)
      requires Tracks() && Book() == BLANK
      modifies providers, `oldVersion, `oldPrincipal
      ensures Tracks() && SameAccounts(old(providers.world), providers.world)
      ensures ok ==> oldVersion.Some? && LoginProved(oldPrincipal) in providers.log
      ensures providers.faultless ==> ok && oldVersion == Some(providers.stake.version)
    {
      hide Fits, Safe, Preserves, Unharmed;
      ok := Connect();
      if !ok {
        return;
      }
      ok := ReadOldVersion();
      if !ok {
        return;
      }
      FitsIsSafe(providers.stake, providers.world, providers.seen, Book());
      ok := Prove(oldPrincipal);
    }

    method ReadOldVersion() returns (ok: bool)
      requires Tracks() && Book() == BLANK
      modifies providers, `oldVersion, `oldPrincipal
      ensures Tracks() && SameAccounts(old(providers.world), providers.world)
      ensures ok ==> oldVersion.Some?
      ensures providers.faultless ==> ok && oldVersion == Some(providers.stake.version)
    {
      hide Fits, Safe, Preserves, Unharmed, ClientsMove, ClientsOnlyLeave;
      var read := providers.ReadSecretStage(Current);
      StillTracks();
      MoveKeepsAccounts(old(providers.world), providers.world);
      FitsIsSafe(providers.stake, providers.world, providers.seen, Book());
      if read.None? {
        return false;
      }
      ghost var l := Book();
      oldVersion := read;
      oldPrincipal := providers.world.versions[read.value];
      FitsNote(providers.stake, providers.world, providers.seen, l, Book());
      ok := true;
    }

    /** createRuntimePrincipal */
    method CreateRuntimePrincipal() returns (ok: bool)
      requires Tracks() && oldVersion.Some? && candidateNamed && !newPrincipalCreated
      modifies providers
      ensures Tracks()
      ensures ok ==> candidate != providers.stake.principal && CanLogIn(providers.world, candidate)
      ensures ok ==> LoginProved(candidate) in providers.log && RolesChanged(candidate, 10) in providers.log
      ensures SameStore(old(providers.world), providers.world)
      ensures providers.faultless ==>
        ok == (candidate !in old(providers.world).users) && candidate in providers.world.users
    {
      hide Fits, Safe, Preserves, Unharmed, Backed;
      ok := CreateUser();
      if !ok {
        return;
      }
      ok := SetRoles(10);
      if !ok {
        return;
      }
      ghost var l1 := providers.log;
      ok := Prove(candidate);
      InLater(l1, providers.log);
    }

    method CreateUser() returns (ok: bool)
      requires Tracks() && oldVersion.Some? && candidateNamed && !newPrincipalCreated
      modifies providers
      ensures Tracks()
      ensures ok ==> candidate != providers.stake.principal && candidate in providers.world.users
      ensures ok ==> CanLogIn(providers.world, candidate)
      ensures SameStore(old(providers.world), providers.world)
      ensures providers.faultless ==>
        ok == (candidate !in old(providers.world).users) && candidate in providers.world.users
    {
      hide Fits, Safe, Preserves, Unharmed, ClientsMove, ClientsOnlyLeave;
      FitsIsSafe(providers.stake, providers.world, providers.seen, Book());
      var existing := providers.ShowUser(candidate);
      StillTracks();
      MoveKeepsAccounts(old(providers.world), providers.world);
      if existing != Some(None) {
        return false;
      }
      label L1:
      ghost var w1 := providers.world;
      ghost var mid;
      ok, mid := providers.CreateUser(candidate);
      MoveKeepsAccounts(w1, mid);
      FitsCreate(providers.stake, w1, mid, providers.world, providers.seen, Book());
      Advances@L1();
    }

    method SetRoles(statements: nat) returns (ok: bool)
      requires Tracks()
      modifies providers
      ensures Tracks() && SameAccounts(old(providers.world), providers.world)
      ensures ok ==> RolesChanged(candidate, statements) in providers.log
      ensures providers.faultless ==> ok
    {
      hide Fits, Safe, Preserves, Unharmed, ClientsMove, ClientsOnlyLeave;
      ok := ChangeRoles(providers, candidate, statements);
      StillTracks();
      MoveKeepsAccounts(old(providers.world), providers.world);
    }

    /** PutSecretValue under the run's own token, and the proof of what it stored. */
    method Publish() returns (ok: bool)
      requires Tracks() && newPrincipalCreated && newVersionId.None?
      modifies providers, `newVersionId
      ensures Tracks() && newVersionId.Some?
      ensures ok ==> LabelSeen(Pending, token) in providers.log && PendingProved(candidate) in providers.log
      ensures providers.faultless ==> ok && On(providers.world, Pending, token)
    {
      hide Fits, Safe, Preserves, Unharmed;
      FitsIsSafe(providers.stake, providers.world, providers.seen, Book());
      ghost var l := Book();
      newVersionId := Some(token);
      FitsNote(providers.stake, providers.world, providers.seen, l, Book());
      ok := Put();
      if !ok {
        return;
      }
      ok := Await(Pending, token);
      if !ok {
        return;
      }
      ghost var l1 := providers.log;
      FitsIsSafe(providers.stake, providers.world, providers.seen, Book());
      ok := TestPending(candidate);
      InLater(l1, providers.log);
    }

    /** The Put itself: repeated under the same token it changes nothing. */
    method Put() returns (ok: bool)
      requires Tracks() && newVersionId.Some?
      modifies providers
      ensures Tracks()
      ensures providers.faultless ==> ok
      ensures providers.faultless && token !in old(providers.world).versions ==> On(providers.world, Pending, token)
      ensures providers.world.users.Keys == old(providers.world).users.Keys
    {
      hide Fits, Safe, Preserves, Unharmed, ClientsMove, ClientsOnlyLeave;
      ghost var mid;
      ok, mid := providers.PutSecretValue(token, candidate);
      MoveKeepsAccounts(old(providers.world), mid);
      FitsPut(providers.stake, old(providers.world), mid, providers.world,
              old(providers.seen), providers.seen, Book());
      Advances();
    }

    /** The move of AWSCURRENT, its proof, and the hosted app's convergence. */
    method CutOver() returns (ok: bool)
      requires Tracks() && newVersionId.Some? && !cutoverAttempted
      requires LabelSeen(Pending, token) in providers.log && PendingProved(candidate) in providers.log
      requires providers.faultless ==>
        On(providers.world, Pending, token) && oldVersion == Some(providers.stake.version)
      modifies providers, `cutoverAttempted, `cutoverAcknowledged, `cutoverProved
      ensures Tracks() && cutoverAttempted
      ensures ok ==> cutoverProved && oldVersion == Some(providers.stake.version)
      ensures ok ==> On(providers.world, Previous, providers.stake.version)
      ensures ok ==>
        LabelSeen(Previous, oldVersion.value) in providers.log && Converged(candidate) in providers.log
      ensures providers.faultless ==> ok && On(providers.world, Pending, token)
    {
      hide Fits, Safe, Preserves, Unharmed, Since, Backed;
      FitsIsSafe(providers.stake, providers.world, providers.seen, Book());
      ghost var l := Book();
      cutoverAttempted := true;
      BackedNote(providers.stake, l, Book(), providers.log);
      FitsNote(providers.stake, providers.world, providers.seen, l, Book());
      ok := Move();
      if !ok {
        return;
      }
      FitsIsSafe(providers.stake, providers.world, providers.seen, Book());
      l := Book();
      cutoverAcknowledged := true;
      BackedNote(providers.stake, l, Book(), providers.log);
      FitsNote(providers.stake, providers.world, providers.seen, l, Book());
      ghost var l1 := providers.log;
      ok := Await(Current, token);
      if !ok {
        return;
      }
      SinceGrows(|l1|, providers.log, 0, providers.log, LabelSeen(Current, token));
      l := Book();
      cutoverProved := true;
      BackedNote(providers.stake, l, Book(), providers.log);
      FitsNote(providers.stake, providers.world, providers.seen, l, Book());
      l1 := providers.log;
      ok := Await(Previous, oldVersion.value);
      if !ok {
        return;
      }
      ghost var l2 := providers.log;
      ok := Converge(candidate);
      if ok {
        SinceGrows(|l1|, l2, 0, providers.log, LabelSeen(Previous, oldVersion.value));
        SinceGrows(|l2|, providers.log, 0, providers.log, Converged(candidate));
      }
    }

    method Move() returns (ok: bool)
      requires Tracks() && cutoverAttempted && !cutoverAcknowledged
      requires !On(providers.world, Current, token)
      modifies providers
      ensures Tracks()
      ensures ok ==> On(providers.world, Current, token) && oldVersion == Some(providers.stake.version)
      ensures ok ==> On(providers.world, Previous, providers.stake.version)
      ensures providers.faultless && oldVersion == Some(providers.stake.version) ==>
        (On(old(providers.world), Pending, token) ==> ok && On(providers.world, Pending, token))
    {
      hide Fits, Safe, Preserves, Unharmed, ClientsMove, ClientsOnlyLeave;
      ghost var mid;
      if On(providers.world, Pending, token) {
        LabelledIsStored(providers.world, providers.seen, Pending);
      }
      FitsIsSafe(providers.stake, providers.world, providers.seen, Book());
      ok, mid := providers.MoveCurrent(token, oldVersion.value);
      MoveKeepsAccounts(old(providers.world), mid);
      FitsCutOver(providers.stake, old(providers.world), mid, providers.world,
                  old(providers.seen), providers.seen, Book());
      Advances();
    }

    /** The old principal is disabled, drained, proved rejected and dropped, and AWSPENDING taken off;
        then everything a receipt claims is observed once more. */
    method Retire() returns (ok: bool)
      requires Tracks() && cutoverProved && !retirementStarted && oldVersion == Some(providers.stake.version)
      requires LabelSeen(Previous, oldVersion.value) in providers.log && Converged(candidate) in providers.log
      requires On(providers.world, Previous, providers.stake.version)
      requires providers.faultless ==> On(providers.world, Pending, token)
      modifies providers, `retirementStarted
      ensures Tracks() && retirementStarted
      ensures ok ==>
        && providers.stake.principal !in providers.world.users && !On(providers.world, Pending, token)
        && On(providers.world, Previous, providers.stake.version)
      ensures ok ==> Concluded(providers.stake, |old(providers.log)|, providers.log)
      ensures providers.faultless ==> ok
    {
      hide Fits, Safe, Preserves, Unharmed, Since, Concluded;
      FitsIsSafe(providers.stake, providers.world, providers.seen, Book());
      ghost var l, l0 := Book(), providers.log;
      retirementStarted := true;
      FitsNote(providers.stake, providers.world, providers.seen, l, Book());
      UnharmedRetiring(providers.stake, providers.history);
      ok := RetireOldPrincipal();
      if !ok {
        return;
      }
      ghost var l1 := providers.log;
      ok := Unlabel(Pending);
      if !ok {
        return;
      }
      ghost var l2 := providers.log;
      ok := ObserveConclusion();
      if ok {
        Concludes(providers.stake, |l0|, l1, l2, providers.log);
      }
    }

    /** The final observations: both labels, the candidate, the hosted app. */
    method ObserveConclusion() returns (ok: bool)
      requires Tracks() && retirementStarted && oldVersion == Some(providers.stake.version)
      modifies providers
      ensures Tracks() && SameAccounts(old(providers.world), providers.world) && old(providers.log) <= providers.log
      ensures ok ==> Observed(providers.stake, |old(providers.log)|, providers.log)
      ensures providers.faultless && On(old(providers.world), Previous, providers.stake.version) ==> ok
    {
      hide Fits, Safe, Preserves, Unharmed, Since, Backed;
      FitsIsSafe(providers.stake, providers.world, providers.seen, Book());
      ghost var n, s := |providers.log|, providers.stake;
      ok := Await(Current, token);
      if !ok {
        return;
      }
      ghost var l1 := providers.log;
      ok := Await(Previous, oldVersion.value);
      if !ok {
        return;
      }
      ghost var l2 := providers.log;
      FitsIsSafe(providers.stake, providers.world, providers.seen, Book());
      ok := Prove(candidate);
      if !ok {
        return;
      }
      ghost var l3 := providers.log;
      ok := Converge(candidate);
      if ok {
        SinceGrows(n, l1, n, providers.log, LabelSeen(Current, s.token));
        SinceGrows(|l1|, l2, n, providers.log, LabelSeen(Previous, s.version));
        SinceGrows(|l2|, l3, n, providers.log, LoginProved(s.candidate));
        SinceGrows(|l3|, providers.log, n, providers.log, Converged(s.candidate));
      }
    }

    method RetireOldPrincipal() returns (ok: bool)
      requires Tracks() && retirementStarted && oldVersion == Some(providers.stake.version)
      modifies providers
      ensures Tracks() && providers.world.labels == old(providers.world).labels && old(providers.log) <= providers.log
      ensures ok ==>
        && providers.stake.principal !in providers.world.users
        && Since(|old(providers.log)|, providers.log, LoginRefused(providers.stake.principal))
      ensures providers.faultless && providers.stake.principal in old(providers.world).users ==> ok
    {
      hide Fits, Safe, Preserves, Unharmed, ClientsMove, ClientsOnlyLeave, Since, Backed;
      FitsIsSafe(providers.stake, providers.world, providers.seen, Book());
      ghost var refused;
      ok, refused := DisableAndDrainPrincipal(providers, oldPrincipal, drainGraceSeconds);
      FitsRetire(providers.stake, old(providers.world), providers.world, providers.seen, Book());
      Advances();
      if !ok {
        return;
      }
      ghost var w1, l1 := providers.world, providers.log;
      label L1:
      ok := providers.ProveRejected(oldPrincipal);
      StillTracks@L1();
      MoveKeepsAccounts(w1, providers.world);
      if !ok {
        return;
      }
      ghost var w2, l2 := providers.world, providers.log;
      label L2:
      ok, refused := DropRuntimePrincipal(providers, oldPrincipal);
      SinceGrows(|l1|, l2, |old(providers.log)|, providers.log, LoginRefused(oldPrincipal));
      DropIsSameButUsers(w2, providers.world, oldPrincipal);
      FitsRetire(providers.stake, w2, providers.world, providers.seen, Book());
      Advances@L2();
    }

    /** removeVersionLabel on the run's own version. */
    method Unlabel(stage: Stage) returns (ok: bool)
      requires Tracks() && stage != Current
      modifies providers
      ensures Tracks() && providers.world.users.Keys == old(providers.world).users.Keys
      ensures old(providers.log) <= providers.log
      ensures providers.world.labels == old(providers.world).labels
        || providers.world.labels == old(providers.world).labels - {stage}
      ensures ok ==> !On(providers.world, stage, token)
      ensures providers.faultless && On(old(providers.world), stage, token) ==> ok
    {
      hide Fits, Safe, Preserves, Unharmed, ClientsMove, ClientsOnlyLeave;
      ghost var mid;
      ok, mid := providers.RemoveLabel(stage, token);
      MoveKeepsAccounts(old(providers.world), mid);
      FitsUnlabel(providers.stake, old(providers.world), mid, providers.world, providers.seen, Book(), stage);
      Advances();
    }

    /** Everything from the first call to the last, if nothing throws. */
    method Forward() returns (ok: bool)
      requires Tracks() && Book() == BLANK
      modifies providers, `oldVersion, `oldPrincipal, `candidateNamed, `newPrincipalCreated, `newVersionId,
               `cutoverAttempted, `cutoverAcknowledged, `cutoverProved, `retirementStarted
      ensures Tracks()
      ensures ok ==>
        && retirementStarted
        && providers.stake.principal !in providers.world.users && !On(providers.world, Pending, token)
        && On(providers.world, Previous, providers.stake.version)
        && Concluded(providers.stake, 0, providers.log)
      ensures newVersionId.None? ==> SameStore(old(providers.world), providers.world)
      ensures providers.faultless ==> ok == (candidate !in old(providers.world).users)
      ensures providers.faultless && !ok ==>
        candidateNamed && !newPrincipalCreated && newVersionId.None? && candidate in providers.world.users
    {
      hide Fits, Safe, Preserves, Unharmed;
      ok := Prepare();
      if !ok {
        return;
      }
      ok := Publish();
      if !ok {
        return;
      }
      ok := CutOver();
      if !ok {
        return;
      }
      ghost var l1 := providers.log;
      ok := Retire();
      if ok {
        ConcludedSince(providers.stake, |l1|, providers.log);
      }
    }

    // ---- recovery ----

    ghost predicate Named()
      reads this, providers
    {
      && providers.Valid()
      && token == providers.stake.token && candidate == providers.stake.candidate
      && (newVersionId.Some? ==> newVersionId.value == token)
      && QuietDrops(providers.history)
    }

    /** The original version is current and its principal was never touched. */
    ghost predicate Holds()
      reads this, providers
    {
      && Named() && Disjoint(providers.stake)
      && Restored(providers.stake, providers.world) && Unharmed(providers.stake, providers.history, false)
    }

    twostate lemma KeepsHolding()
      requires old(Holds()) && unchanged(this)
      requires providers.Valid() && providers.Extends() && Restored(providers.stake, providers.world)
      ensures Holds()
    {
      hide Safe, Preserves, Unharmed, QuietDrops, On, Disjoint;
      UnharmedExtends(providers.stake, old(providers.history), providers.history, false);
      UnharmedIsQuiet(providers.stake, providers.history, false);
    }

    twostate lemma StillHolds()
      requires old(Holds()) && unchanged(this)
      requires providers.Valid() && providers.Extends() && providers.OnlyClients()
      ensures Holds()
    {
      hide Restored, Safe, Preserves, SafeHistory, PrincipalKept, On, Disjoint;
      RestoredClients(providers.stake, old(providers.world), providers.world);
      KeepsHolding();
    }

    /** Is there a user of that name? It may not be this run's. */
    method ReconcilePreparedPrincipal() returns (found: Option<bool>)
      requires Tracks()
      modifies providers
      ensures Tracks() && SameAccounts(old(providers.world), providers.world) && old(providers.log) <= providers.log
      ensures found.Some? ==> found.value == (candidate in providers.world.users)
      ensures providers.faultless ==> found.Some?
    {
      hide Fits, Safe, Preserves, Unharmed, ClientsMove, ClientsOnlyLeave;
      var observed := providers.ShowUser(candidate);
      StillTracks();
      MoveKeepsAccounts(old(providers.world), providers.world);
      found := if observed.None? then None else Some(observed.value.Some?);
    }

    method ObserveCandidateAsCurrent() returns (ok: bool)
      requires Tracks()
      modifies providers
      ensures Tracks() && SameAccounts(old(providers.world), providers.world)
      ensures ok ==>
        (Current, token) in providers.seen && Since(|old(providers.log)|, providers.log, LabelSeen(Current, token))
    {
      hide Fits, Safe, Preserves, Unharmed, Since;
      if newVersionId.None? {
        return false;
      }
      ok := Await(Current, newVersionId.value);
    }

    method RollbackToPrevious() returns (ok: bool)
      requires Tracks() && (Current, token) in providers.seen && !retirementStarted
      modifies providers
      ensures Named() && Unharmed(providers.stake, providers.history, false)
      ensures ok ==> Holds()
      ensures ok ==> Since(|old(providers.log)|, providers.log, LabelSeen(Current, oldVersion.value))
      ensures ok ==> Converged(oldPrincipal) in providers.log
    {
      hide Fits, Safe, Preserves, Unharmed, QuietDrops, Restored, ClientsMove, ClientsOnlyLeave, Since;
      UnharmedIsQuiet(providers.stake, providers.history, false);
      if oldVersion.None? || newVersionId.None? {
        return false;
      }
      ghost var mid;
      ok, mid := providers.MoveCurrent(oldVersion.value, newVersionId.value);
      RolledBack(mid);
      if !ok {
        return;
      }
      ghost var l1 := providers.log;
      label L1:
      ok := WaitForSecretStageVersion(providers, Current, oldVersion.value);
      StillHolds@L1();
      if !ok {
        return;
      }
      ghost var l2 := providers.log;
      label L2:
      ok := providers.WaitForHostedPrincipal(oldPrincipal);
      StillHolds@L2();
      SinceGrows(|l1|, l2, |old(providers.log)|, providers.log, LabelSeen(Current, oldVersion.value));
      if ok {
        SinceGrows(|l2|, providers.log, |l2|, providers.log, Converged(oldPrincipal));
      }
    }

    twostate lemma RolledBack(mid: World)
      requires old(Tracks()) && (Current, token) in old(providers.seen) && !retirementStarted && unchanged(this)
      requires providers.Valid() && providers.Extends() && ClientsMove(old(providers.world), mid)
      requires oldVersion.Some? && newVersionId.Some?
      requires providers.world == mid
        || WithCurrentMoved(mid, oldVersion.value, newVersionId.value) == Some(providers.world)
      ensures Named() && Unharmed(providers.stake, providers.history, false)
      ensures WithCurrentMoved(mid, oldVersion.value, newVersionId.value) == Some(providers.world) ==> Holds()
    {
      hide Safe, Preserves, Unharmed, QuietDrops, Restored;
      RestoredByRollback(providers.stake, old(providers.world), mid, providers.world, old(providers.seen), Book());
      UnharmedExtends(providers.stake, old(providers.history), providers.history, false);
      UnharmedIsQuiet(providers.stake, providers.history, false);
    }

    /** cleanupPreparedPrincipal: settle the Put, take both labels off the candidate's version, then
        disable, drain and drop the candidate. With a candidate named like the served principal all
        guarantees are off. */
    method CleanupPreparedPrincipal() returns (ok: bool)
      requires Named() && (Disjoint(providers.stake) ==> Holds())
      requires newVersionId.Some? ==> Disjoint(providers.stake)
      requires newVersionId.None? ==> token !in providers.world.versions
      modifies providers
      ensures Named() && (Disjoint(providers.stake) ==> Holds())
      ensures old(providers.log) <= providers.log
      ensures newVersionId.None? ==> SameStore(old(providers.world), providers.world)
      ensures ok ==> Cleaned(providers.stake, providers.world)
      ensures ok && newVersionId.Some? && !cutoverAttempted ==>
        Since(|old(providers.log)|, providers.log, LabelSeen(Pending, token))
      ensures providers.faultless && newVersionId.None? && candidate in old(providers.world).users ==> ok
    {
      hide Disjoint, Restored, Unharmed, Preserves, Since;
      Unlabelled();
      ghost var l1 := providers.log;
      if newVersionId.Some? {
        if !cutoverAttempted {
          ok := SettlePut();
          if !ok {
            return;
          }
          l1 := providers.log;
        }
        ok := ClearLabel(Previous);
        if !ok {
          return;
        }
        ok := ClearLabel(Pending);
        if !ok {
          return;
        }
      }
      ghost var refused;
      ok, refused := DropCandidate();
      if newVersionId.Some? && !cutoverAttempted {
        SinceGrows(|old(providers.log)|, l1, |old(providers.log)|, providers.log, LabelSeen(Pending, token));
      }
    }

    /** A version that is not stored has no label. */
    lemma Unlabelled()
      requires providers.Valid()
      ensures token !in providers.world.versions ==>
        !On(providers.world, Pending, token) && !On(providers.world, Previous, token)
    {
      if On(providers.world, Pending, token) {
        LabelledIsStored(providers.world, providers.seen, Pending);
      }
      if On(providers.world, Previous, token) {
        LabelledIsStored(providers.world, providers.seen, Previous);
      }
    }

    /** The exact Put again, and AWSPENDING seen on the version. */
    method SettlePut() returns (ok: bool)
      requires Holds()
      modifies providers
      ensures Holds() && old(providers.log) <= providers.log
      ensures ok ==> Since(|old(providers.log)|, providers.log, LabelSeen(Pending, token))
    {
      hide Restored, Safe, Preserves, Unharmed, ClientsMove, ClientsOnlyLeave, Since;
      ghost var mid;
      ok, mid := providers.PutSecretValue(token, candidate);
      RestoredPut(providers.stake, old(providers.world), mid, providers.world);
      KeepsHolding();
      if !ok {
        return;
      }
      ghost var l1 := providers.log;
      label L1:
      ok := WaitForSecretStageVersion(providers, Pending, token);
      StillHolds@L1();
      if ok {
        SinceGrows(|l1|, providers.log, |old(providers.log)|, providers.log, LabelSeen(Pending, token));
      }
    }

    /** Takes a label off the candidate's version, ignoring an error, and waits until it is off. */
    method ClearLabel(stage: Stage) returns (ok: bool)
      requires Holds() && stage != Current
      modifies providers
      ensures Holds() && old(providers.log) <= providers.log
      ensures providers.world.labels == old(providers.world).labels
        || providers.world.labels == old(providers.world).labels - {stage}
      ensures ok ==> !On(providers.world, stage, token)
    {
      hide Restored, Safe, Preserves, Unharmed, Disjoint;
      ghost var removed, mid;
      removed, mid := providers.RemoveLabel(stage, token);
      RestoredUnlabel(providers.stake, old(providers.world), mid, providers.world, stage);
      KeepsHolding();
      label L1:
      ok := WaitForVersionStageAbsent(providers, stage, token);
      StillHolds@L1();
    }

    method DropCandidate() returns (ok: bool, ghost refused: bool)
      requires Named() && (Disjoint(providers.stake) ==> Holds())
      modifies providers
      ensures Named() && (Disjoint(providers.stake) ==> Holds())
      ensures SameStore(old(providers.world), providers.world) && old(providers.log) <= providers.log
      ensures ok ==> candidate !in providers.world.users
      ensures providers.faultless && candidate in old(providers.world).users ==> ok
      ensures !ok && !refused ==>
        candidate in providers.world.users || providers.now >= old(providers.now) + 30_000 + 11 * 5_000
    {
      hide Restored, Safe, Preserves, Unharmed, QuietDrops;
      ok, refused := DisableAndDrainPrincipal(providers, candidate, 30);
      StaysQuiet(providers.stake, old(providers.history), providers.history);
      if Disjoint(providers.stake) {
        RestoredDrop(providers.stake, old(providers.world), providers.world);
        KeepsHolding();
      }
      if !ok {
        return;
      }
      ghost var w1, h1 := providers.world, providers.history;
      label L1:
      ok, refused := DropRuntimePrincipal(providers, candidate);
      StaysQuiet(providers.stake, h1, providers.history);
      DropIsSameButUsers(w1, providers.world, candidate);
      if Disjoint(providers.stake) {
        RestoredDrop(providers.stake, w1, providers.world);
        KeepsHolding@L1();
      }
    }

    /** The end of recovery: clean up what was prepared, if anything was. */
    method Conclude(preparedPrincipal: bool, rollback: Review, ghost before: Answers, ghost soFar: seq<Action>)
      returns (outcome: Outcome, ghost answers: Answers, ghost taken: seq<Action>)
      requires Named() && (Disjoint(providers.stake) ==> Holds())
      requires newVersionId.Some? ==> Disjoint(providers.stake)
      requires newVersionId.None? ==> token !in providers.world.versions
      modifies providers
      ensures Named() && (Disjoint(providers.stake) ==> Holds())
      ensures old(providers.log) <= providers.log
      ensures newVersionId.None? ==> SameStore(old(providers.world), providers.world)
      ensures answers == before.(cleaned := answers.cleaned)
      ensures Report(outcome, taken) == AfterRollback(answers, preparedPrincipal, rollback, soFar)
      ensures preparedPrincipal && !outcome.operatorReviewRequired ==> Cleaned(providers.stake, providers.world)
      ensures !preparedPrincipal ==> providers.world == old(providers.world) && !outcome.operatorReviewRequired
      ensures providers.faultless && newVersionId.None? && candidate in old(providers.world).users
        ==> !outcome.operatorReviewRequired
    {
      hide Disjoint, Named, Holds, Cleaned;
      answers, taken := before, soFar;
      if preparedPrincipal {
        var ok := CleanupPreparedPrincipal();
        answers, taken := answers.(cleaned := ok), taken + [Action.CleanupPreparedPrincipal];
        if !ok {
          outcome := Outcome(OperatorReview, CleanupRequiresReview, true, OperatorReviewRequired, rollback);
          return;
        }
        outcome := Outcome(Complete, Recovered, false,
                           if rollback == Complete then RolledBackAndCleaned else CleanedPreparedPrincipal, rollback);
        return;
      }
      outcome := Outcome(NotRequired, Recovered, false, NoMutationToRecover, rollback);
    }

    /** recoverFailedRotation with the four actions: whatever the providers do, it decides as Recover
        does on the answers it got, harms nothing, and asks for no review only when everything of the
        candidate is gone and the original version is current. */
    method RecoverFailedRotation() returns (outcome: Outcome, ghost answers: Answers, ghost taken: seq<Action>)
      requires Tracks()
      modifies providers
      ensures Report(outcome, taken) == Recover(Flags(), answers)
      ensures providers.Valid() && QuietDrops(providers.history)
      ensures Disjoint(providers.stake) ==> Unharmed(providers.stake, providers.history, retirementStarted)
      ensures Disjoint(providers.stake) && !outcome.operatorReviewRequired ==>
        Restored(providers.stake, providers.world)
      ensures candidateNamed && !outcome.operatorReviewRequired ==> Cleaned(providers.stake, providers.world)
      ensures newVersionId.None? ==> SameStore(old(providers.world), providers.world)
      ensures outcome.rollback == Complete ==> Converged(oldPrincipal) in providers.log
      ensures retirementStarted ==>
        SameAccounts(old(providers.world), providers.world) && old(providers.log) <= providers.log
      ensures providers.faultless && candidateNamed && !newPrincipalCreated ==>
        (candidate in old(providers.world).users ==> !outcome.operatorReviewRequired)
    {
      hide Fits, Safe, Preserves, Unharmed, QuietDrops, Restored, Disjoint, Cleaned;
      taken := [];
      answers := Answers(false, false, false, false, false);
      var preparedPrincipal := newPrincipalCreated;
      if candidateNamed && !preparedPrincipal {
        var found := ReconcilePreparedPrincipal();
        taken := [Action.ReconcilePreparedPrincipal];
        answers := answers.(reconcileThrows := found.None?, found := found == Some(true));
        UnharmedIsQuiet(providers.stake, providers.history, retirementStarted);
        if found.None? {
          outcome := Outcome(OperatorReview, CandidateStateAmbiguous, true, OperatorReviewRequired, NotRequired);
          return;
        }
        preparedPrincipal := found.value;
      }
      UnharmedIsQuiet(providers.stake, providers.history, retirementStarted);
      if retirementStarted {
        outcome := Outcome(OperatorReview, RetirementRequiresReview, true, OperatorReviewRequired,
                           if cutoverProved then OperatorReview else NotRequired);
        return;
      }
      outcome, answers, taken := ReverseAndConclude(preparedPrincipal, answers, taken);
    }

    /** Undoing an attempted cutover: observe it unless it was proved, then roll back. */
    method Reverse(ghost before: Answers, ghost soFar: seq<Action>)
      returns (error: Option<ErrorCode>, ghost answers: Answers, ghost taken: seq<Action>)
      requires Tracks() && !retirementStarted && cutoverAttempted
      modifies providers
      ensures Named() && Unharmed(providers.stake, providers.history, false)
      ensures error.None? ==> Holds() && Converged(oldPrincipal) in providers.log
      ensures answers == before.(observed := answers.observed, rolledBack := answers.rolledBack)
      ensures taken == soFar
        + (if cutoverProved then [] else [Action.ObserveCandidateAsCurrent])
        + (if cutoverProved || answers.observed then [Action.RollbackToPrevious] else [])
      ensures error ==
        if !cutoverProved && !answers.observed then Some(CutoverStateAmbiguous)
        else if !answers.rolledBack then Some(RollbackRequiresReview)
        else None
    {
      hide Fits, Safe, Preserves, Unharmed, QuietDrops, Restored, Disjoint, Since;
      answers, taken := before, soFar;
      UnharmedIsQuiet(providers.stake, providers.history, false);
      var proved := cutoverProved;
      FitsIsSafe(providers.stake, providers.world, providers.seen, Book());
      if !proved {
        var ok := ObserveCandidateAsCurrent();
        answers, taken := answers.(observed := ok), taken + [Action.ObserveCandidateAsCurrent];
        UnharmedIsQuiet(providers.stake, providers.history, false);
        if !ok {
          return Some(CutoverStateAmbiguous), answers, taken;
        }
        proved := true;
      }
      var ok := RollbackToPrevious();
      answers, taken := answers.(rolledBack := ok), taken + [Action.RollbackToPrevious];
      error := if ok then None else Some(RollbackRequiresReview);
    }

    /** recoverFailedRotation from the retirement check on. */
    method ReverseAndConclude(preparedPrincipal: bool, ghost before: Answers, ghost soFar: seq<Action>)
      returns (outcome: Outcome, ghost answers: Answers, ghost taken: seq<Action>)
      requires Tracks() && !retirementStarted
      requires newPrincipalCreated ==> preparedPrincipal
      requires candidateNamed && !preparedPrincipal ==> candidate !in providers.world.users
      modifies providers
      ensures Report(outcome, taken) == AfterReconcile(Flags(), answers, preparedPrincipal, soFar)
      ensures answers.reconcileThrows == before.reconcileThrows && answers.found == before.found
      ensures providers.Valid() && QuietDrops(providers.history)
      ensures Disjoint(providers.stake) ==> Unharmed(providers.stake, providers.history, false)
      ensures Disjoint(providers.stake) && !outcome.operatorReviewRequired ==>
        Restored(providers.stake, providers.world)
      ensures candidateNamed && !outcome.operatorReviewRequired ==> Cleaned(providers.stake, providers.world)
      ensures newVersionId.None? ==> SameStore(old(providers.world), providers.world)
      ensures outcome.rollback == Complete ==> Converged(oldPrincipal) in providers.log
      ensures providers.faultless && !newPrincipalCreated && candidate in old(providers.world).users ==>
        !outcome.operatorReviewRequired
    {
      hide Fits, Safe, Preserves, Unharmed, QuietDrops, Restored, Disjoint;
      answers, taken := before, soFar;
      UnharmedIsQuiet(providers.stake, providers.history, false);
      var rollback := NotRequired;
      if cutoverAttempted {
        var error;
        error, answers, taken := Reverse(before, soFar);
        if error.Some? {
          outcome := Outcome(if preparedPrincipal then OperatorReview else NotRequired,
                             error.value, true, OperatorReviewRequired, OperatorReview);
          return;
        }
        rollback := Complete;
      } else {
        RestoredUntouched(providers.stake, providers.world, providers.seen, Book());
      }
      Unlabelled();
      ghost var l1 := providers.log;
      outcome, answers, taken := Conclude(preparedPrincipal, rollback, answers, taken);
      InLater(l1, providers.log);
    }

    /** rotateRuntimeCredential: the forward path and, if it throws, the recovery. */
    method RotateRuntimeCredential() returns (failure: Option<Outcome>)
      requires Book() == BLANK && providers.Valid() && providers.history == [providers.world]
      requires token == providers.stake.token && candidate == providers.stake.candidate
      requires Starts(providers.stake, providers.world)
      modifies this, providers
      ensures providers.Valid()
      // harmless, whatever fails: only drained users go, and AWSCURRENT is served in every state
      ensures QuietDrops(providers.history)
      ensures candidate != providers.stake.principal ==> forall w :: w in providers.history ==> Served(w)
      // no retirement before both labels and the hosted app were seen to have moved
      ensures retirementStarted ==>
        && LabelSeen(Current, token) in providers.log && LabelSeen(Previous, providers.stake.version) in providers.log
        && Converged(candidate) in providers.log
      // a complete rotation
      ensures failure.None? ==>
        && On(providers.world, Current, token) && CanLogIn(providers.world, candidate)
        && On(providers.world, Previous, providers.stake.version)
        && providers.stake.principal !in providers.world.users && !On(providers.world, Pending, token)
        && LoginProved(oldPrincipal) in providers.log && RolesChanged(candidate, 10) in providers.log
        && PendingProved(candidate) in providers.log && Concluded(providers.stake, 0, providers.log)
      // a recovered failure
      ensures failure.Some? && !failure.value.operatorReviewRequired && candidate != providers.stake.principal ==>
        && !retirementStarted
        && On(providers.world, Current, providers.stake.version)
        && PrincipalKept(providers.stake, providers.history)
        && (candidateNamed ==> Cleaned(providers.stake, providers.world))
      // without faults, the run completes exactly when its candidate's name is new
      ensures providers.faultless ==> (failure.None? <==> candidate !in old(providers.world).users)
      ensures providers.faultless && candidate in old(providers.world).users ==>
        candidate !in providers.world.users
      // and leaves AWSCURRENT served exactly when that name is not the served principal's own
      ensures providers.faultless ==> (Served(providers.world) <==> candidate != providers.stake.principal)
    {
      hide Fits, Safe, Served, QuietDrops, Preserves, SafeHistory, PrincipalKept, Recover;
      StartFits(providers.stake, providers.world, providers.seen);
      var ok := Forward();
      FitsIsSafe(providers.stake, providers.world, providers.seen, Book());
      if ok {
        UnharmedIsServed(providers.stake, providers.history, retirementStarted);
        assert Last(providers.history) in providers.history;
        return None;
      }
      var outcome;
      ghost var answers, taken;
      outcome, answers, taken := RecoverFailedRotation();
      ReportIsAccurate(Flags(), answers);
      assert Last(providers.history) in providers.history;
      if candidate != providers.stake.principal {
        UnharmedIsServed(providers.stake, providers.history, retirementStarted);
      }
      GoneIsUnserved(providers.stake, old(providers.world), providers.world);
      failure := Some(outcome);
    }
  }
}
