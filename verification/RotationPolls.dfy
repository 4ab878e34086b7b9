/** The polling helpers of `scripts/rotate-runtime-secret.ts`: waiting for labels, disabling and
    draining a principal, and dropping it, against the providers of RotationWorld. A method that
    throws in the source returns `ok == false`. */
module RotationPolls {
  import opened Options
  import opened RotationWorld

  // ---- polling helpers ----

  /** waitForSecretStageVersion */
  method WaitForSecretStageVersion(p: Providers, stage: Stage, expected: VersionId) returns (ok: bool)
    requires p.Valid()
    modifies p
    ensures p.Valid() && p.Extends() && p.OnlyClients()
    ensures ok ==> (stage, expected) in p.seen && Since(|old(p.log)|, p.log, LabelSeen(stage, expected))
    ensures p.faultless && On(p.world, stage, expected) ==> ok
    // it does not give up before a minute has passed
    ensures !ok ==> p.now >= old(p.now) + 60_000
  {
    hide Preserves, ClientsMove, ClientsOnlyLeave;
    ghost var h0 := p.history;
    PreservesNothing(p.stake, h0);
    ClientsMoveNot(p.world);
    var deadline := p.now + 60 * 1_000;
    var polling := true;
    ghost var missed := false;
    while polling
      invariant p.Valid() && p.Extends() && p.OnlyClients()
      invariant polling || missed
      invariant missed && p.faultless ==> !On(p.world, stage, expected)
      invariant polling || p.now >= deadline
      decreases polling, deadline - p.now
    {
      ghost var h1, l1 := p.history, p.log;
      var observed := p.ReadSecretStage(stage);
      ClientsThen(p.stake, h0, h1, p.history);
      if observed == Some(expected) {
        SinceGrows(|l1|, p.log, |old(p.log)|, p.log, LabelSeen(stage, expected));
        return true;
      }
      missed := true;
      if p.now < deadline {
        h1 := p.history;
        p.Sleep(2_000);
        ClientsThen(p.stake, h0, h1, p.history);
        MoveKeepsAccounts(Last(h1), p.world);
      }
      polling := p.now < deadline;
    }
    ok := false;
  }

  /** The page walk of waitForVersionStageAbsent: the label set of the one entry found, if any; an
      error when an entry repeats or the pages exceed the bound. */
  method WalkInventory(pages: seq<seq<set<Stage>>>) returns (r: Option<Option<set<Stage>>>)
    ensures r.Some? <==>
      && |pages| <= 10 && (forall i :: 0 <= i < |pages| ==> |pages[i]| <= 1)
      && forall i, j :: 0 <= i < j < |pages| ==> pages[i] == [] || pages[j] == []
    ensures r.Some? && r.value.Some? ==> exists i :: 0 <= i < |pages| && pages[i] == [r.value.value]
    ensures r.Some? && r.value.None? ==> forall i :: 0 <= i < |pages| ==> pages[i] == []
    ensures |pages| == 1 && |pages[0]| <= 1 ==>
      r == Some(if pages[0] == [] then None else Some(pages[0][0]))
  {
    var observed: Option<set<Stage>> := None;
    for n := 0 to |pages|
      invariant n <= 10 && forall i :: 0 <= i < n ==> |pages[i]| <= 1
      invariant forall i, j :: 0 <= i < j < n ==> pages[i] == [] || pages[j] == []
      invariant observed.Some? ==> exists i :: 0 <= i < n && pages[i] == [observed.value]
      invariant observed.None? ==> forall i :: 0 <= i < n ==> pages[i] == []
      invariant |pages| == 1 && n == 1 ==> observed == if pages[0] == [] then None else Some(pages[0][0])
    {
      var matching := pages[n];
      if |matching| > 1 || (observed.Some? && |matching| > 0) {
        return None;
      }
      if |matching| == 1 {
        observed := Some(matching[0]);
        assert pages[n] == [matching[0]];
      }
      if n + 1 > 10 {
        return None;
      }
    }
    r := Some(observed);
  }

  /** waitForVersionStageAbsent */
  method WaitForVersionStageAbsent(p: Providers, stage: Stage, v: VersionId) returns (ok: bool)
    requires p.Valid()
    modifies p
    ensures p.Valid() && p.Extends() && p.OnlyClients()
    ensures ok ==> !On(p.world, stage, v)
    ensures p.faultless && !On(p.world, stage, v) ==> ok
    ensures !ok ==> p.now >= old(p.now) + 60_000
  {
    hide Preserves, ClientsMove, ClientsOnlyLeave;
    ghost var h0 := p.history;
    PreservesNothing(p.stake, h0);
    ClientsMoveNot(p.world);
    var deadline := p.now + 60 * 1_000;
    var polling := true;
    ghost var missed := false;
    while polling
      invariant p.Valid() && p.Extends() && p.OnlyClients()
      invariant polling || missed
      invariant missed && p.faultless ==> On(p.world, stage, v)
      invariant polling || p.now >= deadline
      decreases polling, deadline - p.now
    {
      ghost var h1 := p.history;
      var pages := p.ListVersions(v);
      ClientsThen(p.stake, h0, h1, p.history);
      if pages.Some? {
        var walked := WalkInventory(pages.value);
        if walked.Some? && (walked.value.None? || stage !in walked.value.value) {
          AbsenceIsReal(pages.value, walked.value, p.world, stage, v, p.seen);
          return true;
        }
      }
      missed := true;
      if p.now < deadline {
        h1 := p.history;
        p.Sleep(2_000);
        ClientsThen(p.stake, h0, h1, p.history);
        MoveKeepsAccounts(Last(h1), p.world);
      }
      polling := p.now < deadline;
    }
    ok := false;
  }

  lemma AbsenceIsReal(pages: seq<seq<set<Stage>>>, walked: Option<set<Stage>>, w: World, stage: Stage,
                      v: VersionId, seen: set<(Stage, VersionId)>)
    requires Inventories(pages, w, v)
    requires walked.Some? ==> exists i :: 0 <= i < |pages| && pages[i] == [walked.value]
    requires walked.None? ==> forall i :: 0 <= i < |pages| ==> pages[i] == []
    requires walked.None? || stage !in walked.value
    requires forall s :: s in w.labels ==> (s, w.labels[s]) in seen
    requires forall s, u :: (s, u) in seen ==> u in w.versions
    ensures !On(w, stage, v)
  {
    if walked.Some? {
      var i :| 0 <= i < |pages| && pages[i] == [walked.value];
      assert pages[i][0] == StagesOf(w, v);
    }
    if On(w, stage, v) {
      LabelledIsStored(w, seen, stage);
    }
  }

  lemma LabelledIsStored(w: World, seen: set<(Stage, VersionId)>, stage: Stage)
    requires stage in w.labels
    requires forall s :: s in w.labels ==> (s, w.labels[s]) in seen
    requires forall s, u :: (s, u) in seen ==> u in w.versions
    ensures w.labels[stage] in w.versions
  {
    assert (stage, w.labels[stage]) in seen;
  }

  // ---- draining and dropping ----

  /** Everything as before, except that `principal` may have lost its login. */
  predicate SameButLogin(a: World, b: World, principal: Principal) {
    && b.versions == a.versions && b.labels == a.labels && b.users.Keys == a.users.Keys
    && (forall q :: q in a.users && q != principal ==> b.users[q].login == a.users[q].login)
    && (principal in a.users && !a.users[principal].login ==> !b.users[principal].login)
  }

  /** Cancelling one session is something clients could have done. */
  lemma CancelIsClientsMove(a: World, mid: World, b: World, id: SessionId)
    requires ClientsMove(a, mid) && (b == mid || b == WithoutSession(mid, id))
    ensures ClientsMove(a, b) && (ClientsOnlyLeave(a, mid) ==> ClientsOnlyLeave(a, b))
  {
  }

  /** disableAndDrainPrincipal */
  method DisableAndDrainPrincipal(p: Providers, principal: Principal, graceSeconds: nat)
    returns (ok: bool, ghost refused: bool)
    requires p.Valid()
    modifies p
    ensures p.Valid() && p.Extends() && p.seen == old(p.seen)
    ensures SameButLogin(old(p.world), p.world, principal)
    ensures ok ==> Drained(p.world, principal)
    ensures p.faultless && principal in old(p.world).users ==> ok
    // unless a call fails, it takes the whole grace period and twelve polls to give up
    ensures !ok && !refused ==> p.now >= old(p.now) + graceSeconds * 1_000 + 11 * 5_000
  {
    hide Preserves, ClientsMove, ClientsOnlyLeave;
    ghost var h0 := p.history;
    ghost var mid;
    ok, mid := p.AlterUserNoLogin(principal);
    refused := !ok;
    ghost var h1 := p.history;
    AlterIsSameButLogin(Last(h0), mid, p.world, principal);
    if !ok {
      return;
    }
    ok, refused := DrainDisabled(p, principal, graceSeconds);
    SameButLoginThen(Last(h0), Last(h1), p.world, principal);
    PreservesBefore(p.stake, h0, h1, p.history);
  }

  lemma AlterIsSameButLogin(a: World, mid: World, b: World, principal: Principal)
    requires ClientsMove(a, mid) && (b == mid || b == WithoutLogin(mid, principal))
    ensures SameButLogin(a, b, principal)
  {
  }

  lemma SameButLoginThen(a: World, b: World, c: World, principal: Principal)
    requires SameButLogin(a, b, principal) && ClientsMove(b, c)
    ensures SameButLogin(a, c, principal) && SameAccounts(b, c)
    ensures principal in b.users && !b.users[principal].login ==> principal in c.users && !c.users[principal].login
  {
  }

  function SessionsOf(w: World, principal: Principal): set<SessionId> {
    if principal in w.users then w.users[principal].sessions else {}
  }

  predicate LoginOff(w: World, principal: Principal) {
    principal in w.users && !w.users[principal].login
  }

  lemma LoginStaysOff(a: World, b: World, principal: Principal)
    requires ClientsMove(a, b)
    ensures LoginOff(a, principal) <==> LoginOff(b, principal)
    ensures ClientsOnlyLeave(a, b) || LoginOff(a, principal) ==> SessionsOf(b, principal) <= SessionsOf(a, principal)
  {
  }

  /** The grace period: poll every five seconds until no session is left or time is up. */
  method WaitOutGrace(p: Providers, principal: Principal, graceSeconds: nat) returns (r: Option<set<SessionId>>)
    requires p.Valid()
    modifies p
    ensures p.Valid() && p.Extends() && p.OnlyClients()
    ensures r.Some? ==> r.value == SessionsOf(p.world, principal)
    ensures p.faultless ==> r.Some?
    ensures r.Some? && r.value != {} ==> p.now >= old(p.now) + graceSeconds * 1_000
  {
    hide Preserves, ClientsMove, ClientsOnlyLeave;
    ghost var h0 := p.history;
    var deadline := p.now + graceSeconds * 1_000;
    r := p.ShowSessions(principal);
    while r.Some? && r.value != {} && p.now < deadline
      invariant p.Valid() && p.Extends() && p.OnlyClients() && (p.faultless ==> r.Some?)
      invariant r.Some? ==> r.value == SessionsOf(p.world, principal)
      decreases deadline - p.now
    {
      ghost var h1 := p.history;
      p.Sleep(5_000);
      ClientsThen(p.stake, h0, h1, p.history);
      h1 := p.history;
      r := p.ShowSessions(principal);
      ClientsThen(p.stake, h0, h1, p.history);
    }
  }

  /** CANCEL SESSION for every listed session; one failure ends it. */
  method CancelSessions(p: Providers, principal: Principal, ids: set<SessionId>) returns (ok: bool)
    requires p.Valid()
    modifies p
    ensures p.Valid() && p.Extends() && p.OnlyClients()
    ensures p.faultless ==> ok && SessionsOf(p.world, principal) <= SessionsOf(old(p.world), principal) - ids
  {
    hide Preserves, ClientsMove, ClientsOnlyLeave;
    ghost var h0 := p.history;
    PreservesNothing(p.stake, h0);
    ClientsMoveNot(p.world);
    var left := ids;
    ok := true;
    while left != {}
      invariant left <= ids
      invariant p.Valid() && p.Extends() && p.OnlyClients()
      invariant p.faultless ==>
        SessionsOf(p.world, principal) <= SessionsOf(Last(h0), principal) - (ids - left)
      decreases left
    {
      var id :| id in left;
      ghost var h1 := p.history;
      ghost var mid;
      ok, mid := p.CancelSession(id);
      CancelIsClientsMove(Last(h1), mid, p.world, id);
      ClientsThen(p.stake, h0, h1, p.history);
      if !ok {
        return;
      }
      if p.faultless {
        LoginStaysOff(Last(h1), mid, principal);
      }
      left := left - {id};
    }
  }

  /** Up to twelve polls for an empty session list. */
  method PollNoSessions(p: Providers, principal: Principal) returns (ok: bool, ghost refused: bool)
    requires p.Valid()
    modifies p
    ensures p.Valid() && p.Extends() && p.OnlyClients()
    ensures ok ==> SessionsOf(p.world, principal) == {}
    ensures p.faultless && SessionsOf(old(p.world), principal) == {} ==> ok
    ensures LoginOff(old(p.world), principal) && SessionsOf(old(p.world), principal) == {} ==> ok || refused
    ensures !ok && !refused ==> p.now >= old(p.now) + 11 * 5_000
  {
    hide Preserves, ClientsMove, ClientsOnlyLeave;
    ghost var h0 := p.history;
    PreservesNothing(p.stake, h0);
    ClientsMoveNot(p.world);
    refused := false;
    for attempt := 1 to 13
      invariant p.now >= old(p.now) + (if attempt <= 12 then attempt - 1 else 11) * 5_000
      invariant LoginOff(Last(h0), principal) && SessionsOf(Last(h0), principal) == {} ==> attempt == 1
      invariant p.Valid() && p.Extends() && p.OnlyClients()
      invariant p.faultless && SessionsOf(Last(h0), principal) == {} ==> attempt == 1
    {
      ghost var h1 := p.history;
      var sessions := p.ShowSessions(principal);
      ClientsThen(p.stake, h0, h1, p.history);
      LoginStaysOff(Last(h0), p.world, principal);
      if sessions.None? {
        return false, true;
      }
      if sessions.value == {} {
        return true, false;
      }
      if attempt < 12 {
        h1 := p.history;
        p.Sleep(5_000);
        ClientsThen(p.stake, h0, h1, p.history);
      }
    }
    ok := false;
  }

  /** disableAndDrainPrincipal after its ALTER: prove NOLOGIN, wait out the grace period, cancel
      what is left, and poll until no session remains. */
  method DrainDisabled(p: Providers, principal: Principal, graceSeconds: nat)
    returns (ok: bool, ghost refused: bool)
    requires p.Valid()
    modifies p
    ensures p.Valid() && p.Extends() && p.OnlyClients()
    ensures ok ==> Drained(p.world, principal)
    ensures p.faultless && LoginOff(old(p.world), principal) ==> ok
    ensures !ok && !refused ==> p.now >= old(p.now) + graceSeconds * 1_000 + 11 * 5_000
  {
    hide Preserves, ClientsMove, ClientsOnlyLeave;
    ghost var h0 := p.history;
    var user := p.ShowUser(principal);
    ghost var h1 := p.history;
    LoginStaysOff(Last(h0), p.world, principal);
    if user != Some(Some(false)) {
      return false, true;
    }
    var sessions := WaitOutGrace(p, principal, graceSeconds);
    ghost var h2 := p.history;
    LoginStaysOff(Last(h1), p.world, principal);
    ClientsThen(p.stake, h0, h1, h2);
    if sessions.None? {
      return false, true;
    }
    ok := CancelSessions(p, principal, sessions.value);
    ghost var h3 := p.history;
    LoginStaysOff(Last(h2), p.world, principal);
    ClientsThen(p.stake, h0, h2, h3);
    if !ok {
      return false, true;
    }
    ok, refused := PollNoSessions(p, principal);
    LoginStaysOff(Last(h3), p.world, principal);
    ClientsThen(p.stake, h0, h3, p.history);
  }

  /** dropRuntimePrincipal. Its revocations change nothing modelled here; a failed DROP USER is
      reconciled against the catalog. */
  method DropRuntimePrincipal(p: Providers, principal: Principal) returns (ok: bool, ghost refused: bool)
    requires p.Valid()
    modifies p
    ensures p.Valid() && p.seen == old(p.seen) && old(p.log) <= p.log
    ensures (principal in old(p.world).users ==> Drained(old(p.world), principal)) ==> p.Extends()
    ensures SameAccounts(old(p.world), p.world) || SameAccounts(WithoutUser(old(p.world), principal), p.world)
    ensures ok ==>
      principal !in p.world.users && Since(|old(p.log)|, p.log, RolesChanged(principal, 6))
    ensures p.faultless && principal in old(p.world).users ==> ok
    // a lost response to the drop is no failure: unless a revocation or a catalog query fails, only a user
    // that is still there is
    ensures !ok && !refused ==> principal in p.world.users
  {
    hide Preserves, ClientsMove, ClientsOnlyLeave, SameAccounts, Since;
    ghost var h0 := p.history;
    ok := ChangeRoles(p, principal, 6);
    refused := !ok;
    MoveKeepsAccounts(Last(h0), p.world);
    if !ok {
      return;
    }
    ghost var h1, l1 := p.history, p.log;
    ghost var mid;
    var dropped;
    dropped, mid := p.DropUser(principal);
    ghost var h2 := p.history;
    DropAccounts(Last(h0), Last(h1), mid, p.world, principal);
    if principal in Last(h0).users ==> Drained(Last(h0), principal) {
      PreservesThen(p.stake, h0, h1, h2);
    }
    if !dropped {
      var reconciled := p.ShowUser(principal);
      DropThenMove(Last(h0), Last(h2), p.world, principal);
      if principal in Last(h0).users ==> Drained(Last(h0), principal) {
        PreservesBefore(p.stake, h0, h2, p.history);
      }
      if reconciled != Some(None) {
        return false, reconciled.None?;
      }
    }
    ghost var h3 := p.history;
    var remaining := p.ShowUser(principal);
    DropThenMove(Last(h0), Last(h3), p.world, principal);
    if principal in Last(h0).users ==> Drained(Last(h0), principal) {
      PreservesBefore(p.stake, h0, h3, p.history);
    }
    SinceGrows(|old(p.log)|, l1, |old(p.log)|, p.log, RolesChanged(principal, 6));
    ok, refused := remaining == Some(None), remaining.None?;
  }

  lemma MoveKeepsAccounts(a: World, b: World)
    requires ClientsMove(a, b)
    ensures SameAccounts(a, b)
    ensures forall q :: Drained(a, q) ==> Drained(b, q)
    ensures a.users.Keys == b.users.Keys
  {
  }

  lemma DropAccounts(a: World, b: World, mid: World, c: World, principal: Principal)
    requires ClientsMove(a, b) && ClientsMove(b, mid)
    requires c == mid || c == WithoutUser(mid, principal)
    ensures SameAccounts(a, c) || SameAccounts(WithoutUser(a, principal), c)
    ensures principal in mid.users <==> principal in a.users
    ensures c == WithoutUser(mid, principal) ==> principal !in c.users
  {
  }

  lemma DropThenMove(a: World, b: World, c: World, principal: Principal)
    requires SameAccounts(a, b) || SameAccounts(WithoutUser(a, principal), b)
    requires ClientsMove(b, c)
    ensures SameAccounts(a, c) || SameAccounts(WithoutUser(a, principal), c)
    ensures SameAccounts(b, c) && b.users.Keys == c.users.Keys
  {
  }

  /** A run of role statements that may stop at any of them. */
  method ChangeRoles(p: Providers, principal: Principal, statements: nat) returns (ok: bool)
    requires p.Valid()
    modifies p
    ensures p.Valid() && p.Extends() && p.OnlyClients()
    ensures ok ==> Since(|old(p.log)|, p.log, RolesChanged(principal, statements))
    ensures p.faultless ==> ok
  {
    hide Preserves, ClientsMove, ClientsOnlyLeave;
    ghost var h0 := p.history;
    PreservesNothing(p.stake, h0);
    ClientsMoveNot(p.world);
    ghost var accepted := 0;
    for n := 0 to statements
      invariant p.Valid() && p.Extends() && p.OnlyClients() && accepted == n
    {
      ghost var h1 := p.history;
      ok := p.Attempt();
      ClientsThen(p.stake, h0, h1, p.history);
      if !ok {
        return;
      }
      accepted := accepted + 1;
    }
    p.Note(RolesChanged(principal, accepted));
    ok := true;
  }
}
