/** withSerializableRetry of `src/db/client.ts`: a serializable transaction run again, on a fresh
    client, after SQLSTATE 40001 only. The database is serializable: a transaction that commits
    behaves as if nobody else had written since it began, and a 40001 means it did not commit. Any
    other error of COMMIT leaves open whether it did. */
module Transactions {
  import opened Options

  /** What JavaScript code may throw: something without a `code`, or with one. */
  datatype Code = Text(value: string) | NotText
  datatype Thrown = Primitive | Object(code: Option<Code>)

  datatype Result<+T> = Ok(value: T) | Err(error: Thrown)

  /** isRetryableSerializationError */
  predicate Retryable(e: Thrown) {
    e.Object? && e.code == Some(Text("40001"))
  }

  datatype Author = Mine | Other
  datatype Change<S> = Change(author: Author, before: S, after: S)

  /** The changes lead from one state to the other, each starting where the one before ended. */
  ghost predicate Chain<S>(a: S, changes: seq<Change<S>>, b: S) {
    if changes == [] then a == b
    else Chain(a, changes[..|changes| - 1], changes[|changes| - 1].before) && changes[|changes| - 1].after == b
  }

  ghost predicate AllOthers<S>(changes: seq<Change<S>>) {
    forall c :: c in changes ==> c.author == Other
  }

  lemma ChainGrows<S>(a: S, changes: seq<Change<S>>, b: S, author: Author, c: S)
    requires Chain(a, changes, b)
    ensures Chain(a, changes + [Change(author, b, c)], c)
  {
    assert (changes + [Change(author, b, c)])[..|changes|] == changes;
  }

  /** What the callback makes of the state its attempt began with: the state to commit and a result,
      or an exception. */
  datatype Work<S, T> = Done(next: S, result: T) | Threw(error: Thrown)

  /** A database behind a pool: its committed state, the changes that led there, the number of clients
      checked out, and how often BEGIN succeeded and ROLLBACK was sent. When `quiet`, nobody else
      writes. */
  class Database<S(0,!new)> {
    var state: S
    var checkedOut: int
    const quiet: bool
    ghost const origin: S
    ghost var history: seq<Change<S>>
    ghost var begun: nat
    ghost var rolledBack: nat

    ghost predicate Valid()
      reads this
    {
      Chain(origin, history, state)
    }

    constructor (state: S, quiet: bool)
      ensures Valid() && this.state == state && this.quiet == quiet && checkedOut == 0
      ensures history == []
    {
      this.state, this.quiet, this.origin := state, quiet, state;
      this.checkedOut, this.history, this.begun, this.rolledBack := 0, [], 0, 0;
    }

    ghost function Since(n: nat): seq<Change<S>>
      requires n <= |history|
      reads this
    {
      history[n..]
    }

    /** Anything others commit between two of this caller's transactions. */
    method OthersWrite()
      requires Valid()
      modifies `state, `history
      ensures Valid() && old(history) <= history && AllOthers(Since(|old(history)|))
      ensures quiet ==> state == old(state) && history == old(history)
    {
      var next: S := *;
      var busy: bool := *;
      if !quiet && busy {
        ChainGrows(origin, history, state, Other, next);
        history := history + [Change(Other, state, next)];
        state := next;
      }
    }

    /** getPoolAsync and connect: an error, or a client. */
    method Connect() returns (r: Option<Thrown>)
      requires Valid()
      modifies `state, `history, `checkedOut
      ensures Valid() && old(history) <= history && AllOthers(Since(|old(history)|))
      ensures quiet ==> state == old(state) && history == old(history)
      ensures checkedOut == old(checkedOut) + if r.None? then 1 else 0
    {
      OthersWrite();
      r := Statement();
      if r.None? {
        checkedOut := checkedOut + 1;
      }
    }

    method Release()
      modifies `checkedOut
      ensures checkedOut == old(checkedOut) - 1
    {
      checkedOut := checkedOut - 1;
    }

    /** Statements other than COMMIT change nothing committed. */
    method Statement() returns (r: Option<Thrown>)
    {
      r := *;
    }

    method Begin() returns (r: Option<Thrown>)
      modifies `begun
      ensures begun == old(begun) + if r.None? then 1 else 0
    {
      r := Statement();
      if r.None? {
        begun := begun + 1;
      }
    }

    method Rollback() returns (r: Option<Thrown>)
      modifies `rolledBack
      ensures rolledBack == old(rolledBack) + 1
    {
      r := Statement();
      rolledBack := rolledBack + 1;
    }

    /** COMMIT. A retryable error means it had no effect. */
    method Commit(next: S) returns (r: Option<Thrown>)
      requires Valid()
      modifies `state, `history
      ensures Valid()
      ensures
        || (history == old(history) && state == old(state) && r.Some?)
        || (history == old(history) + [Change(Mine, old(state), next)] && state == next
            && (r.Some? ==> !Retryable(r.value)))
    {
      r := Statement();
      var effective: bool := *;
      if r.None? || (effective && !Retryable(r.value)) {
        ChainGrows(origin, history, state, Mine, next);
        history := history + [Change(Mine, state, next)];
        state := next;
      }
    }
  }

  // ---- the attempt limit is a JavaScript number ----

  datatype Number = NaN | Real(value: real) | PlusInfinity | MinusInfinity

  function Min(a: Number, b: real): Number {
    match a
    case NaN => NaN
    case Real(v) => Real(if v < b then v else b)
    case PlusInfinity => Real(b)
    case MinusInfinity => MinusInfinity
  }

  function Max(a: real, b: Number): Number {
    match b
    case NaN => NaN
    case Real(v) => Real(if v > a then v else a)
    case PlusInfinity => PlusInfinity
    case MinusInfinity => Real(a)
  }

  function ClampedAttempts(maxAttempts: Option<Number>): (r: Number)
    ensures r.NaN? <==> maxAttempts == Some(NaN)
    ensures r.NaN? || (r.Real? && 1.0 <= r.value <= 10.0)
  {
    Max(1.0, Min(if maxAttempts.Some? then maxAttempts.value else Real(4.0), 10.0))
  }

  /** How many attempts the loop condition allows. */
  function Rounds(limit: Number): nat
    requires limit.NaN? || (limit.Real? && 1.0 <= limit.value)
  {
    if limit.NaN? then 0 else limit.value.Floor
  }

  predicate IsWhole(limit: Number) {
    limit.Real? && limit.value.Floor as real == limit.value
  }

  /** A caller can tell from what it passes: a whole number, an infinity, nothing, or anything that
      the clamp moves to 1 or 10 is safe; another fraction and NaN are not. */
  lemma WholeLimits(maxAttempts: Option<Number>)
    ensures IsWhole(ClampedAttempts(maxAttempts)) <==>
      || maxAttempts.None? || maxAttempts.value.PlusInfinity? || maxAttempts.value.MinusInfinity?
      || (maxAttempts.value.Real?
          && (IsWhole(maxAttempts.value) || maxAttempts.value.value <= 1.0 || maxAttempts.value.value >= 10.0))
  {
    assert 1.0.Floor == 1 && 10.0.Floor == 10 && 4.0.Floor == 4;
  }

  /** How many attempts there are at most: 4 if nothing is asked for, otherwise what is asked for, from 1
      to 10 and rounded down, and none for NaN. */
  lemma AttemptsAllowed(maxAttempts: Option<Number>)
    ensures Rounds(ClampedAttempts(maxAttempts)) ==
      match maxAttempts
      case None => 4
      case Some(NaN) => 0
      case Some(PlusInfinity) => 10
      case Some(MinusInfinity) => 1
      case Some(Real(v)) => if v <= 1.0 then 1 else if v >= 10.0 then 10 else v.Floor
  {
    assert 1.0.Floor == 1 && 10.0.Floor == 10 && 4.0.Floor == 4;
  }

  /** The loop condition against the number of rounds. */
  lemma RoundsAllowed(limit: Number, attempt: nat)
    requires limit.NaN? || (limit.Real? && 1.0 <= limit.value)
    ensures limit.Real? && attempt as real <= limit.value <==> limit.Real? && attempt <= Rounds(limit)
    ensures limit.Real? && attempt as real == limit.value <==> IsWhole(limit) && attempt == Rounds(limit)
    ensures if limit.NaN? then Rounds(limit) == 0 && !IsWhole(limit) else Rounds(limit) >= 1
  {
  }

  // ---- the retry loop ----

  datatype Failure = Rethrown(error: Thrown) | Exhausted
  datatype Answer<+T> = Returned(value: T) | Failed(failure: Failure)

  /** What one attempt did to the database between getting its client and releasing it: nothing, or
      the commit of the callback's work on the state it saw, which a retryable error rules out. */
  ghost predicate Tried<S(!new), T(!new)>(fn: (S, nat) -> Work<S, T>, attempt: nat, before: S, h: seq<Change<S>>,
                                          after: S, h': seq<Change<S>>, r: Result<T>) {
    || (r.Err? && h' == h && after == before)
    || (h' == h + [Change(Mine, before, after)]
        && fn(before, attempt).Done? && fn(before, attempt).next == after
        && (r.Ok? ==> fn(before, attempt).result == r.value)
        && (r.Err? ==> !Retryable(r.error)))
  }

  /** What follows BEGIN: statements, the callback's work, and COMMIT. */
  method WorkAndCommit<S(0,!new), T(!new)>(db: Database<S>, fn: (S, nat) -> Work<S, T>, attempt: nat)
    returns (r: Result<T>)
    requires db.Valid()
    modifies db`state, db`history
    ensures db.Valid() && Tried(fn, attempt, old(db.state), old(db.history), db.state, db.history, r)
  {
    var error := db.Statement();
    if error.Some? {
      return Err(error.value);
    }
    var work := fn(db.state, attempt);
    if work.Threw? {
      return Err(work.error);
    }
    error := db.Commit(work.next);
    r := if error.Some? then Err(error.value) else Ok(work.result);
  }

  /** The try block: BEGIN, the callback, COMMIT. */
  method TryTransaction<S(0,!new), T(!new)>(db: Database<S>, fn: (S, nat) -> Work<S, T>, attempt: nat)
    returns (r: Result<T>)
    requires db.Valid()
    modifies db`state, db`history, db`begun
    ensures db.Valid() && Tried(fn, attempt, old(db.state), old(db.history), db.state, db.history, r)
    ensures r.Ok? ==> db.begun == old(db.begun) + 1
  {
    var error := db.Begin();
    if error.Some? {
      return Err(error.value);
    }
    r := WorkAndCommit(db, fn, attempt);
  }

  /** Others may have written first; then exactly one run of the callback was committed, on the state
      its attempt began with, and nothing after it. */
  ghost predicate CommittedOnce<S(!new), T(!new)>(fn: (S, nat) -> Work<S, T>, attempt: nat, changes: seq<Change<S>>) {
    changes != []
    && var last := changes[|changes| - 1];
       last.author == Mine && AllOthers(changes[..|changes| - 1])
       && fn(last.before, attempt).Done? && fn(last.before, attempt).next == last.after
  }

  ghost predicate AllRetryable(failures: seq<Thrown>) {
    forall i :: 0 <= i < |failures| ==> Retryable(failures[i])
  }

  lemma NoOthers<S>(h: seq<Change<S>>)
    ensures AllOthers(h[|h|..])
  {
  }

  lemma OthersThenOthers<S>(h0: seq<Change<S>>, h1: seq<Change<S>>, h2: seq<Change<S>>)
    requires h0 <= h1 <= h2 && AllOthers(h1[|h0|..]) && AllOthers(h2[|h1|..])
    ensures AllOthers(h2[|h0|..])
  {
    assert h2[|h0|..] == h1[|h0|..] + h2[|h1|..];
  }

  lemma OthersThenMine<S(!new), T(!new)>(fn: (S, nat) -> Work<S, T>, attempt: nat, h0: seq<Change<S>>,
                                         h1: seq<Change<S>>, before: S, after: S)
    requires h0 <= h1 && AllOthers(h1[|h0|..])
    requires fn(before, attempt).Done? && fn(before, attempt).next == after
    ensures CommittedOnce(fn, attempt, (h1 + [Change(Mine, before, after)])[|h0|..])
  {
    var h2 := h1 + [Change(Mine, before, after)];
    assert h2[|h0|..] == h1[|h0|..] + [Change(Mine, before, after)];
    assert h2[|h0|..][..|h2| - |h0| - 1] == h1[|h0|..];
  }

  lemma TriedSettles<S(!new), T(!new)>(fn: (S, nat) -> Work<S, T>, attempt: nat, h0: seq<Change<S>>, before: S,
                                       h: seq<Change<S>>, after: S, h': seq<Change<S>>, r: Result<T>)
    requires h0 <= h && AllOthers(h[|h0|..]) && Tried(fn, attempt, before, h, after, h', r)
    ensures h0 <= h' && |h'| <= |h| + 1
    ensures r.Ok? ==>
      && CommittedOnce(fn, attempt, h'[|h0|..]) && h' != []
      && h'[|h'| - 1].before == before && fn(before, attempt) == Done(after, r.value)
    ensures r.Err? ==> AllOthers(h'[|h0|..]) || CommittedOnce(fn, attempt, h'[|h0|..])
    ensures r.Err? && Retryable(r.error) ==> h' == h && after == before && AllOthers(h'[|h0|..])
  {
    if h' != h {
      OthersThenMine(fn, attempt, h0, h, before, after);
    }
  }

  /** withSerializableRetry. `failures` lists the errors of the attempts that failed; `refused` says that
      the pool gave no client. The throw after the loop is reached exactly when the limit is not a whole
      number and every attempt it allows has failed retryably. */
  method WithSerializableRetry<S(0,!new), T(!new)>(db: Database<S>, fn: (S, nat) -> Work<S, T>,
                                                   maxAttempts: Option<Number>)
    returns (r: Answer<T>, ghost failures: seq<Thrown>, ghost refused: bool)
    requires db.Valid()
    modifies db
    // a conflict is retried, as long as the limit allows; anything else is thrown at once
    ensures forall i :: 0 <= i < |failures| - 1 ==> failures[i] == Object(Some(Text("40001")))
    ensures r.Failed? && r.failure.Rethrown? && !refused ==>
      && failures != [] && r.failure.error == failures[|failures| - 1]
      && (r.failure.error == Object(Some(Text("40001"))) ==>
            |failures| == Rounds(ClampedAttempts(maxAttempts)) && IsWhole(ClampedAttempts(maxAttempts)))
    ensures refused ==>
      && r.Failed? && r.failure.Rethrown? && |failures| < Rounds(ClampedAttempts(maxAttempts))
      && forall i :: 0 <= i < |failures| ==> failures[i] == Object(Some(Text("40001")))
    ensures db.Valid() && db.checkedOut == old(db.checkedOut) && old(db.history) <= db.history
    // every failed attempt, and no other, is rolled back
    ensures db.rolledBack == old(db.rolledBack) + |failures|
    ensures r.Returned? ==>
      && CommittedOnce(fn, |failures| + 1, db.Since(|old(db.history)|))
      && fn(db.history[|db.history| - 1].before, |failures| + 1).result == r.value
      && |failures| < Rounds(ClampedAttempts(maxAttempts)) && AllRetryable(failures)
    ensures r.Failed? && r.failure.Rethrown? && failures != [] && !Retryable(r.failure.error) ==>
      || AllOthers(db.Since(|old(db.history)|))
      || CommittedOnce(fn, |failures|, db.Since(|old(db.history)|))
    ensures r.Failed? && !(r.failure.Rethrown? && failures != [] && !Retryable(r.failure.error)) ==>
      AllOthers(db.Since(|old(db.history)|))
    ensures |failures| <= Rounds(ClampedAttempts(maxAttempts))
    ensures forall i :: 0 <= i < |failures| - 1 ==> Retryable(failures[i])
    ensures r == Failed(Exhausted) <==>
      && r.Failed? && !IsWhole(ClampedAttempts(maxAttempts))
      && |failures| == Rounds(ClampedAttempts(maxAttempts)) && AllRetryable(failures)
  {
    hide Chain, AllOthers, CommittedOnce, Tried, Rounds, IsWhole, ClampedAttempts;
    var limit := ClampedAttempts(maxAttempts);
    RoundsAllowed(limit, 1);
    NoOthers(db.history);
    var attempt := 1;
    failures, refused := [], false;
    ghost var h0 := db.history;
    while limit.Real? && attempt as real <= limit.value
      invariant attempt == |failures| + 1 <= Rounds(limit) + 1
      invariant AllRetryable(failures) && !refused
      invariant IsWhole(limit) ==> attempt <= Rounds(limit)
      invariant db.Valid() && db.checkedOut == old(db.checkedOut) && h0 <= db.history
      invariant db.rolledBack == old(db.rolledBack) + |failures|
      invariant AllOthers(db.Since(|h0|))
      decreases Rounds(limit) + 1 - attempt
    {
      RoundsAllowed(limit, attempt);
      ghost var h1 := db.history;
      var error := db.Connect();
      OthersThenOthers(h0, h1, db.history);
      if error.Some? {
        return Failed(Rethrown(error.value)), failures, true;
      }
      ghost var h2, before := db.history, db.state;
      var outcome := TryTransaction(db, fn, attempt);
      TriedSettles(fn, attempt, h0, before, h2, db.state, db.history, outcome);
      if outcome.Ok? {
        db.Release();
        return Returned(outcome.value), failures, false;
      }
      var rollback := db.Rollback();
      failures := failures + [outcome.error];
      db.Release();
      if !Retryable(outcome.error) || attempt as real == limit.value {
        return Failed(Rethrown(outcome.error)), failures, false;
      }
      attempt := attempt + 1;
    }
    RoundsAllowed(limit, attempt);
    r := Failed(Exhausted);
  }
}
