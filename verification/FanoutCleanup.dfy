/** The cleanup of `scripts/fanout-demo.ts`: transactions retried within a deadline, and a table
    emptied in batches behind a cursor, against the database of Transactions. */
module FanoutCleanup {
  import opened Options
  import opened Transactions

  // ---- the table ----

  const ID_BOUND: nat := 0x1_0000_0000_0000_0000_0000_0000_0000_0000

  /** A UUID, by its value as a 128-bit number: the order of the primary key. */
  type Id = x: nat | x < ID_BOUND
  type Table = set<Id>

  const BATCH_SIZE := 100

  predicate Ascending(ids: seq<Id>) {
    forall i, j :: 0 <= i < j < |ids| ==> ids[i] < ids[j]
  }

  lemma {:induction false} FindLeast(t: Table) returns (m: Id)
    requires t != {}
    ensures m in t && forall x :: x in t ==> m <= x
    decreases |t|
  {
    m :| m in t;
    var rest := t - {m};
    assert forall x :: x in t ==> x == m || x in rest;
    if rest != {} {
      var n := FindLeast(rest);
      m := if n < m then n else m;
    }
  }

  lemma LeastExists(t: Table)
    requires t != {}
    ensures exists m :: m in t && forall x :: x in t ==> m <= x
  {
    var m := FindLeast(t);
  }

  function Least(t: Table): (m: Id)
    requires t != {}
    ensures m in t && forall x :: x in t ==> m <= x
  {
    LeastExists(t);
    var m :| m in t && forall x :: x in t ==> m <= x;
    m
  }

  function Sorted(t: Table): (r: seq<Id>)
    ensures Ascending(r) && |r| == |t| && forall x :: x in r <==> x in t
  {
    if t == {} then []
    else
      var m := Least(t);
      [m] + Sorted(t - {m})
  }

  predicate Passes(x: Id, cursor: Option<Id>) {
    cursor.None? || x > cursor.value
  }

  function Above(t: Table, cursor: Option<Id>): Table {
    set x | x in t && Passes(x, cursor)
  }

  /** DELETE ... WHERE id > cursor ORDER BY id LIMIT 100 RETURNING id */
  function Batch(t: Table, cursor: Option<Id>): seq<Id> {
    var rows := Sorted(Above(t, cursor));
    if |rows| <= BATCH_SIZE then rows else rows[..BATCH_SIZE]
  }

  function Elements(ids: seq<Id>): Table {
    set x | x in ids
  }

  function DeleteBatch(cursor: Option<Id>): (Table, nat) -> Work<Table, seq<Id>> {
    (t, attempt) => Done(t - Elements(Batch(t, cursor)), Batch(t, cursor))
  }

  function CountRows(): (Table, nat) -> Work<Table, nat> {
    (t, attempt) => Done(t, |t|)
  }

  lemma {:induction false} ElementsOfAscending(ids: seq<Id>)
    requires Ascending(ids)
    ensures |Elements(ids)| == |ids|
  {
    if ids != [] {
      var last := ids[|ids| - 1];
      var init := ids[..|ids| - 1];
      ElementsOfAscending(init);
      assert Elements(ids) == Elements(init) + {last};
      assert last !in init;
    }
  }

  lemma BatchIsPrefix(t: Table, cursor: Option<Id>)
    ensures var all, rows := Sorted(Above(t, cursor)), Batch(t, cursor);
      && rows <= all && Ascending(rows) && |rows| <= BATCH_SIZE
      && (|rows| < BATCH_SIZE ==> rows == all)
      && (forall x :: x in rows ==> x in t && Passes(x, cursor))
      && Elements(rows) <= t && |Elements(rows)| == |rows|
  {
    var all, rows := Sorted(Above(t, cursor)), Batch(t, cursor);
    hide Sorted;
    forall x | x in rows
      ensures x in t && Passes(x, cursor)
    {
      assert x in all;
    }
    ElementsOfAscending(rows);
  }

  /** Cutting an ascending sequence: what is past the last element of the prefix is what is not in it. */
  lemma PastTheCut(all: seq<Id>, rows: seq<Id>, x: Id)
    requires Ascending(all) && rows <= all && rows != [] && x in all
    ensures x > rows[|rows| - 1] <==> x !in rows
  {
    var i :| 0 <= i < |all| && all[i] == x;
    if i < |rows| {
      assert rows[i] == x;
    }
  }

  /** What a batch takes: the lowest rows past the cursor, at most a hundred; it takes none only if
      there are none, and leaves every other row past the cursor past its own last row. */
  lemma BatchTakesLowest(t: Table, cursor: Option<Id>)
    ensures var rows := Batch(t, cursor);
      && Ascending(rows) && |rows| <= 100
      && (forall x :: x in rows ==> x in t && Passes(x, cursor))
      && (|rows| < 100 ==> Elements(rows) == Above(t, cursor))
      && (rows != [] ==> Above(t, Some(rows[|rows| - 1])) == Above(t, cursor) - Elements(rows))
      && |t - Elements(rows)| == |t| - |rows|
  {
    hide Sorted, Batch, Ascending;
    var rows := Batch(t, cursor);
    BatchIsPrefix(t, cursor);
    assert Elements(rows) <= t;
    if rows != [] {
      BatchCuts(t, cursor);
    }
  }

  lemma BatchCuts(t: Table, cursor: Option<Id>)
    requires Batch(t, cursor) != []
    ensures var rows := Batch(t, cursor);
      Above(t, Some(rows[|rows| - 1])) == Above(t, cursor) - Elements(rows)
  {
    hide Sorted, Batch, Ascending;
    var all, rows := Sorted(Above(t, cursor)), Batch(t, cursor);
    BatchIsPrefix(t, cursor);
    var last := rows[|rows| - 1];
    assert last in rows;
    forall x | x in Above(t, cursor)
      ensures x > last <==> x !in rows
    {
      PastTheCut(all, rows, x);
    }
  }

  // ---- one transaction, retried within a deadline ----

  const MAX_SERIALIZATION_ATTEMPTS := 8
  const STATEMENT_TIMEOUT_MS := 30_000
  const DEADLINE_MS := 240_000

  datatype CleanupError =
    | DeadlineExceeded
    | DeadlineWhileRetrying
    | NoRoomForRetry
    | RollbackFailed(error: Thrown, rollback: Thrown)
    | Plain(error: Thrown)
    | TooManyRows
    | RowsLeft(count: nat)

  datatype CleanupResult<+T> = Fine(value: T) | Failure(error: CleanupError)

  /** What a transaction itself may fail with. */
  predicate OfTransaction(e: CleanupError) {
    !e.TooManyRows? && !e.RowsLeft?
  }

  /** Only a plain 40001 is retried; the deadline and aggregate errors carry no code. */
  predicate RetryableCleanup(e: CleanupError) {
    e.Plain? && Retryable(e.error)
  }

  /** A transaction about to begin: when its deadline was checked, and its statement timeout. */
  datatype Start = Start(at: real, timeoutMs: nat)

  /** performance.now, in milliseconds; every statement takes some time. */
  class Clock {
    var now: real
    ghost var starts: seq<Start>

    method Elapse()
      modifies `now
      ensures now >= old(now)
    {
      var passed: real := *;
      if passed > 0.0 {
        now := now + passed;
      }
    }

    method Sleep(ms: nat)
      modifies `now
      ensures now >= old(now) + ms as real
    {
      Elapse();
      now := now + ms as real;
    }
  }

  /** Begun before the deadline, with a statement timeout of at least 1 ms, in whole milliseconds the
      longest that neither exceeds the configured one nor reaches past the deadline. */
  ghost predicate InTime(starts: seq<Start>, deadlineAt: real, statementTimeoutMs: nat) {
    forall s :: s in starts ==>
      && s.at + 1.0 <= deadlineAt && 1 <= s.timeoutMs <= statementTimeoutMs && s.at + s.timeoutMs as real <= deadlineAt
      && (s.timeoutMs == statementTimeoutMs || s.at + s.timeoutMs as real + 1.0 > deadlineAt)
  }

  function Pow2(n: nat): nat {
    if n == 0 then 1 else 2 * Pow2(n - 1)
  }

  function Backoff(attempt: nat): nat
    requires attempt >= 1
  {
    var ms := 25 * Pow2(attempt - 1);
    if ms < 500 then ms else 500
  }

  /** 25 ms after the first conflict, twice as long after each further one, and never more than 500 ms. */
  lemma WaitsDouble(attempt: nat)
    requires attempt >= 1
    ensures Backoff(attempt) == if attempt <= 5 then [25, 50, 100, 200, 400][attempt - 1] else 500
  {
    assert Pow2(0) == 1 && Pow2(1) == 2 && Pow2(2) == 4 && Pow2(3) == 8 && Pow2(4) == 16;
    if attempt > 5 {
      PowerGrows(attempt - 1);
    }
  }

  lemma {:induction false} PowerGrows(n: nat)
    requires n >= 5
    ensures Pow2(n) >= 32
  {
    if n > 5 {
      PowerGrows(n - 1);
    } else {
      assert Pow2(0) == 1 && Pow2(1) == 2 && Pow2(2) == 4 && Pow2(3) == 8 && Pow2(4) == 16;
    }
  }

  /** The waits after the first n conflicts together. */
  function Waits(n: nat): nat {
    if n == 0 then 0 else Waits(n - 1) + Backoff(n)
  }

  lemma LongestWait()
    ensures Waits(7) == 25 + 50 + 100 + 200 + 400 + 500 + 500
  {
    hide Backoff;
    WaitsDouble(1);
    WaitsDouble(2);
    WaitsDouble(3);
    WaitsDouble(4);
    WaitsDouble(5);
    WaitsDouble(6);
    WaitsDouble(7);
    assert Waits(3) == 175 && Waits(5) == 775;
  }

  /** The one error that is retried: a conflict, rolled back. */
  predicate IsConflict(e: CleanupError) {
    e == Plain(Object(Some(Text("40001"))))
  }

  lemma OnlyConflictsAreRetried(e: CleanupError)
    ensures RetryableCleanup(e) <==> IsConflict(e)
  {
  }

  /** What a failed or finished attempt did to the database since it got its client. */
  ghost predicate Attempted<S(!new), T(!new)>(work: (S, nat) -> Work<S, T>, attempt: nat, before: S, h: seq<Change<S>>,
                                              after: S, h': seq<Change<S>>, r: CleanupResult<T>) {
    || (r.Failure? && h' == h && after == before)
    || (h' == h + [Change(Mine, before, after)]
        && work(before, attempt).Done? && work(before, attempt).next == after
        && (r.Fine? ==> work(before, attempt).result == r.value)
        && (r.Failure? ==> !RetryableCleanup(r.error)))
  }

  /** The callback given to withClient, on a client it releases. */
  method TryCleanup<S(0,!new), T(!new)>(db: Database<S>, clock: Clock, deadlineAt: real, statementTimeoutMs: nat,
                                work: (S, nat) -> Work<S, T>, attempt: nat)
    returns (r: CleanupResult<T>)
    requires db.Valid() && statementTimeoutMs >= 1
    modifies db`state, db`history, db`begun, db`rolledBack, clock
    ensures db.Valid() && clock.now >= old(clock.now)
    ensures db.begun - old(db.begun) == db.rolledBack - old(db.rolledBack) + if r.Fine? then 1 else 0
    ensures Attempted(work, attempt, old(db.state), old(db.history), db.state, db.history, r)
    ensures r.Failure? ==> OfTransaction(r.error)
    ensures old(clock.starts) <= clock.starts
    ensures InTime(clock.starts[|old(clock.starts)|..], deadlineAt, statementTimeoutMs)
    ensures db.history != old(db.history) ==> clock.starts != old(clock.starts)
    ensures r == Failure(DeadlineExceeded) <==> deadlineAt - old(clock.now) < 1.0
    ensures r == Failure(DeadlineExceeded) <==> clock.starts == old(clock.starts)
    ensures r == Failure(DeadlineExceeded) ==> clock.now == old(clock.now)
    ensures r.Failure? ==> r.error == DeadlineExceeded || r.error.Plain? || r.error.RollbackFailed?
  {
    var remainingMs := (deadlineAt - clock.now).Floor;
    if remainingMs <= 0 {
      return Failure(DeadlineExceeded);
    }
    var timeoutMs := if statementTimeoutMs < remainingMs then statementTimeoutMs else remainingMs;
    clock.starts := clock.starts + [Start(clock.now, timeoutMs)];
    clock.Elapse();
    var error := db.Begin();
    if error.Some? {
      return Failure(Plain(error.value));
    }
    var tried := WorkAndCommit(db, work, attempt);
    clock.Elapse();
    if tried.Ok? {
      return Fine(tried.value);
    }
    var rollback := db.Rollback();
    r := Failure(if rollback.Some? then RollbackFailed(tried.error, rollback.value) else Plain(tried.error));
  }

  /** cleanupTransaction. Its last throw is unreachable: the loop returns or throws in its eighth
      round at the latest. */
  method CleanupTransaction<S(0,!new), T(!new)>(db: Database<S>, clock: Clock, deadlineAt: real,
                                                statementTimeoutMs: nat, work: (S, nat) -> Work<S, T>)
    returns (r: CleanupResult<T>, ghost attempts: nat, ghost errors: seq<CleanupError>)
    requires db.Valid() && statementTimeoutMs >= 1
    modifies db, clock
    ensures db.Valid() && db.checkedOut == old(db.checkedOut) && old(db.history) <= db.history
    ensures 1 <= attempts <= 8 && |errors| == if r.Fine? then attempts - 1 else attempts
    // only a conflict is followed by another attempt, after its wait
    ensures forall i :: 0 <= i < attempts - 1 ==> IsConflict(errors[i])
    ensures clock.now >= old(clock.now) + Waits(attempts - 1) as real
    // a conflict is thrown only after eight attempts, and given up only for want of time
    ensures r.Failure? ==>
      var last := errors[attempts - 1];
      || (r.error == last && (IsConflict(last) ==> attempts == 8))
      || (r.error == DeadlineWhileRetrying && IsConflict(last) && attempts < 8 && deadlineAt - clock.now < 1.0)
      || (r.error == NoRoomForRetry && IsConflict(last) && attempts < 8
          && 1.0 <= deadlineAt - clock.now < Backoff(attempts) as real + 1.0)
    // every transaction begun was committed or rolled back
    ensures db.begun - old(db.begun) == db.rolledBack - old(db.rolledBack) + if r.Fine? then 1 else 0
    ensures r.Fine? ==>
      && CommittedOnce(work, attempts, db.Since(|old(db.history)|))
      && work(db.history[|db.history| - 1].before, attempts) == Done(db.state, r.value)
    ensures r.Failure? ==>
      || AllOthers(db.Since(|old(db.history)|))
      || CommittedOnce(work, attempts, db.Since(|old(db.history)|))
    ensures r.Failure? && RetryableCleanup(r.error) ==> AllOthers(db.Since(|old(db.history)|))
    ensures r.Failure? ==> OfTransaction(r.error)
    ensures old(clock.starts) <= clock.starts
    ensures InTime(clock.starts[|old(clock.starts)|..], deadlineAt, statementTimeoutMs)
    ensures db.quiet && r.Fine? ==> db.history[|db.history| - 1].before == old(db.state)
  {
    hide Chain, AllOthers, CommittedOnce, InTime, Attempted, RetryableCleanup, IsConflict, Backoff;
    attempts, errors := 0, [];
    r := Failure(DeadlineExceeded);
    ghost var h0, s0 := db.history, clock.starts;
    NoOthers(h0);
    NoStarts(s0, deadlineAt, statementTimeoutMs);
    var attempt := 1;
    while attempt <= MAX_SERIALIZATION_ATTEMPTS
      invariant 1 <= attempt <= MAX_SERIALIZATION_ATTEMPTS && |errors| == attempt - 1
      invariant forall i :: 0 <= i < |errors| ==> IsConflict(errors[i])
      invariant clock.now >= old(clock.now) + Waits(attempt - 1) as real
      invariant db.Valid() && db.checkedOut == old(db.checkedOut) && h0 <= db.history
      invariant AllOthers(db.Since(|h0|))
      invariant db.quiet ==> db.history == h0 && db.state == old(db.state)
      invariant db.begun - old(db.begun) == db.rolledBack - old(db.rolledBack)
      invariant s0 <= clock.starts && InTime(clock.starts[|s0|..], deadlineAt, statementTimeoutMs)
    {
      attempts := attempt;
      ghost var h1 := db.history;
      var refused := db.Connect();
      OthersThenOthers(h0, h1, db.history);
      if refused.Some? {
        r := Failure(Plain(refused.value));
      } else {
        ghost var h2, before, s1 := db.history, db.state, clock.starts;
        r := TryCleanup(db, clock, deadlineAt, statementTimeoutMs, work, attempt);
        db.Release();
        StartsThen(s0, s1, clock.starts, deadlineAt, statementTimeoutMs);
        AttemptSettles(work, attempt, h0, before, h2, db.state, db.history, r);
        if r.Fine? {
          return;
        }
      }
      errors := errors + [r.error];
      OnlyConflictsAreRetried(r.error);
      if !RetryableCleanup(r.error) || attempt == MAX_SERIALIZATION_ATTEMPTS {
        return;
      }
      var remainingMs := (deadlineAt - clock.now).Floor;
      if remainingMs <= 0 {
        return Failure(DeadlineWhileRetrying), attempts, errors;
      }
      var backoffMs := Backoff(attempt);
      if remainingMs <= backoffMs {
        return Failure(NoRoomForRetry), attempts, errors;
      }
      clock.Sleep(backoffMs);
      attempt := attempt + 1;
    }
    assert false;
  }

  lemma NoStarts(starts: seq<Start>, deadlineAt: real, statementTimeoutMs: nat)
    ensures InTime(starts[|starts|..], deadlineAt, statementTimeoutMs)
  {
  }

  lemma StartsThen(s0: seq<Start>, s1: seq<Start>, s2: seq<Start>, deadlineAt: real, statementTimeoutMs: nat)
    requires s0 <= s1 <= s2
    requires InTime(s1[|s0|..], deadlineAt, statementTimeoutMs) && InTime(s2[|s1|..], deadlineAt, statementTimeoutMs)
    ensures InTime(s2[|s0|..], deadlineAt, statementTimeoutMs)
  {
    assert s2[|s0|..] == s1[|s0|..] + s2[|s1|..];
  }

  lemma AttemptSettles<S(!new), T(!new)>(work: (S, nat) -> Work<S, T>, attempt: nat, h0: seq<Change<S>>, before: S,
                                         h: seq<Change<S>>, after: S, h': seq<Change<S>>, r: CleanupResult<T>)
    requires h0 <= h && AllOthers(h[|h0|..]) && Attempted(work, attempt, before, h, after, h', r)
    ensures h0 <= h' && |h'| <= |h| + 1
    ensures r.Fine? ==>
      && CommittedOnce(work, attempt, h'[|h0|..]) && h' != []
      && h'[|h'| - 1].before == before && work(before, attempt) == Done(after, r.value)
    ensures r.Failure? ==> AllOthers(h'[|h0|..]) || CommittedOnce(work, attempt, h'[|h0|..])
    ensures r.Failure? && RetryableCleanup(r.error) ==> h' == h && after == before && AllOthers(h'[|h0|..])
  {
    if h' != h {
      OthersThenMine(work, attempt, h0, h, before, after);
    }
  }

  // ---- the table emptied in batches ----

  /** cleanupLimit: a finite number is rounded down and clamped, anything else is the maximum. */
  function CleanupLimit(value: Option<Number>, maximum: nat): (r: nat)
    requires maximum >= 1
    ensures 1 <= r <= maximum
    ensures value.Some? && value.value.Real? && 1.0 <= value.value.value <= maximum as real ==>
      r as real <= value.value.value < r as real + 1.0
    ensures value.Some? && value.value.Real? && value.value.value < 1.0 ==> r == 1
    ensures value.Some? && value.value.Real? && value.value.value > maximum as real ==> r == maximum
    ensures value.None? || !value.value.Real? ==> r == maximum
  {
    var whole := if value.Some? && value.value.Real? then value.value.value.Floor else maximum;
    var capped := if whole < maximum then whole else maximum;
    if capped > 1 then capped else 1
  }

  /** Rows this caller's commits took away. */
  ghost function Removed(changes: seq<Change<Table>>): int {
    if changes == [] then 0
    else
      var last := changes[|changes| - 1];
      Removed(changes[..|changes| - 1]) + if last.author == Mine then |last.before| - |last.after| else 0
  }

  lemma {:induction false} RemovedThen(a: seq<Change<Table>>, b: seq<Change<Table>>)
    ensures Removed(a + b) == Removed(a) + Removed(b)
  {
    if b == [] {
      assert a + b == a;
    } else {
      RemovedThen(a, b[..|b| - 1]);
      assert (a + b)[..|a + b| - 1] == a + b[..|b| - 1];
    }
  }

  lemma {:induction false} RemovedByOthers(changes: seq<Change<Table>>)
    requires AllOthers(changes)
    ensures Removed(changes) == 0
  {
    if changes != [] {
      assert changes[|changes| - 1] in changes;
      RemovedByOthers(changes[..|changes| - 1]);
    }
  }

  /** One more committed transaction, as far as the count of removed rows goes. */
  lemma RemovedByOne<T(!new)>(work: (Table, nat) -> Work<Table, T>, attempt: nat, h0: seq<Change<Table>>,
                              h1: seq<Change<Table>>, h2: seq<Change<Table>>)
    requires h0 <= h1 <= h2 && CommittedOnce(work, attempt, h2[|h1|..])
    ensures h2 != []
    ensures Removed(h2[|h0|..]) == Removed(h1[|h0|..]) + |h2[|h2| - 1].before| - |h2[|h2| - 1].after|
    ensures work(h2[|h2| - 1].before, attempt).Done? && work(h2[|h2| - 1].before, attempt).next == h2[|h2| - 1].after
  {
    var own := h2[|h1|..];
    assert h2[|h0|..] == h1[|h0|..] + own;
    RemovedThen(h1[|h0|..], own);
    RemovedByOthers(own[..|own| - 1]);
    assert own[|own| - 1] == h2[|h2| - 1];
  }

  lemma AscendingThen(a: seq<Id>, b: seq<Id>, cursor: Option<Id>)
    requires Ascending(a) && Ascending(b) && forall x :: x in b ==> Passes(x, cursor)
    requires a != [] ==> cursor == Some(a[|a| - 1])
    ensures Ascending(a + b)
  {
    forall i, j | 0 <= i < j < |a + b|
      ensures (a + b)[i] < (a + b)[j]
    {
      if i < |a| <= j {
        assert b[j - |a|] in b;
      }
    }
  }

  datatype Stats = Stats(deletedRows: nat, batches: nat, maxBatchRows: nat, remainingRows: nat)

  /** Without other writers: what is deleted is everything up to the cursor, in full batches as long
      as any row is left. */
  predicate Progress(t0: Table, t: Table, cursor: Option<Id>, s: Stats) {
    && t == Above(t0, cursor) && s.deletedRows + |t| == |t0|
    && (t == {} || s.deletedRows == BATCH_SIZE * s.batches)
    && s.deletedRows <= BATCH_SIZE * s.batches
    && (s.batches > 0 ==> s.deletedRows > BATCH_SIZE * (s.batches - 1))
    && s.maxBatchRows == (if s.deletedRows < BATCH_SIZE then s.deletedRows else BATCH_SIZE)
  }

  function Counted(s: Stats, rows: nat): Stats {
    Stats(s.deletedRows + rows, s.batches + 1, if s.maxBatchRows > rows then s.maxBatchRows else rows, 0)
  }

  lemma AboveAbove(t: Table, cursor: Option<Id>, last: Id)
    requires Passes(last, cursor)
    ensures Above(Above(t, cursor), Some(last)) == Above(t, Some(last))
  {
  }

  lemma AboveTwice(t: Table, cursor: Option<Id>)
    ensures Above(Above(t, cursor), cursor) == Above(t, cursor)
  {
  }

  lemma BatchProgresses(t0: Table, t: Table, cursor: Option<Id>, s: Stats)
    requires Progress(t0, t, cursor, s) && Batch(t, cursor) != []
    ensures var rows := Batch(t, cursor);
      Progress(t0, t - Elements(rows), Some(rows[|rows| - 1]), Counted(s, |rows|))
  {
    hide Batch, Above, Sorted, Elements, Ascending;
    var rows := Batch(t, cursor);
    BatchTakesLowest(t, cursor);
    assert rows[|rows| - 1] in rows;
    AboveAbove(t0, cursor, rows[|rows| - 1]);
    AboveTwice(t0, cursor);
  }

  /** One batch: the rows it deleted, past the cursor and in order; none only if none were there. */
  method DeleteOneBatch(db: Database<Table>, clock: Clock, deadlineAt: real, statementTimeoutMs: nat,
                        cursor: Option<Id>, ghost h0: seq<Change<Table>>)
    returns (r: CleanupResult<seq<Id>>)
    requires db.Valid() && statementTimeoutMs >= 1 && h0 <= db.history
    modifies db, clock
    ensures db.Valid() && db.checkedOut == old(db.checkedOut) && old(db.history) <= db.history
    ensures old(clock.starts) <= clock.starts
    ensures InTime(clock.starts[|old(clock.starts)|..], deadlineAt, statementTimeoutMs)
    ensures r.Fine? ==>
      && Ascending(r.value) && |r.value| <= BATCH_SIZE && (forall x :: x in r.value ==> Passes(x, cursor))
      && Removed(db.Since(|h0|)) == old(Removed(db.Since(|h0|))) + |r.value|
    ensures r.Fine? && db.quiet ==>
      r.value == Batch(old(db.state), cursor) && db.state == old(db.state) - Elements(r.value)
    ensures r.Failure? ==> OfTransaction(r.error)
  {
    hide Chain, AllOthers, CommittedOnce, InTime, Removed, Batch, Ascending;
    ghost var h1 := db.history;
    ghost var attempts, errors;
    r, attempts, errors := CleanupTransaction(db, clock, deadlineAt, statementTimeoutMs, DeleteBatch(cursor));
    if r.Fine? {
      RemovedByOne(DeleteBatch(cursor), attempts, h0, h1, db.history);
      BatchTakesLowest(db.history[|db.history| - 1].before, cursor);
    }
  }

  lemma NothingYet(t0: Table, h0: seq<Change<Table>>, s0: seq<Start>, deadlineAt: real, statementTimeoutMs: nat)
    ensures InTime(s0[|s0|..], deadlineAt, statementTimeoutMs)
    ensures Removed(h0[|h0|..]) == 0 && Ascending([])
    ensures Progress(t0, t0, None, Stats(0, 0, 0, 0))
  {
    assert Above(t0, None) == t0;
  }

  lemma NoBatchMeansEmpty(t0: Table, t: Table, cursor: Option<Id>, s: Stats)
    requires Progress(t0, t, cursor, s) && Batch(t, cursor) == []
    ensures t == {} && t - Elements([]) == {}
  {
    BatchTakesLowest(t, cursor);
    AboveTwice(t0, cursor);
    assert Elements(Batch(t, cursor)) == {};
  }

  lemma FullBatches(t0: Table, cursor: Option<Id>, s: Stats)
    requires Progress(t0, {}, cursor, s)
    ensures s.deletedRows == |t0| && s.batches == (|t0| + BATCH_SIZE - 1) / BATCH_SIZE
    ensures s.maxBatchRows == if |t0| < BATCH_SIZE then |t0| else BATCH_SIZE
  {
  }

  /** The final count: the run succeeds only if it sees no row. */
  method FinalCount(db: Database<Table>, clock: Clock, deadlineAt: real, statementTimeoutMs: nat, stats: Stats,
                    ghost h0: seq<Change<Table>>)
    returns (r: CleanupResult<Stats>)
    requires db.Valid() && statementTimeoutMs >= 1 && h0 <= db.history && stats.remainingRows == 0
    modifies db, clock
    ensures db.Valid() && db.checkedOut == old(db.checkedOut) && old(db.history) <= db.history
    ensures old(clock.starts) <= clock.starts
    ensures InTime(clock.starts[|old(clock.starts)|..], deadlineAt, statementTimeoutMs)
    ensures r.Fine? ==>
      && r.value == stats && db.state == {} && db.history != [] && db.history[|db.history| - 1] == Change(Mine, {}, {})
      && Removed(db.Since(|h0|)) == old(Removed(db.Since(|h0|)))
    ensures db.quiet && old(db.state) == {} ==> !(r.Failure? && r.error.RowsLeft?)
    ensures r != Failure(TooManyRows)
  {
    hide Chain, AllOthers, InTime, Removed;
    ghost var h1 := db.history;
    var count;
    ghost var attempts, errors;
    count, attempts, errors := CleanupTransaction(db, clock, deadlineAt, statementTimeoutMs, CountRows());
    if count.Failure? {
      return Failure(count.error);
    }
    RemovedByOne(CountRows(), attempts, h0, h1, db.history);
    assert db.Since(|h1|)[|db.Since(|h1|)| - 1] == db.history[|db.history| - 1];
    if count.value != 0 {
      return Failure(RowsLeft(count.value));
    }
    r := Fine(stats);
  }

  /** deleteFanoutRowsInBatches. `deleted` lists the rows it deleted in the order it saw them. */
  method DeleteFanoutRowsInBatches(db: Database<Table>, clock: Clock, statementTimeout: Option<Number>,
                                   deadline: Option<Number>)
    returns (r: CleanupResult<Stats>, ghost deleted: seq<Id>)
    requires db.Valid()
    modifies db, clock
    ensures db.Valid() && db.checkedOut == old(db.checkedOut) && old(db.history) <= db.history
    // whatever others write: no row is deleted twice, the count is right, and the table was seen empty
    ensures Ascending(deleted)
    ensures r.Fine? ==>
      && r.value.deletedRows == |deleted| == Removed(db.Since(|old(db.history)|))
      && db.history != [] && db.history[|db.history| - 1] == Change(Mine, {}, {})
      && db.state == {} && r.value.remainingRows == 0
    // nobody else writing: it is the whole table, in as few batches as there can be
    ensures db.quiet ==> r != Failure(TooManyRows) && !(r.Failure? && r.error.RowsLeft?)
    ensures db.quiet && r.Fine? ==>
      && r.value.deletedRows == |old(db.state)|
      && r.value.batches == (|old(db.state)| + 99) / 100
      && r.value.maxBatchRows == (if |old(db.state)| < 100 then |old(db.state)| else 100)
    ensures old(clock.starts) <= clock.starts
    ensures InTime(clock.starts[|old(clock.starts)|..],
                   old(clock.now) + CleanupLimit(deadline, 240_000) as real,
                   CleanupLimit(statementTimeout, 30_000))
  {
    hide Chain, AllOthers, CommittedOnce, InTime, Removed, Batch, Ascending, CleanupLimit, Progress, Above, Elements;
    var statementTimeoutMs := CleanupLimit(statementTimeout, STATEMENT_TIMEOUT_MS);
    var deadlineAt := clock.now + CleanupLimit(deadline, DEADLINE_MS) as real;
    ghost var h0, s0, t0 := db.history, clock.starts, db.state;
    var cursor: Option<Id> := None;
    var stats := Stats(0, 0, 0, 0);
    deleted := [];
    NothingYet(t0, h0, s0, deadlineAt, statementTimeoutMs);
    while true
      invariant db.Valid() && db.checkedOut == old(db.checkedOut) && h0 <= db.history
      invariant s0 <= clock.starts && InTime(clock.starts[|s0|..], deadlineAt, statementTimeoutMs)
      invariant Ascending(deleted) && (deleted == [] <==> cursor.None?)
      invariant deleted != [] ==> cursor == Some(deleted[|deleted| - 1])
      invariant stats.deletedRows == |deleted| == Removed(db.Since(|h0|)) && stats.remainingRows == 0
      invariant db.quiet ==> Progress(t0, db.state, cursor, stats)
      decreases if cursor.None? then ID_BOUND else ID_BOUND - 1 - cursor.value
    {
      ghost var s1, t1 := clock.starts, db.state;
      var batch := DeleteOneBatch(db, clock, deadlineAt, statementTimeoutMs, cursor, h0);
      StartsThen(s0, s1, clock.starts, deadlineAt, statementTimeoutMs);
      if batch.Failure? {
        return Failure(batch.error), deleted;
      }
      var rows := batch.value;
      if rows == [] {
        if db.quiet {
          NoBatchMeansEmpty(t0, t1, cursor, stats);
          assert db.state == {};
        }
        break;
      }
      if |rows| > BATCH_SIZE {
        return Failure(TooManyRows), deleted;
      }
      AscendingThen(deleted, rows, cursor);
      assert rows[|rows| - 1] in rows;
      if db.quiet {
        BatchProgresses(t0, t1, cursor, stats);
      }
      cursor := Some(rows[|rows| - 1]);
      stats := Counted(stats, |rows|);
      deleted := deleted + rows;
    }
    ghost var s2 := clock.starts;
    r := FinalCount(db, clock, deadlineAt, statementTimeoutMs, stats, h0);
    StartsThen(s0, s2, clock.starts, deadlineAt, statementTimeoutMs);
    if db.quiet {
      FullBatches(t0, cursor, stats);
    }
  }

  // ---- the final cleanup ----

  datatype Step<+T> = Worked(result: Result<T>) | CleanedUp(error: Option<Thrown>)

  datatype Final<+T> = Delivered(value: T) | Rethrown(error: Thrown) | BothFailed(primary: Thrown, cleanup: Thrown)

  /** A workload and its cleanup, either of which may throw; `steps` records what they did. */
  class Workload<T(0)> {
    ghost var steps: seq<Step<T>>

    method Work() returns (r: Result<T>)
      modifies this
      ensures steps == old(steps) + [Worked(r)]
    {
      r := *;
      steps := steps + [Worked(r)];
    }

    method Cleanup() returns (error: Option<Thrown>)
      modifies this
      ensures steps == old(steps) + [CleanedUp(error)]
    {
      error := *;
      steps := steps + [CleanedUp(error)];
    }
  }

  /** withFanoutFinalCleanup: the cleanup runs exactly once, after the work, whatever the work did;
      no error of either is lost and no result is delivered unless both succeeded. */
  method WithFanoutFinalCleanup<T(0)>(w: Workload<T>) returns (r: Final<T>)
    modifies w
    ensures exists worked: Result<T>, cleaned: Option<Thrown> ::
      && w.steps == old(w.steps) + [Worked(worked), CleanedUp(cleaned)]
      && (r.Delivered? <==> worked.Ok? && cleaned.None?) && (r.Delivered? ==> worked == Ok(r.value))
      && (r.Rethrown? ==> worked == Err(r.error) || (worked.Ok? && cleaned == Some(r.error)))
      && (r.BothFailed? <==> worked.Err? && cleaned.Some?)
      && (r.BothFailed? ==> worked == Err(r.primary) && cleaned == Some(r.cleanup))
  {
    var worked := w.Work();
    var cleaned := w.Cleanup();
    if worked.Err? && cleaned.Some? {
      return BothFailed(worked.error, cleaned.value);
    }
    if worked.Err? {
      return Final.Rethrown(worked.error);
    }
    if cleaned.Some? {
      return Final.Rethrown(cleaned.value);
    }
    r := Delivered(worked.value);
  }
}
