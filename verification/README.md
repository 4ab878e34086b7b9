# Dafny models of Archon's credential rotation, pools, receipts and narration

This project models seven parts of the repository in Dafny 4.11 and proves what they promise.
`dafny verify dfyconfig.toml` checks all of it.

| file | part |
|---|---|
| `RotationWorld`, `RotationPolls`, `RotationRecovery`, `Rotation` | the two-principal credential rotation of `scripts/rotate-runtime-secret.ts` |
| `PoolController`, `Transactions` | the credential pool controller and the serializable retry of `src/db/client.ts` |
| `FanoutCleanup` | the batched deletion of `scripts/fanout-demo.ts` |
| `Crc`, `Zip`, `BoundedBody` | the CRC-32, the strict ZIP reader and the bounded body reader of `scripts/final-submission-gate.ts` |
| `SqlSplitter`, `SqlQuotes` | the statement splitter of `scripts/apply-schema.ts` |
| `ScaleLog`, `ScaleCounts`, `CanonicalJson`, `JsonText` | the lifecycle log, canonical JSON and the receipt seal of `scripts/evaluate-memory-architecture.ts` |
| `Narrator`, `NarratorCuts`, `NarratorOutcomes`, `NarratorGaps`, `NumberLexemes`, `NumberForms`, `NormalizedNumbers`, `AmountNotations`, `NumberGaps`, `NumberSpelling` | the grounded answers of `src/agents/narrator.ts` |
| `Options`, `Text` | shared definitions: absent values, trimming, decimal numerals |

## How it is built

Code that works step by step is a method with a loop or a class with the source's own fields, and
is tied to a function or predicate about which the properties are then proved.

**Rotation.** `Providers` is everything outside the program: version labels, the principal each
version names, users with a login flag and sessions, a clock. Between any two calls clients may close
sessions, and open them where login is on. Every call may fail before its effect, fail after it, or
succeed. `history` keeps every state the world was in, so a claim about `history` is a claim about
every reachable state, forward or recovering; `log` keeps what the program observed, in order.
Premises: no other rotation is in progress; moving AWSCURRENT puts AWSPREVIOUS on the version it
leaves; a version's material never changes; version inventories are current while a label read may
return any version that ever held the label; an effect takes place during its call or not at all; the
request token is new.

**Pool controller.** Between two awaits the code has the process to itself, so each stretch is one
step; the steps of any number of `get`, refresh, `close` and `getPool` calls interleave freely. A run
is any sequence of enabled events. `refreshMs` is taken not to throw and to stay the same.

**Transactions.** The database is serializable: what commits behaves as if nobody else wrote since it
began, others may commit anything between attempts, SQLSTATE 40001 means the transaction did not
commit, and any other error of COMMIT leaves that open. UUIDs are their 128-bit values.

**ZIP and CRC.** Inflate, UTF-8 decoding and `JSON.parse` are parameters. Accepting is compared with
a writer that lays out an archive by sections 4.3.7, 4.3.9, 4.3.12 and 4.3.16 of PKWARE APPNOTE 6.3
and leaves every field the reader ignores free.

**Text.** In the splitter and the narrator a character is a Unicode scalar; in canonical JSON a string
is a sequence of UTF-16 code units, and a number is its printed spelling, or infinite where the text
is too large for a double. What JSON.parse gives for a printed text is characterised, not computed: the
value whose compact text is the given one without white space between tokens.

**Narrator.** Extracting the significant words of a text, recognising instruction-like evidence, and how
Number prints a numeral are parameters; the only premises of the general results are that a lone full
stop has no words and, where amounts of different numbers are compared, that Number prints neither a
colon nor a percent sign. The rest is concrete: splitting, markers, rendering, validating, both
narrators, and the numbers of a text, from the pattern with its currencies and percent signs to the
normalised spelling. A number is *own* to a memory if it is among the numbers of that memory taken by
itself; the code looks numbers up in the cited memories joined with spaces.

## Where the code does less than it seems to

Each of these is proved, with the exact condition where there is one.

- A user of the generated name that existed before is taken for this run's own, and the recovery drops
  it. AWSCURRENT stays served for every name but the served principal's own, and without faults
  exactly then (`Rotation.Run.RotateRuntimeCredential`).
- `recoverFailedRotation` would report "no mutation to recover" after a completed rollback for flags
  no run produces (`RotationRecovery.UnorderedFlagsMisreport`); for flags in order it does not
  (`RotationRecovery.NoMutationMeansNone`).
- `close` can clear the promise of a refresh newer than the one it awaited; exactly then is a refresh
  left in flight that `get` does not join (`PoolController.SingleFlightExact`).
- When a refresh fails, a get waiting on it is rejected exactly if there was no pool when it began, even
  if one was installed meanwhile (`PoolController.RejectedExactlyWithoutPool`, `LateInstallIsTooLate`).
- A get can return a pool that is already ended: exactly when that pool is no longer the current one
  (`PoolController.HandedOutEndedExactly`, `EndedPoolIsReturned`).
- The throw after the retry loop of `withSerializableRetry` is reached exactly when the attempt limit
  is NaN or a fraction and every attempt it allows failed with 40001
  (`Transactions.WithSerializableRetry`, `Transactions.WholeLimits`).
- `canonicalize` keeps a value, up to key order, exactly when no object in it owns `__proto__`
  (`CanonicalJson.CanonicalizeKeepsExactly`). A file keeps it exactly when, besides, it has no infinite
  number, as JSON.parse makes of 1e400: that is written as `null` (`CanonicalJson.RereadExactly`,
  `ProtoIsLost`, `InfinityIsLost`).
- A reported query accuracy of 1 means at most one wrong answer in two million, because of rounding
  (`ScaleLog.ReportedPerfection`).
- An answer the offline narrator calls verified need not cite every memory: it does exactly when every
  memory has a claim or is mentioned by a marker inside one (`Narrator.FakeVerifiesExtracts`,
  `NarratorGaps.FakeOmitsBlank`).
- Joining the cited memories can make a number that none of them has, and lose one that one has. The
  joined text has exactly the lexemes of the single memories iff no lexeme reaches over a seam
  (`NumberLexemes.SeamlessExactly`), and then the validator decides by the memories' own numbers
  (`Narrator.ValidIffAttributed`). With the memories "Paid in EUR" and "500 staff" it accepts
  "Paid in EUR 500 staff [1] [2]." and refuses "500 staff [1] [2]." (`NarratorGaps.SeamMisleads`).
  Memories that end with a full stop are safe (`Narrator.ClosedMemoriesAreSeamless`). For the set of
  numbers the condition is sufficient only: a lexeme over the seam may add a number that is there
  anyway (`NumberGaps.SpanMayKeepNumbers`).
- `prefixCurrency ?? suffixCurrency` is the empty string when nothing stands in front, so an amount with a
  currency behind alone loses it. Two amounts of one number in different currencies compare equal exactly
  when each has its currency behind and none in front: 500 EUR and 500USD do. In the same currencies they
  compare equal exactly when the same one, or none, is in front: €63,800 and EUR 63,800 do, EUR 500 and
  500 EUR do not, although the comment above says that equivalent forms collapse
  (`AmountNotations.ComparedExactly`). What the comment says of conflicting currencies on both sides holds
  (`AmountNotations.ConflictStaysApart`). The claim "Paid 500 USD [1]." passes against the memory
  "Paid 500 EUR." (`NarratorGaps.CurrencyMayChange`). In front, euro and euros are taken for EUR followed
  by letters, which are then read with the digits (`AmountNotations.Normalizes`).
- `normalizeNumber` reads a decimal with one to three digits before the mark and exactly three after
  it as grouped: 1.234 and 1,234 both become 1234. The number is kept exactly where that does not
  happen or all digits are 0 (`NumberSpelling.DecimalsNormaliseExactly`).
- CRC-32 misses some bursts of 33 bits (`Crc.BurstOf33BitsMissed`).
- The reader takes the last end signature. It finds the real one exactly when the comment, with its
  two length bytes in front, contains none that at least 18 bytes follow (`Zip.FoundIffClear`). A comment
  of 19280 bytes that starts with 05 06 fails this without containing the signature, because its length
  is written as 50 4b (`Zip.CommentsThatHide`, `Zip.ClearExactly`).

## Model

| member | source | states |
|---|---|---|
| Rotation.Run.RotateRuntimeCredential | scripts/rotate-runtime-secret.ts:1029-1352 | in every run only users with NOLOGIN and no session are dropped; for every candidate name but the served principal's, in every state AWSCURRENT names a principal that can log in; retirement never starts before both labels and the hosted app were seen to have moved; on success the candidate is current, the old principal gone, AWSPENDING off, AWSPREVIOUS on the old version, and every proof the receipt claims was made in order; on a failure needing no operator review the old version is current, its principal could log in throughout, and nothing of the candidate is left; without faults it succeeds exactly when the name is new, a taken name loses its user, and AWSCURRENT ends served exactly when the name is not the served principal's |
| Rotation.Run.Forward | scripts/rotate-runtime-secret.ts:1029-1180 | whichever call fails, the flags are in order and the world fits them: candidate able to log in once created, AWSCURRENT on its version once acknowledged, nobody harmed so far |
| Rotation.Run.Prepare | scripts/rotate-runtime-secret.ts:1029-1056 | ends with a candidate that can log in and is not the served principal, the old principal proved before it was named, or throws; a name that exists is never created over |
| Rotation.Run.CreateRuntimePrincipal | scripts/rotate-runtime-secret.ts:378-424 | success means the name was free, ten role statements were accepted, and the principal was proved and can log in |
| Rotation.Run.Publish | scripts/rotate-runtime-secret.ts:1065-1090 | the token is remembered before the call, so that a lost response leaves a state the recovery can rely on; success means AWSPENDING was seen on it and its credential proved |
| Rotation.Run.CutOver | scripts/rotate-runtime-secret.ts:1092-1140 | attempted only after the pending version and credential were proved; acknowledged only when AWSCURRENT really moved, and then AWSPREVIOUS is on the version read at the start, which was the current one even if that read could be stale |
| Rotation.Run.Retire | scripts/rotate-runtime-secret.ts:1142-1180 | disables, drains and drops the old principal and takes AWSPENDING off, at no point leaving AWSCURRENT unserved; success means the old login was refused before the closing observations |
| Rotation.Run.ObserveConclusion | scripts/rotate-runtime-secret.ts:1155-1179 | both labels, the candidate's login and the hosted app are observed afresh |
| Rotation.FitsCutOver | scripts/rotate-runtime-secret.ts:1092-1102 | moving AWSCURRENT, with or without an answer, leaves it on a version whose principal can log in |
| Rotation.FitsRetire | scripts/rotate-runtime-secret.ts:1142-1152 | once AWSCURRENT is on the candidate's version, disabling or dropping the old principal harms nobody |
| Rotation.RestoredByRollback | scripts/rotate-runtime-secret.ts:1262-1273 | before retirement, moving AWSCURRENT back restores the original version with a principal that can log in |
| Rotation.RestoredDrop | scripts/rotate-runtime-secret.ts:1346-1347 | with the original version current, disabling or dropping the candidate harms nobody |
| Rotation.UnharmedIsServed | scripts/rotate-runtime-secret.ts:1029-1352 | an unharmed history shows AWSCURRENT served in every state and only drained users dropped |
| Rotation.Run.RecoverFailedRotation | scripts/rotate-runtime-secret.ts:858-954 | takes the actions and gives the report that Recover does on the answers it got; with retirement started it changes no account; without operator review the original version is current and the candidate cleaned away; a rollback is called complete only if the hosted app was seen to follow |
| Rotation.Run.Reverse | scripts/rotate-runtime-secret.ts:890-921 | observes unless the cutover was proved, rolls back only then, and on success the original version is current |
| Rotation.Run.ReconcilePreparedPrincipal | scripts/rotate-runtime-secret.ts:1242-1248 | tells whether a user of the candidate's name exists, whoever made it |
| Rotation.Run.ObserveCandidateAsCurrent | scripts/rotate-runtime-secret.ts:1250-1260 | succeeds only if AWSCURRENT was on the candidate's version at some time |
| Rotation.Run.RollbackToPrevious | scripts/rotate-runtime-secret.ts:1262-1286 | success means AWSCURRENT is back on the original version and the hosted app was seen to follow; failure harms nobody |
| Rotation.Run.CleanupPreparedPrincipal | scripts/rotate-runtime-secret.ts:1288-1348 | success means no user of that name and neither AWSPENDING nor AWSPREVIOUS on the token's version, also when the first Put's response was lost |
| RotationRecovery.RecoveryIsDisciplined | scripts/rotate-runtime-secret.ts:858-935 | each action at most once and in order, none after one that threw, only the catalog query once retirement started, rollback only after proof or observation, cleanup only if cutover was never attempted or was rolled back |
| RotationRecovery.ReportIsAccurate | scripts/rotate-runtime-secret.ts:858-954 | operator review is asked for exactly when retirement had started or an action threw; a step is called complete exactly when taken and completed |
| RotationRecovery.ErrorNamesItsCause | scripts/rotate-runtime-secret.ts:862-935 | each of the five review codes is reported exactly when its action threw, or when retirement had started and the catalog query had not thrown |
| RotationRecovery.ResultNamesWhatWasDone | scripts/rotate-runtime-secret.ts:936-954 | rolled-back-and-cleaned exactly when both were done, cleaned-prepared-principal exactly when only the cleanup was, no-mutation-to-recover exactly when no review is asked for and no cleanup was tried |
| RotationRecovery.ReviewIsNamed | scripts/rotate-runtime-secret.ts:862-935 | the cleanup is left to the operator exactly where a candidate may be left, the rollback exactly where a cutover that was or may have been made was not undone |
| RotationRecovery.NoMutationMeansNone | scripts/rotate-runtime-secret.ts:948-954 | with flags in order, "no mutation to recover" means no cutover, no candidate and at most a catalog query |
| RotationRecovery.UnorderedFlagsMisreport | scripts/rotate-runtime-secret.ts:907-954 | flags out of order can have a rollback reported as no mutation |
| RotationPolls.WaitForSecretStageVersion | scripts/rotate-runtime-secret.ts:204-226 | success means the version holds or once held the label; errors and stale reads never count as success; failure means a minute has passed |
| RotationPolls.WaitForVersionStageAbsent | scripts/rotate-runtime-secret.ts:755-802 | success means the label is not on the version, whatever the paging and whichever listings failed; failure means a minute has passed |
| RotationPolls.WalkInventory | scripts/rotate-runtime-secret.ts:765-791 | succeeds exactly if there are at most ten pages and at most one entry of the version on all of them, and then returns that entry, or that there is none |
| RotationPolls.AbsenceIsReal | scripts/rotate-runtime-secret.ts:777-793 | a complete inventory without the label on the version's entry, or without an entry, means the label is off |
| RotationPolls.DisableAndDrainPrincipal | scripts/rotate-runtime-secret.ts:622-668 | success means NOLOGIN and no live session, with clients coming and going all the while; nothing else changes; unless a call fails, failure means that the grace period and twelve polls have passed |
| RotationPolls.DrainDisabled | scripts/rotate-runtime-secret.ts:629-668 | from NOLOGIN on only clients and cancellations act, and success means drained |
| RotationPolls.DropRuntimePrincipal | scripts/rotate-runtime-secret.ts:700-738 | success means the user is gone, lost responses reconciled; a drop of a drained user keeps the history harmless; unless another call fails, failure means the user is still there |
| RotationWorld.Providers.DropUser | scripts/rotate-runtime-secret.ts:720-722 | ok, failed before or failed after dropping; harmless if the user was drained when the call began, since clients cannot log in meanwhile |
| RotationWorld.Providers.MoveCurrent | scripts/rotate-runtime-secret.ts:1094-1101 | refused unless AWSCURRENT is on the version it is moved from; otherwise moves it and leaves AWSPREVIOUS there |
| RotationWorld.Providers.PutSecretValue | scripts/rotate-runtime-secret.ts:1071-1078 | stores the version and takes AWSPENDING, once per token |
| RotationWorld.Providers.WaitForHostedPrincipal | scripts/rotate-runtime-secret.ts:497-598 | a time-out, or an observation that the hosted app served the principal |
| RotationWorld.Providers.ReadSecretStage | scripts/rotate-runtime-secret.ts:188-199 | an error, or a version that holds or once held the label |
| RotationWorld.AppendPreserves | scripts/rotate-runtime-secret.ts:963-1352 | one more state keeps a harmless history harmless if it serves AWSCURRENT and drops only drained users |
| PoolController.EveryPoolIsAccountedFor | src/db/client.ts:63-147 | in every run each pool is in exactly one of probing, current and ended, ended at most once, and the current one is proved or directly installed, never ended, under its own version |
| PoolController.ResolutionDecides | src/db/client.ts:63-77 | in every run: resolving a secret of the current pool's own version creates, ends and swaps nothing and moves the next check to the cadence; any other resolution creates one pool from what was resolved and has the refresh probe it |
| PoolController.ResolvedCredentialIsUsed | src/db/client.ts:75-97 | in every run, whatever happens between: once its probe has succeeded, the pool built from a resolution is current under the resolved version, due after the cadence or, without a secret, never, and only the pool it replaces has been ended |
| PoolController.FastPathIsFresh | src/db/client.ts:99-105 | in every run a secret-backed pool is returned without asking less than the longer of the cadence and 15 s after the last completed attempt |
| PoolController.RefreshIsPaced | src/db/client.ts:99-122 | in every run a get starts a refresh beside a pool no sooner than the shorter of the cadence and 15 s after the last completed attempt, failed ones included |
| PoolController.GetsAreAnswered | src/db/client.ts:99-123 | in every run without an overtaking close at most one refresh is in flight, and a get that found a pool is rejected only if a close emptied the controller meanwhile |
| PoolController.SingleFlightExact | src/db/client.ts:106-147 | the refresh in flight stays the one get joins exactly as long as no close resumes beside a newer refresh |
| PoolController.OvertakingCloseOverlaps | src/db/client.ts:137-147 | a close that awaited one refresh can clear the next one's promise, after which two are in flight |
| PoolController.RejectedExactlyWithoutPool | src/db/client.ts:106-121 | in every run without an overtaking close: of a failed refresh, a waiting get is given the pool that was there when it began, and is rejected exactly if there was none, whatever was installed since |
| PoolController.FallbackIsCurrent | src/db/client.ts:106-122 | in every run: a failed refresh is answered with the pool it began with exactly if that is still current, which is then due again after 15 s and not ended |
| PoolController.LateInstallIsTooLate | src/db/client.ts:106-121 | such a run: a pool installed during a failing first refresh does not save the get waiting on it |
| PoolController.HandedOutEndedExactly | src/db/client.ts:99-147 | in every run a pool that a refresh answered with or a get returned is ended exactly when it is no longer current |
| PoolController.EndedPoolIsReturned | src/db/client.ts:118-147 | a close after the refresh and before the return has the get return an ended pool |
| PoolController.StepKeepsSound | src/db/client.ts:63-147 | every step keeps the accounting of pools and the due date of the next check |
| PoolController.StepKeepsPromises | src/db/client.ts:99-123 | every step but an overtaking close keeps each waiting get backed by an answer or a pool to fall back to |
| PoolController.RefreshCadence | src/db/client.ts:151-167 | the cadence is 30 s for blank text, a canonical numeral of 15 to 300 seconds in milliseconds, and otherwise refused |
| PoolController.CredentialPoolController.Get | src/db/client.ts:99-123 | the step of get: the current pool, never an ended one, or the one refresh to wait for |
| PoolController.CredentialPoolController.RefreshResolved | src/db/client.ts:63-76 | the step after the credential arrives |
| PoolController.CredentialPoolController.RefreshProved | src/db/client.ts:82-95 | the step after a successful probe: the pointer swaps to the candidate and the previous pool is ended |
| PoolController.CredentialPoolController.RefreshUnproved | src/db/client.ts:75-80 | the step after a failed probe: the candidate is ended and the current pool stays |
| PoolController.CredentialPoolController.Catch | src/db/client.ts:109-117 | the fallback to the pool the refresh began with, only if it is still current |
| PoolController.CredentialPoolController.FinallyClear | src/db/client.ts:118-120 | the finally handler clears whatever promise there is |
| PoolController.CredentialPoolController.Close | src/db/client.ts:137-147 | the step of close: awaits a refresh in flight, else empties the controller and ends its pool |
| PoolController.CredentialPoolController.CloseResumes | src/db/client.ts:141-146 | the rest of close after its await: empties the controller and ends its pool |
| PoolController.CredentialPoolController.GetPool | src/db/client.ts:338-348 | the current pool, or a new one installed directly, or nothing changed when no URL is set |
| Transactions.WithSerializableRetry | src/db/client.ts:381-419 | a 40001 is retried as long as the limit allows and anything else is thrown at once; if it returns, exactly one run of the callback was committed, on the state its own attempt began with; if it throws, nothing of its own was, unless a COMMIT failed with another error than 40001; attempts within the clamped limit, every client released, every failed attempt rolled back, the last throw exactly on NaN or a fraction |
| Transactions.WorkAndCommit | src/db/client.ts:398-400 | the callback and COMMIT leave its work on the state it saw committed, or nothing, and a 40001 always nothing |
| Transactions.TryTransaction | src/db/client.ts:397-400 | one attempt commits the callback's work on the state it saw, or commits nothing, or failed at COMMIT with an error other than 40001 |
| Transactions.WholeLimits | src/db/client.ts:385-389 | which limits a caller may pass so that the last throw is unreachable, and that no other is safe |
| Transactions.AttemptsAllowed | src/db/client.ts:385-391 | four attempts by default, otherwise the number asked for, from 1 to 10 and rounded down, and none for NaN |
| Transactions.RoundsAllowed | src/db/client.ts:391-409 | how a fractional limit bounds the rounds and is never equal to an attempt number |
| FanoutCleanup.DeleteFanoutRowsInBatches | scripts/fanout-demo.ts:251-339 | whatever others write: ids are deleted in strictly ascending order, deletedRows is what its commits removed, and success means the table was seen empty; alone: deletedRows is the table's size in the fewest batches of 100, and it never fails on rows left; every transaction begins before the deadline |
| FanoutCleanup.CleanupTransaction | scripts/fanout-demo.ts:174-249 | only a 40001 is followed by another attempt, after its wait, and is thrown only after eight attempts or for want of time, which the error names; every attempt begins before the deadline with the longest statement timeout that ends by it; success is one commit of the work on the state it saw; every transaction begun is committed or rolled back; the last throw is unreachable |
| FanoutCleanup.WaitsDouble | scripts/fanout-demo.ts:235-245 | the waits are 25, 50, 100, 200, 400 and then 500 ms |
| FanoutCleanup.LongestWait | scripts/fanout-demo.ts:235-245 | the seven waits together are 1775 ms |
| FanoutCleanup.TryCleanup | scripts/fanout-demo.ts:186-219 | a failed rollback turns a 40001 into an error that is not retried; a commit without an answer is never retried |
| FanoutCleanup.BatchTakesLowest | scripts/fanout-demo.ts:277-290 | a batch is the lowest rows past the cursor, at most 100; fewer than 100 are all there are, and what remains past the cursor is past the last row |
| FanoutCleanup.BatchProgresses | scripts/fanout-demo.ts:272-303 | alone, each batch moves everything up to the cursor from the table to the count |
| FanoutCleanup.FinalCount | scripts/fanout-demo.ts:312-330 | success means the count saw no row |
| FanoutCleanup.CleanupLimit | scripts/fanout-demo.ts:160-168 | a limit within its maximum is rounded down, below 1 it is 1, above it is the maximum, and so it is for anything not finite |
| FanoutCleanup.WithFanoutFinalCleanup | scripts/fanout-demo.ts:342-377 | the cleanup happens once, after the work, in every case; no error is lost and a result is delivered only if both succeeded |
| Crc.Crc32 | scripts/final-submission-gate.ts:1035-1044 | the two nested loops compute Checksum |
| Crc.CheckValue | scripts/final-submission-gate.ts:1035-1044 | the checksum of the ASCII digits 123456789 is cbf43926 |
| Crc.TableForm | scripts/final-submission-gate.ts:1035-1044 | the bitwise step equals the table-driven step of section 8 of RFC 1952 |
| Crc.SerialIsWordShift | scripts/final-submission-gate.ts:1037-1041 | up to 32 bits act on the register as one word xored in before shifting |
| Crc.ShiftLinear | scripts/final-submission-gate.ts:1039-1041 | the bit step is linear over xor, any number of times |
| Crc.ShiftInjective | scripts/final-submission-gate.ts:1039-1041 | the bit step loses nothing, any number of times |
| Crc.BurstOf32BitsDetected | scripts/final-submission-gate.ts:1035-1044 | payloads of any length that differ only within 32 consecutive bits have different checksums |
| Crc.BurstOfFourBytesDetected | scripts/final-submission-gate.ts:1035-1044 | the same for four consecutive bytes |
| Crc.BurstOf33BitsMissed | scripts/final-submission-gate.ts:1035-1044 | 32 is the most: two payloads differing within 33 bits share a checksum |
| Zip.ExtractSingleJsonArtifact | scripts/final-submission-gate.ts:1046-1172 | it accepts exactly the writer's one-entry archives under the expected path, and returns the parse of the one body such an archive holds; every read is in bounds; in bytes, what it accepts has the three signatures and that of the descriptor where bit 3 is set, method 0 or 8, flags 0, 8, 800 or 808 hexadecimal, one disk, one entry and a size of 2 to 65536 |
| Zip.FindEndRecord | scripts/final-submission-gate.ts:1059-1067 | the last end signature a 16-bit comment length can reach |
| Zip.EndRecordIsCanonical | scripts/final-submission-gate.ts:1069-1087 | the first group of checks decides StructureOk |
| Zip.CentralEntryIsCanonical | scripts/final-submission-gate.ts:1089-1115 | the second group decides EntryOk |
| Zip.LocalEntryIsCanonical | scripts/final-submission-gate.ts:1117-1152 | the third group decides LocalOk |
| Zip.WrittenIffTiled | scripts/final-submission-gate.ts:1069-1152 | a buffer is the writer's output exactly when local header, data, optional descriptor, central record and end record tile it with no gap |
| Zip.EntryTiles | scripts/final-submission-gate.ts:1069-1152 | passing all checks means the headers tile the whole buffer and agree with each other |
| Zip.ChecksInBytes | scripts/final-submission-gate.ts:1069-1152 | what passes the checks, in bytes |
| Zip.AcceptableReads | scripts/final-submission-gate.ts:1055-1166 | every acceptable archive passes every check |
| Zip.ReadsAcceptable | scripts/final-submission-gate.ts:1055-1166 | every buffer that passes every check is an acceptable archive |
| Zip.AcceptableUnique | scripts/final-submission-gate.ts:1055-1166 | an accepted buffer determines its entry and its body |
| Zip.FoundIffClear | scripts/final-submission-gate.ts:1059-1067 | for every archive comment, the last signature is the real one exactly when the length and the comment together hold none that 18 bytes follow |
| Zip.ClearExactly | scripts/final-submission-gate.ts:1059-1067 | the three ways for a comment to hide the end record: the signature inside it, or the signature's first one or two bytes supplied by its length |
| Zip.CommentsThatHide | scripts/final-submission-gate.ts:1059-1067 | a comment of each of two kinds, one of which does not contain the signature |
| Zip.WrittenIsAcceptable | scripts/final-submission-gate.ts:1055-1166 | an archive with an intact stored or deflated body and any archive comment is acceptable as what was written exactly when it is at most 1000000 bytes and its comment is clear |
| Zip.BothMethods | scripts/final-submission-gate.ts:1107-1163 | an archive with method 8 is acceptable as a body exactly when inflating gives that body, and with method 0 exactly when the data is that body |
| Zip.RoundTrip | scripts/final-submission-gate.ts:1046-1166 | a stored body of 2 to 65536 bytes is recovered exactly, with and without data descriptor, iff the archive comment, whatever it is, is clear |
| BoundedBody.ReadBoundedResponseBody | scripts/final-submission-gate.ts:418-462 | success exactly on a valid bound and a stream of byte chunks totalling 1 to the bound, and then those bytes in order; only exceeding the bound cancels the stream, at the first chunk that does |
| BoundedBody.Collect | scripts/final-submission-gate.ts:435-448 | reads the whole stream or stops at the first read that must be refused |
| BoundedBody.Fill | scripts/final-submission-gate.ts:455-461 | the array holds the chunks one after the other |
| BoundedBody.StopsOnce | scripts/final-submission-gate.ts:435-448 | the read it stops at is the only one it could |
| SqlSplitter.SplitSqlStatements | scripts/apply-schema.ts:1249-1327 | the loop throws iff the recursive lexer ends inside a quote, and otherwise returns the nonempty trimmed pieces in order |
| SqlSplitter.PiecesRejoin | scripts/apply-schema.ts:1249-1327 | the raw pieces joined with semicolons are the input |
| SqlSplitter.TokenLocal | scripts/apply-schema.ts:1256-1319 | quote and dollar-tag lookahead never crosses a semicolon or white space |
| SqlSplitter.LexOfConcat | scripts/apply-schema.ts:1256-1319 | lexing continues across such a boundary as if it had stopped there |
| SqlSplitter.PiecesAreClosed | scripts/apply-schema.ts:1256-1327 | no piece has an open quote or a semicolon outside quotes |
| SqlSplitter.SplitIsPresentable | scripts/apply-schema.ts:1312-1326 | every statement returned is nonempty, trimmed and closed |
| SqlSplitter.SplitUndoesJoin | scripts/apply-schema.ts:1249-1327 | splitting the join of such statements gives them back |
| SqlSplitter.SplitIdempotent | scripts/apply-schema.ts:1249-1327 | splitting the join of a split changes nothing |
| SqlSplitter.CutIsUnique | scripts/apply-schema.ts:1249-1327 | the cut into closed pieces is the only one there is, and exists iff the splitter does not throw |
| SqlQuotes.DollarQuoteIsWhole | scripts/apply-schema.ts:1257-1266 | from $$, or $ around a name of letters, digits and underscores, to the first repetition of the same tag nothing is cut, whatever is between |
| SqlQuotes.QuotationIsWhole | scripts/apply-schema.ts:1268-1298 | from a single or double quote to the first that is not doubled nothing is cut |
| SqlQuotes.SemicolonCuts | scripts/apply-schema.ts:1312-1317 | outside quotes a semicolon cuts |
| SqlQuotes.OtherIsKept | scripts/apply-schema.ts:1301-1319 | every other character, a dollar sign that begins no tag among them, is kept |
| SqlQuotes.OpenQuoteThrows | scripts/apply-schema.ts:1321-1324 | a dollar quote without its tag again, or a quote without its end, throws |
| ScaleLog.EvaluateScaleCorpus | scripts/evaluate-memory-architecture.ts:1180-1311 | the streaming loop computes the report of the folded log |
| ScaleLog.CheckerExact | scripts/evaluate-memory-architecture.ts:1217-1294 | no invalid transition is reported iff lines are numbered 0, 1, 2, ... and each entity's projection is one whole lifecycle with constant terms and controller-made rejections |
| ScaleLog.CheckerTracks | scripts/evaluate-memory-architecture.ts:1217-1290 | at every line of any interleaving, no complaint so far iff every projection so far is the start of a lifecycle |
| ScaleLog.GenerateScaleCorpus | scripts/evaluate-memory-architecture.ts:1160-1178 | the nested loops write the closed form |
| ScaleLog.GeneratorMeetsChecker | scripts/evaluate-memory-architecture.ts:1094-1311 | for every entity count E the report is 5E records, E entities, accuracy 1, the ceiling of E/3 actions expected and executed, E less the floor of E/3 suppressions, and nothing unauthorized or invalid |
| ScaleLog.EntityRun | scripts/evaluate-memory-architecture.ts:1094-1158 | five generated events take a fresh entity through one correctly answered life, after any log |
| ScaleLog.LinesOfEntity | scripts/evaluate-memory-architecture.ts:1094-1158 | sessions, evidence names, outcomes, actors and idempotency of an entity's five lines |
| ScaleLog.EntityIdInjective | scripts/evaluate-memory-architecture.ts:1095 | padded entity identifiers are distinct, beyond six digits too |
| ScaleLog.ReportedPerfection | scripts/evaluate-memory-architecture.ts:1298-1305 | for every log with a query, a reported accuracy of 1 means exactly that at most one answer in two million is wrong |
| ScaleCounts.CountersCount | scripts/evaluate-memory-architecture.ts:1217-1294 | for any log, each counter is a number of lines: queries of opened entities and those answered rightly by the evidence in force, approvals by the controller and by others, retries after a decision; what is invalid is the number of flaws of all lines |
| ScaleCounts.ReportCounts | scripts/evaluate-memory-architecture.ts:1290-1311 | the report adds to them the entities opened, and as invalid those that did not come to their query |
| CanonicalJson.CanonicalMembers | scripts/evaluate-memory-architecture.ts:232-242 | a canonical object has the canonicalized members but `__proto__`, in enumeration order |
| JsonText.MembersInOrder | scripts/evaluate-memory-architecture.ts:232-242 | the members of a canonical object: array indices first by increasing number, then keys by code units, a proper prefix first |
| CanonicalJson.CanonicalizeIdempotent | scripts/evaluate-memory-architecture.ts:232-242 | canonicalizing twice is canonicalizing once |
| CanonicalJson.CanonicalizeKeepsExactly | scripts/evaluate-memory-architecture.ts:232-242 | a value is kept up to key order exactly when no object in it owns `__proto__` |
| CanonicalJson.PrintUnique | scripts/evaluate-memory-architecture.ts:244-246 | printed text determines what was written, infinite numbers being written as null, and where it ends |
| CanonicalJson.CanonicalTextIffEquivalent | scripts/evaluate-memory-architecture.ts:244-246 | equal canonical text iff what is written of the values is equal up to key order and `__proto__` members |
| CanonicalJson.CanonicalTextIffSameValue | scripts/evaluate-memory-architecture.ts:244-246 | for values without such members and without infinite numbers: equal canonical text iff equal up to key order |
| CanonicalJson.ProtoIsLost | scripts/evaluate-memory-architecture.ts:235-239 | an object that owns `__proto__` prints as if it did not |
| CanonicalJson.InfinityIsLost | scripts/evaluate-memory-architecture.ts:244-246 | a member 1e400 and the same member null have one canonical text |
| CanonicalJson.MinifyPrettyJson | scripts/evaluate-memory-architecture.ts:248-250 | the indented file without the white space between its tokens is the canonical text |
| JsonText.ShortEscapes | scripts/evaluate-memory-architecture.ts:244-246 | \\b, \\t, \\n, \\f, \\r, the quote and the backslash as JSON.stringify escapes them |
| JsonText.UnicodeEscapes | scripts/evaluate-memory-architecture.ts:244-246 | other control characters and lone surrogates as \\u and four hexadecimal digits |
| JsonText.OtherUnits | scripts/evaluate-memory-architecture.ts:244-246 | every other code unit as it is |
| JsonText.StringsAreQuoted | scripts/evaluate-memory-architecture.ts:244-246 | a string is its units between quotes, a surrogate pair as it is |
| JsonText.LiteralsAreWords | scripts/evaluate-memory-architecture.ts:244-246 | null, true and false are those words, a number its spelling |
| JsonText.NumbersAreSpelled | scripts/evaluate-memory-architecture.ts:244-246 | the characters of a number's spelling |
| JsonText.NamesAreSpelled | scripts/evaluate-memory-architecture.ts:232-242 | the two keys that are treated apart: `__proto__` and receipt |
| JsonText.ContainersAreBracketed | scripts/evaluate-memory-architecture.ts:244-246 | elements with commas between them in brackets; a member is its quoted key, a colon and its value |
| JsonText.FilesAreIndented | scripts/evaluate-memory-architecture.ts:248-250 | in a file each element is on a line of its own two spaces further in, a space follows each colon, and a line end comes last |
| JsonText.KeysAreSorted | scripts/evaluate-memory-architecture.ts:232-246 | b and then a is written as a and then b |
| CanonicalJson.RereadExactly | scripts/evaluate-memory-architecture.ts:232-267 | written to a file and read back, a value is itself up to key order exactly when no object in it owns `__proto__` and no number in it is infinite |
| CanonicalJson.SealSurvivesRereading | scripts/evaluate-memory-architecture.ts:248-267 | writing a sealed document with prettyJson, reading it back and removing the receipt gives the same digest input |
| CanonicalJson.SealDetectsChange | scripts/evaluate-memory-architecture.ts:1507-1510 | the digest input equals the sealed body's exactly when what is written of the rest of the document is what is written of that body, up to key order and `__proto__` members |
| Narrator.ExtractiveResplits | src/agents/narrator.ts:486-515 | a non-null extractive answer splits back into exactly one claim per claim of the evidence, in order, and is grounded |
| Narrator.SplitUndoesJoin | src/agents/narrator.ts:486-491 | sentences joined with spaces split into themselves, an empty evidence losing only its leading space |
| Narrator.ClaimsAreClaimLike | src/agents/narrator.ts:486-491 | a claim is trimmed, not empty, and has no place left to split |
| NarratorCuts.CutTiles | src/agents/narrator.ts:486-491 | nothing is lost in splitting: the pieces and the gaps between them make up the answer, and each gap is all the white space after a full stop, exclamation or question mark, or else all the line ends there are |
| Text.WhiteSpaceIs | src/agents/narrator.ts:486-491 | which code points are white space |
| Narrator.EvidenceIsPrefix | src/agents/narrator.ts:504-507 | the evidence is a prefix of its claim ending in neither white space nor a terminator |
| Narrator.ExtractiveCites | src/agents/narrator.ts:502-510 | every memory with a claim is cited |
| Narrator.ExtractiveCitesExactly | src/agents/narrator.ts:459-484 | the rendering cites every memory iff each has a claim or is mentioned by a marker inside a claim |
| Narrator.ExtractiveNumbersAreOwn | src/agents/narrator.ts:401-411 | a rendered claim whose evidence has no marker has only numbers of the one memory it was taken from |
| Narrator.ExtractiveIsAttributed | src/agents/narrator.ts:401-411 | where no evidence has a marker, every number of every claim of an extractive answer is own to the memory cited |
| Narrator.MarkerIsFound | src/agents/narrator.ts:369-374 | a marker anywhere in a text is found, whatever brackets surround it |
| Narrator.ValidExactly | src/agents/narrator.ts:355-456 | an answer is valid exactly when it has a claim and every claim is well cited, has only numbers of the cited memories as joined, has at least one word, shares one with them and two if it has two, and has at most one word in five that they do not have |
| Narrator.InvalidExactly | src/agents/narrator.ts:385-456 | which of the three checks an invalid answer fails, in their order |
| Narrator.WellCitedExactly | src/agents/narrator.ts:369-392 | well cited means that there is a marker and each is the plain numeral of a memory there is |
| Narrator.ValidIffAttributed | src/agents/narrator.ts:355-456 | where no number reaches over the seam of two memories cited together, the validator accepts iff every claim cites existing memories canonically, each of its numbers is own to one of them, and it shares enough of their words |
| Narrator.CoveredIffSourced | src/agents/narrator.ts:401-411 | for one claim: looking numbers up in the joined memories finds exactly those of the single ones |
| Narrator.ClosedMemoriesAreSeamless | src/agents/narrator.ts:401-411 | memories that end in nothing a number or currency ends in, as with a full stop, never meet the exception |
| NarratorGaps.SeamMisleads | src/agents/narrator.ts:401-411 | two memories for which the validator accepts a number neither has and refuses one that the second has |
| NarratorGaps.CurrencyMayChange | src/agents/narrator.ts:401-411 | a claim in dollars accepted against a memory in euros |
| NarratorGaps.PlainVerdict | src/agents/narrator.ts:421-452 | the verdict on one claim without numbers that cites one memory, by its words |
| NarratorGaps.FourOfFivePass | src/agents/narrator.ts:435-442 | a claim with four of five words in its memory is valid |
| NarratorGaps.ThreeOfFourFail | src/agents/narrator.ts:435-442 | one with three of four is refused for its words |
| NarratorGaps.UnrelatedClaimFails | src/agents/narrator.ts:435-442 | and so is one that shares none |
| Narrator.BedrockAnswersAreGrounded | src/agents/narrator.ts:143-301 | whatever the model says: verified means grounded and complete, extractive means one claim per claim of the evidence, and otherwise no word of the model is left; every number of a verified or extractive answer is own to a memory its claim cites unless one reaches over a seam of memories cited together; every claim of such an answer has the words that the validator asks for |
| NarratorOutcomes.CompleteExactly | src/agents/narrator.ts:459-484 | a complete answer is a valid one that cites every memory; a valid one that does not fails the citations alone |
| NarratorOutcomes.BedrockChooses | src/agents/narrator.ts:143-301 | which answer is given, with which status and checks: the first of the model's if complete, else the second, else the rendering if valid, else the memories themselves in order; evidence is reported withheld exactly when a hit is hostile |
| Narrator.FakeVerifiesExtracts | src/agents/narrator.ts:312-352 | the offline narrator's verified answers are extractive, have only numbers own to the cited memories where no evidence has a marker or no number reaches over a seam, and are complete exactly when every memory has a claim or is mentioned by a marker inside one |
| NarratorOutcomes.FakeChooses | src/agents/narrator.ts:312-352 | the offline narrator gives the rendering if valid, else the memories themselves in order |
| NarratorGaps.FakeOmitsBlank | src/agents/narrator.ts:312-352 | a verified answer that cites one memory of two |
| Narrator.HostileIsWithheld | src/agents/narrator.ts:63-76 | instruction-like hits are never cited, and withholding is reported exactly when there was one |
| NumberSpelling.GroupingsNormaliseAlike | src/agents/narrator.ts:622-628 | comma-grouped and dot-grouped spellings of one amount normalise to the same digits |
| NumberLexemes.SeamlessExactly | src/agents/narrator.ts:545-551 | texts joined with spaces have exactly the lexemes of the single texts, in order, iff no lexeme reaches over a seam |
| NumberLexemes.LexemeLocal | src/agents/narrator.ts:545-551 | a match that ends before a seam is the match of the text before it |
| NumberForms.NumbersAreMatched | src/agents/narrator.ts:548 | a sign, digits and any number of points or commas with digits after them are matched whole |
| NumberForms.OnlyNumbersAreMatched | src/agents/narrator.ts:548 | what is matched is such a number, as far as it goes |
| NumberForms.NoNumberExactly | src/agents/narrator.ts:548 | nothing is matched exactly where neither a digit nor a minus sign with a digit after it comes first |
| NumberForms.CaseIsIgnored | src/agents/narrator.ts:548 | currencies are recognised in either case |
| NumberLexemes.ClosedIsSeamless | src/agents/narrator.ts:545-551 | texts that end in nothing a number or currency ends in have no lexeme over a seam |
| NormalizedNumbers.NumbersOfJoin | src/agents/narrator.ts:541-551 | then the joined texts have exactly the numbers of the single ones |
| NumberGaps.SpanMayKeepNumbers | src/agents/narrator.ts:541-551 | a lexeme over a seam that leaves the set of numbers as it is |
| AmountNotations.LexemesAreNotations | src/agents/narrator.ts:545-551 | everything the pattern matches is an amount: a number with a currency in front, behind, on both sides or on neither, with any white space between, and a percent sign or none |
| AmountNotations.Normalizes | src/agents/narrator.ts:596-634 | any amount becomes a mark for its currencies, the number that is read, and the percent sign; euro and euros in front leave letters with the digits |
| AmountNotations.ComparedExactly | src/agents/narrator.ts:596-634 | two amounts of one number, without euro or euros in front: in different currencies they compare equal exactly when each has a currency behind and none in front, in the same currencies exactly when the same one or none is in front, and in either case both or neither have a percent sign |
| AmountNotations.AllComparedExactly | src/agents/narrator.ts:596-634 | any two amounts, euro and euros and different numbers included, provided Number prints neither colon nor percent sign: equal exactly when the number read, the percent sign and the mark agree, with the same condition for the mark |
| AmountNotations.ConflictStaysApart | src/agents/narrator.ts:613-620 | an amount with different currencies on its two sides never compares equal to one in a single currency or none |
| AmountNotations.SuffixIsLost | src/agents/narrator.ts:596-634 | an amount with a currency behind alone, whatever the currency and the white space, becomes a colon and the number |
| AmountNotations.PrefixIsKept | src/agents/narrator.ts:596-634 | an amount with a currency in front alone, whatever the white space, becomes the code, a colon and the number that is read |
| AmountNotations.FormsNeverCollapse | src/agents/narrator.ts:613-620 | amounts of one number with a currency behind alone are alike, and never like one with a currency in front, whatever its number and whatever is behind it |
| NumberSpelling.DecimalsNormaliseExactly | src/agents/narrator.ts:622-633 | the number read from an ungrouped decimal is the one written exactly when it does not look like one group of three or all its digits are 0 |

## Left out

- Secret parsing, URL and endpoint checks, passwords, role grants: each is one call that may fail and changes nothing modelled.
- Effects that take place after their call has failed, as a late commit of a timed-out request would.
- Hosted convergence: an observation that may time out; it samples requests, so nothing is claimed about every app instance.
- The `phase` text and the redacted digests of the rotation receipt, which no decision reads.
- A `refreshMs` that throws or changes between calls, and a `createPool` that throws.
- Backoff times in `withSerializableRetry`; in the cleanup they are modelled, because the deadline is compared with them.
- `guardDestructive`, logging and elapsed times of the cleanup.
- Inflate, SHA-256, UTF-8 decoding and `JSON.parse` themselves; the round trip through the ZIP reader is for stored entries; for deflated ones, that what was written is acceptable.
- Writing to and reading from files in the lifecycle log: a log is a sequence of events; throughput is not modelled.
- Word extraction, instruction detection, and the printing of a number by Number.prototype.toString: parameters of the narrator.
- Reasons and prompts of the narrators' answers.
- Narrator.BedrockAnswersAreGrounded: does not model the first model call throwing, which rejects the whole call.
- UTF-16 surrogates in the splitter and the narrator, where a character is a Unicode scalar.
- The fixed-fact validators of releases, grants, jobs and pages, the restore drill, load scripts, HTTP handlers and web UI: long conjunctions or plumbing with nothing to prove beyond one reading.
