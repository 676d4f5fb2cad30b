# CircleUp: durable indexing, reconciliation and write submission, verified

A Dafny model of the off-chain half of CircleUp, a rotating-savings protocol on Stellar, with proofs that it
keeps its promises. Three systems carry the hard results.

**The indexer.** It polls an unreliable RPC for contract events and projects them into Postgres tables, one
ledger per transaction and one savepoint per event (`Ingest`, `Durability`). Stop requests, crashes, transient
database errors, lost COMMIT replies and failed evidence writes are arbitrary inputs to the class `Ingest.Indexer`;
the theorems hold for all of them, and say what happens when none occurs. Which
contracts a poll must ask about, how pages are fetched, and why the sorted union of the answers is exactly the
missing stretch of the chain is proved in `Fetch` and `Discovery`.

**The projection and its reconciler.** `CircleContract` and `World` are the circle contract and a transaction
history of many circles as a transition system; `Projection` has the event handlers. `Books` reads every column of
every table off the event log at once and proves that the handlers agree. `Mirror` proves that after any history
the tables reflect every contract, `Reconcile` verifies the diagnostic that compares them, and
`Agreement` concludes that it has nothing to report. `EndToEnd` puts both halves together: whatever crashed, the
durable rows agree with the contracts as of the cursor.

**The SDK's write path.** `Submission` models resending one signed envelope over a network that loses requests
and replies and answers lookups from lagging replicas. A `World` is what really happened; the proofs show that a
verdict is definite exactly when the replies determine the outcome, and that a caller who rebuilds as the SDK
says never applies a write twice.

Around them stand the exact data transformations: money (`Digits`, `Money`), the CSV export and a reference
reader for section 2 of RFC 4180 (`Csv`, `CsvExport`), canonical JSON (`CanonicalJson`), round grouping
(`GroupRounds`), paging (`Paging`), the tolerant response check (`Schema`), and the poller's start/stop protocol
(`Lifecycle`). `Sorting` and `Lex` hold the uniqueness of sorted arrangements that three of them rely on.

`dafny verify dfyconfig.toml` checks the project.

## Modelling decisions

- A database is a value; a transaction commits a whole value or nothing. `Ingest.Indexer` keeps the history of
  its durable values in ghost state, and its invariant speaks about all of them.
- The chain of events, the RPC's replies, the worlds behind a submission are arbitrary values restricted only
  by assumptions stated as predicates: `Fetch.Honest` (an RPC that pages one ledger-ordered sequence, whose view
  may grow and whose continuation tokens stand for places in it), `Submission.Explains` (a failure that proves non-delivery, and an ERROR or TRY_AGAIN_LATER reply,
  mean that attempt was not queued; a hash is included at most once and within its time bound; lookups are
  answered from a prefix of the chain; close times never decrease), `World.Ordered` (ledgers of a history never
  decrease and transaction hashes differ).
- Every lemma turns Dafny's automatic induction off, so each inductive step stands in a proof body.
- Event ids are `(ledger, position)` pairs, so the string order of the code's zero-padded ids is the order of
  pairs here. The dedup key is modelled as the code builds it, without the position.
- An address is an opaque identifier. Amounts are unbounded integers, as in `bigint` and `NUMERIC`.

Where code and documentation disagree, the model follows the code:

- `contracts/circle/src/lib.rs:833-850` publishes `circle/active` before the last member's `circle/joined`, while
  `docs/EVENTS.md:151-152` says that it follows. The projection is proved for the code's order.
- `contracts/circle/src/lib.rs:1950-1985` lets an admin pause in every lifecycle status, while
  `docs/PAUSE_RECOVERY_SEMANTICS.md:229-230` says that Completed and Cancelled circles cannot be paused.
- `sdk/src/polling.ts:61-66` documents that too many lookup errors end in `network_error`; the code answers
  `outcome_unknown` (`sdk/src/circleUpClient.ts:987-995`), and only that is sound.
- `indexer/src/indexer.ts:304-314` builds the key that identifies an event without the event's position, so
  identical events of one transaction share it: `Durability.IdenticalEventsCollapse` gives two, and
  `Durability.AllAttemptedByFold` says exactly which chains are unharmed.
- `indexer/src/circleReconciliation.ts:316-324` is meant to compare the member rows with the rotation, and
  overlooks surplus rows: see `Agreement.OrderCheckExactness` and `Agreement.SurplusRowOverlooked`.

## Model

| member | source | states |
|---|---|---|
| `CircleContract.ExecKeepsWellFormed` | contracts/circle/src/lib.rs:738-2050 | every entry point that does not panic keeps the lifecycle invariants (rotation distinct; contributors, flagged members and holders of collateral in it; collateral locked by everyone once the circle is active; nobody flagged or paid in before; round index in range) and only moves forward: statuses along the documented edges, at most one more paid round, closing final |
| `CircleContract.AllowedExactly` | contracts/circle/src/lib.rs:738-2050 | an entry point goes through exactly when its caller, the status, the pause flag, the deadline and the round's contributions allow it |
| `CircleContract.InitializeExactly` | contracts/circle/src/lib.rs:542-735 | a circle can be initialised exactly with 2 to 256 distinct members, a positive round amount whose pot and penalty fit i128, and a deadline in bounds |
| `CircleContract.PenaliseKeeps` | contracts/circle/src/lib.rs:1459-1750 | flagging every missing member in an exceptional settlement changes collateral amounts and flags only, and flags members of the rotation only |
| `CircleContract.PenaliseExactly` | contracts/circle/src/lib.rs:1268-1750 | an exceptional settlement takes a fifth of the collateral of, and flags, exactly the members who have not contributed, are not flagged yet and have collateral left |
| `CircleContract.ReleasesExactly` | contracts/circle/src/lib.rs:1753-1925 | closing releases to each member all the collateral it has left, once, and to nobody else |
| `CircleContract.CloseAnnounces` | contracts/circle/src/lib.rs:1753-1925 | a close ends with an event that names the outcome and the sum of the releases before it, and leaves nobody any collateral |
| `World.ExecuteKeepsWellFormed` | contracts/circle/src/lib.rs:542-735 | a factory deployment or a call leaves a well-formed circle |
| `World.ExecutesExactly` | contracts/circle/src/lib.rs:542-2050 | a transaction has an effect exactly when it creates a new circle that can be initialised, or calls an existing one that allows it |
| `World.Run` | README.md:592-632 | after any transaction history every circle is well formed |
| `Projection.CreatedInitializedCommute` | indexer/src/indexer.ts:585-915 | `circle_created` and `initialized` leave the same tables in either order |
| `Projection.SettlementPayoutCommute` | indexer/src/indexer.ts:677-1000 | `exceptional_settlement` and `payout` of one round leave the same payouts row in either order |
| `Projection.ReplayAppend` | indexer/src/indexer.ts:1088-1165 | handling events in two batches is handling them in one |
| `Projection.RefusedExactly` | indexer/src/indexer.ts:585-1165 | a handler refuses an event exactly when its payload is malformed or names another circle than its emitter, or a row that it needs is missing |
| `Books.TablesReadOffLog` | indexer/src/indexer.ts:585-1060 | after any events no handler refused, every column of every row of every table is the one a declarative reading of the whole log calls for (first, latest or counted event per key), and there is no other row |
| `Books.CircleStep` | indexer/src/indexer.ts:585-1000 | a circle's row exists from its first creation or initialisation event; creator, configuration, status, round, pause flag and closing columns are those of the first, or the latest, event that decides them |
| `Books.MemberStep` | indexer/src/indexer.ts:612-728 | slot, join order, collateral and default count of a member row are those of its announcement, latest join and default events |
| `Books.PayoutStep` | indexer/src/indexer.ts:677-1000 | a payout row holds the first event about its round, and is exceptional exactly when a settlement event says so |
| `Mirror.HandleFrame` | indexer/src/indexer.ts:585-1060 | an event of one circle leaves the rows of every other circle untouched, in all six tables that are kept per circle |
| `Mirror.JoinMirrors` | indexer/src/indexer.ts:612-655 | replaying a join's events, including the activation by the last joiner, mirrors the contract after it |
| `Mirror.SettleMirrors` | indexer/src/indexer.ts:916-1010 | replaying an exceptional settlement's defaults, settlement, score, payout and advance mirrors the contract after it |
| `Mirror.CloseMirrors` | indexer/src/indexer.ts:771-818 | replaying a close, with its ignored collateral releases, mirrors the closed contract |
| `Mirror.StepReflects` | indexer/src/indexer.ts:1088-1165 | one more transaction on any circle keeps the circle, member and payout rows a reflection of all contracts |
| `Mirror.HistoryReflected` | indexer/src/indexer.ts:585-1060 | after any legal history no handler has failed and the circle, member and payout rows reflect every contract |
| `Reconcile.Reconcile` | indexer/src/circleReconciliation.ts:206-448 | a mismatch is listed if and only if that field differs, the verdict is match if and only if none does, and the other verdicts tell a circle without a row, an RPC that did not answer and a contract of another shape apart; when only the round cannot be read, the fields compared before it are still listed |
| `Reconcile.CompareSlots` | indexer/src/circleReconciliation.ts:315-324 | the slot comparison reports exactly the slots whose last row and rotation entry differ |
| `Reconcile.ComparePayouts` | indexer/src/circleReconciliation.ts:419-444 | recipients and full-pot amounts are reported exactly where a row disagrees |
| `Agreement.MirroredIsClean` | indexer/src/circleReconciliation.ts:308-446 | rows that mirror a contract, read in any order, leave the reconciler nothing to report |
| `Agreement.CleanExactly` | indexer/src/circleReconciliation.ts:308-446 | for any rows: nothing differs from a contract if and only if the circle's row has its status, configuration, pause flag and (while it can be asked for) round, each slot's last row is the rotation's, and the payout rows number the paid rounds, each to its recipient and, unless exceptional, for the pot |
| `Agreement.SlotAtLast` | indexer/src/circleReconciliation.ts:316-318 | a slot counts as held by the last row that has its order |
| `Agreement.HistoryIsClean` | indexer/src/circleReconciliation.ts:206-448 | at every transaction boundary of any history, every circle reconciles without a mismatch |
| `Agreement.CleanCompletedIsFullSettlement` | indexer/src/circleReconciliation.ts:398-446 | a match on a Completed circle means the payout rows are a bijection onto the rounds, each paid to its recipient and non-exceptional ones in full; with distinct members everyone is paid exactly once |
| `Agreement.OrderCheckExactness` | indexer/src/circleReconciliation.ts:316-324 | the member rows are the rotation if and only if no slot mismatch is found and the payout orders are distinct and in range |
| `Agreement.SurplusRowOverlooked` | indexer/src/circleReconciliation.ts:316-324 | a concrete surplus row that the slot comparison accepts |
| `Ingest.Indexer.IngestEvent` | indexer/src/indexer.ts:388-417 | a duplicate changes nothing; otherwise dedup row and handler writes stand or fall together |
| `Ingest.Indexer.IngestItems` | indexer/src/indexer.ts:447-501 | the events of a ledger take effect as in a sequential pass, with the lists of successes and failures |
| `Ingest.Indexer.RecordEvidence` | indexer/src/eventFailures.ts:221-270 | the evidence savepoint upserts all failures and resolves all successes, or changes nothing |
| `Ingest.Indexer.ProcessLedger` | indexer/src/indexer.ts:433-539 | all-or-nothing: the database is as before exactly when the transaction was interrupted, and as after this ledger's commit otherwise, even when the caller sees an error; the counts answered are those of the ledger |
| `Durability.CheckpointCounts` | indexer/src/indexer.ts:517-533 | a commit sets the cursor to its ledger and that ledger's checkpoint only: processed is the number of new dedup rows, failed that of the events attempted without leaving one, and the rest of the ledger's events are duplicates |
| `Ingest.Indexer.ProcessItems` | indexer/src/indexer.ts:1393-1423 | ledgers are committed in order, the cursor never goes back, success leaves it at the end of the range, and the first stop request or fault ends the pass, and nothing else does |
| `Ingest.Indexer.ProcessFetched` | indexer/src/indexer.ts:1513-1552 | items fetched above the ledger a poll resumes after are ingested from the durable cursor on, where a cursor never set stands for the start ledger |
| `Ingest.Indexer.RunPollCycle` | indexer/src/indexer.ts:1513-1552 | a budget error commits nothing, the halved range stays non-empty and is at least half of one that was refused, a poll that succeeds leaves the cursor exactly at its final range end, the cursor never decreases, and a poll succeeds when fetches fail only by budget, the first ledger fits, and nothing disturbs the commits |
| `Ingest.CommitKeepsSynced` | indexer/src/indexer.ts:517-533 | committing up to a ledger boundary keeps the rows equal to the sequential pass up to the cursor |
| `Ingest.SliceGroup` | indexer/src/indexer.ts:1393-1403 | grouping by ledger cuts the chain at ledger boundaries |
| `Durability.IngestedExactly` | indexer/src/indexer.ts:404-417 | the dedup rows are exactly those of the events that took effect |
| `Durability.ClashesExactly` | indexer/src/indexer.ts:304-314 | two events stand in each other's way if and only if they have the same ledger and transaction, and the same contract and content or the same event index |
| `Durability.AppliedAtMostOnce` | indexer/src/indexer.ts:404-414 | of two clashing events at most one takes effect |
| `Durability.AllAttemptedExactly` | indexer/src/indexer.ts:304-314 | every event is handled if and only if no event clashes with an earlier one that took effect |
| `Durability.AllAttemptedByFold` | indexer/src/indexer.ts:304-314 | the same as a condition on the chain and the handlers alone: every event is handled if and only if none clashes with an earlier one that the handlers, applied in order without any dedup, accept |
| `Durability.AllAttemptedIfDistinct` | indexer/src/indexer.ts:304-314 | where the handlers accept every event, all are handled if and only if no two events of the chain clash |
| `Durability.IdenticalEventsCollapse` | indexer/src/indexer.ts:304-314 | identical events of one transaction collapse into one, without evidence |
| `Durability.CrashRefinement` | indexer/src/indexer.ts:388-539 | where no event up to the cursor clashes with an earlier accepted one, every durable state of every run, through crashes, aborts, lost replies and restarts, is one sequential fold of the handlers over the chain up to its cursor, with every event attempted |
| `Durability.NoSilentLoss` | indexer/src/eventFailures.ts:221-270 | throughout a run of commits, with or without their evidence, and retry rewinds, each event up to the highest ledger reached took effect or has an open failure row, never both, if and only if each commit wrote its evidence or had none to write |
| `Durability.LostEvidence` | indexer/src/eventFailures.ts:221-270 | a commit that loses the evidence of a failing event leaves neither row nor evidence of it, and the cursor past it |
| `Durability.NothingLost` | indexer/src/indexer.ts:503-533 | a durable state of the indexer accounts for every event up to its cursor if and only if every commit before it in which an event failed wrote its evidence |
| `Durability.AttemptsCountFailures` | indexer/src/eventFailures.ts:229-256 | there is a failure row exactly when a commit recorded a failure of the event, and `attempts` is the number of those commits |
| `Durability.RetryMovesOver` | indexer/src/db/replay.ts:379-443 | a retried event that succeeds moves from the failure rows to the ingested events, its row staying open only if it was open and the evidence write fails; one that took effect is not applied again |
| `Durability.RetryComesBack` | indexer/src/db/replay.ts:158-161 | after a retry rewind to a ledger, every event from it on that never took effect is tried again by the time the cursor has reached it |
| `Durability.CatchUp` | indexer/src/indexer.ts:1513-1552 | without budget errors an indexer reaches a fixed head after exactly ceil((head - start) / batch) successful polls, where the start ledger stands for a cursor never set; a failed poll loses no progress, and none fails when nothing disturbs it |
| `EndToEnd.RunNoClash` | contracts/circle/src/lib.rs:738-2050 | no two ingested events of a legal history share a dedup key or a position |
| `EndToEnd.EventsAsOf` | indexer/src/indexer.ts:1513-1552 | the chain up to a ledger is the events of the transactions up to it |
| `EndToEnd.DurableRowsAgreeWithContracts` | indexer/src/circleReconciliation.ts:206-448 | whatever the indexer went through, its durable rows reconcile cleanly with every contract as of the cursor |
| `EndToEnd.DurableRowsReadOffLog` | indexer/src/indexer.ts:388-539 | whatever the indexer went through, every row of every table is the one the events up to its cursor call for |
| `EndToEnd.HistoryLosesNothing` | indexer/src/indexer.ts:388-539 | ingesting a legal history with the projection's handlers, whatever happens to the evidence writes, every event up to the cursor of any durable state has taken effect and no failure was ever recorded |
| `EndToEnd.HistoryLossExactly` | indexer/src/eventFailures.ts:221-270 | with any handlers, a durable state accounts for every event of a history up to its cursor if and only if no commit in which one failed lost its evidence |
| `Fetch.FetchAll` | indexer/src/indexer.ts:1222-1298 | against any RPC a returned list is what its pages hold up to the range end, in range and within budget, after at most `maxPages` requests, and each failure has its stated reason; against one that pages an ordered sequence, and whose tokens stand for places in it, it is exactly the matching events, in order, each once, and a budget error shows a range too long; so a range that fits is fetched when every request is served and nobody asks to stop |
| `Fetch.FetchPages` | indexer/src/indexer.ts:1222-1298 | each request continues where the page before it says; the loop gives up only on a stop request, a reply that is missing, behind, out of range or out of order, or a continuation that did not change, and returns after the first page that is short or passes the range end |
| `Fetch.PageGives` | indexer/src/indexer.ts:1257-1282 | an honest page continues the fetched prefix, and a short or overshooting one completes it |
| `Fetch.TakePage` | indexer/src/indexer.ts:1266-1274 | the event budget is exceeded exactly when the kept events would not fit |
| `Discovery.Discover` | indexer/src/indexer.ts:1313-1390 | platform events, circles found among them and known circles, fetched five contracts at a time and sorted, are exactly the routed chain's slice; a budget error shows the range does not fit, and an RPC that serves every request causes no other error |
| `Discovery.HistoryCovered` | indexer/src/indexer.ts:1340-1360 | every event of the range comes from the platform, a circle with a row, or one created in the range |
| `Discovery.SortedIsSlice` | indexer/src/indexer.ts:1372-1390 | the sorted union holds nothing missed, doubled or out of order |
| `Discovery.FetchForPoll` | indexer/src/indexer.ts:1313-1390 | at every durable state the fetch gives the slice above the ledger the poll resumes after, or an error with its reason; a budget error shows the range does not fit |
| `Discovery.PollRpc` | indexer/src/indexer.ts:1513-1552 | one whole poll of the indexer against an honest RPC, from the first page request to the last commit: it stays in step with the history, success leaves the cursor at the end of the fetched range, which is shortened only to half or more of one that does not fit the budget, only a single ledger that does not fit blocks it, with nothing changed, and otherwise it succeeds when the RPC serves every request and nothing disturbs it |
| `Submission.SubmitEnvelope` | sdk/src/circleUpClient.ts:884-912 | at most three sends of the same envelope, resent only after transient failures; the outcome says whether any attempt may have been delivered |
| `Submission.AwaitConfirmation` | sdk/src/circleUpClient.ts:930-1087 | a never-applied verdict exactly after a lookup past the time bound, an included verdict exactly after one that found the hash, otherwise a stale, lost or timed-out ending with correct diagnostics; it looks up again exactly while nothing seen so far ends the polling |
| `Submission.ErrorStreakExactly` | sdk/src/circleUpClient.ts:968-1000 | the error count is at least n exactly when the last n lookups failed |
| `Submission.LedgerStreakExactly` | sdk/src/circleUpClient.ts:1049-1069 | the stale count is at least n exactly when the last n reported ledgers repeat the one reported before them |
| `Submission.LookupOfExactly` | sdk/src/circleUpClient.ts:968-1027 | the lookup summary of an open verdict says exactly whether any lookup was made and whether one was answered |
| `Submission.BuildAndSend` | sdk/src/circleUpClient.ts:657-868 | nothing is sent exactly when a step before submission failed, and the verdict then names the first one that did; otherwise it is safe to rebuild on exactly when the replies exclude the envelope, says included exactly when a lookup found it, and else names why it gave up, with correct diagnostics |
| `Submission.ExcludedNeverApplied` | sdk/src/circleUpClient.ts:1024-1047 | network_error, tx_rejected, try_again_later and tx_expired: the hash is not and never will be on chain |
| `Submission.SettledIsApplied` | sdk/src/circleUpClient.ts:1001-1022 | success and tx_failed: the hash is on chain with that result |
| `Submission.VerdictsAreExact` | sdk/src/circleUpClient.ts:930-1087 | replies exclude (settle) an envelope if and only if it is never (always) on chain in the worlds that explain them; an open verdict is compatible with both |
| `Submission.WriteAtMostOnce` | sdk/src/types.ts:603-623 | a caller that rebuilds only on retryable verdicts or after a lookup past the bound, and otherwise stops, gets at most one envelope included over any number of calls |
| `Money.ConversionIsExact` | sdk/src/utils.ts:59-155 | a well-formed decimal, with or without exponent, converts to value times 10^7, and is refused exactly when that is no integer or its exponent calls for a text longer than the longest string |
| `Money.AcceptsExactly` | sdk/src/utils.ts:59-155 | a text is accepted with result n if and only if, trimmed, it is a well-formed decimal worth n stroops that can be written without an exponent |
| `Money.CompactRoundTrip` | sdk/src/utils.ts:178-195 | `usdcToStroops(stroopsToUsdc(n))` is n |
| `Money.ExactRoundTrip` | sdk/src/utils.ts:342-358 | the seven-decimal rendering of the SDK and of the CSV export converts back to n |
| `Money.DisplayTruncates` | sdk/src/utils.ts:210-225 | the two-decimal display never overstates and drops less than a cent |
| `Csv.ReadEscaped` | indexer/src/csvExport.ts:149-161 | a written field reads back as its neutralised value, whatever follows |
| `Csv.ReadLines` | indexer/src/csvExport.ts:272-277 | a written document reads back as its records |
| `Csv.NeutralizedIsInert` | indexer/src/csvExport.ts:138-151 | no exported field begins with a formula trigger, and neutralising only adds an apostrophe |
| `Csv.NeutralizeCollidesExactly` | indexer/src/csvExport.ts:149-151 | two values read the same if and only if they are equal, or one starts with a trigger and the other is it behind an apostrophe |
| `Csv.NeutralizeCollides` | indexer/src/csvExport.ts:149-151 | so neutralising is not injective |
| `CsvExport.BuildCircleActivityCsv` | indexer/src/csvExport.ts:205-278 | refused exactly for too many rows, or else for an amount that is no integer; otherwise the document of the sorted groups |
| `CsvExport.RecordAt` | indexer/src/csvExport.ts:212-270 | the record at each place is that of the row at that place |
| `CsvExport.GroupInOrder` | indexer/src/csvExport.ts:172-270 | each exported group is the input rows arranged by round, then ledger, then (except for payouts) address, then transaction; members by payout order, then address |
| `Sorting.SortStable` | indexer/src/csvExport.ts:212-252 | rows that compare equal keep their order |
| `CsvExport.ExportReadsBack` | indexer/src/csvExport.ts:205-278 | by RFC 4180 the document holds the header and one 13-field record per row, all neutralised |
| `CsvExport.RowRecovered` | indexer/src/csvExport.ts:209-270 | no column is lost or misplaced: a record describes the very row it was made from, up to the amount's canonical form |
| `CsvExport.FieldsKeptExactly` | indexer/src/csvExport.ts:149-161 | neutralising leaves a row's record alone if and only if the amount is not negative and network, circle, address and transaction hash do not start with a trigger |
| `CsvExport.FileGivesRows` | indexer/src/csvExport.ts:205-278 | the exported file, read by RFC 4180, gives back the circle and each exported row, in order, exactly under that condition, and otherwise the same row with apostrophes in front of the texts at risk |
| `CsvExport.AmountSurvives` | indexer/src/csvExport.ts:118-136 | both amount columns of a non-negative row convert back to the amount |
| `CsvExport.OrderIndependent` | indexer/src/csvExport.ts:172-270 | any permutation of rows with distinct sort keys gives the same document |
| `CanonicalJson.CanonicalExactly` | scripts/src/deployment-manifest.ts:94-105 | two trees have the same text if and only if they are equal up to key order and undefined members, provided no array is exactly `[undefined]` |
| `CanonicalJson.CanonicalUpToLone` | scripts/src/deployment-manifest.ts:94-105 | for all trees: if and only if they are equal in that sense once every array `[undefined]` is emptied |
| `CanonicalJson.ReadPrinted` | scripts/src/deployment-manifest.ts:94-105 | the text can be read back unambiguously, whatever follows it |
| `CanonicalJson.EscapeLength` | scripts/src/deployment-manifest.ts:94-105 | quotes, backslashes and five controls are written with two characters, other controls with six, all else with one |
| `CanonicalJson.IsNumberExactly` | scripts/src/deployment-manifest.ts:94-105 | every text of digits, signs, points and exponent marks is admitted as a number |
| `CanonicalJson.PayloadSurvives` | scripts/src/deployment-manifest.ts:107-120 | a tree written as JSON text and parsed from it again has the schema-2 integrity payload it had before, if and only if no array in it holds an undefined item |
| `CanonicalJson.LoneUndefinedCollides` | scripts/src/deployment-manifest.ts:95-97 | an array of one undefined prints like the empty array |
| `GroupRounds.GroupByRoundIndex` | indexer/src/groupRounds.ts:116-130 | each bucket is the input rows of that round, in input order |
| `GroupRounds.SelectInOrder` | indexer/src/groupRounds.ts:116-130 | a bucket is the input rows with that index, all of them and in input order |
| `GroupRounds.BuildPayoutIndex` | indexer/src/groupRounds.ts:174-194 | the first payout of each round is kept |
| `GroupRounds.FirstOfExactly` | indexer/src/groupRounds.ts:174-194 | the payout a round is shown with is that of the first row with its index |
| `GroupRounds.GroupCircleRounds` | indexer/src/groupRounds.ts:222-322 | one group per known round, ascending: paid rounds in `rounds`, the unpaid round an active or cancelled circle is in as the current round, with that status, and all other unpaid rounds in `openRounds`; the branch for several current rounds is unreachable |
| `GroupRounds.ContributionsConserved` | indexer/src/groupRounds.ts:240-282 | no contribution is lost or duplicated |
| `GroupRounds.DefaultsConserved` | indexer/src/groupRounds.ts:240-282 | no default is lost or duplicated |
| `GroupRounds.ExactlyOneList` | indexer/src/groupRounds.ts:286-312 | every known round is in exactly one of rounds, current round and open rounds |
| `GroupRounds.PendingIsUnpaid` | indexer/src/groupRounds.ts:314-321 | the pending defaults are those of the current and the open rounds |
| `GroupRounds.UnpaidInOrder` | indexer/src/groupRounds.ts:314-321 | the pending defaults are the input rows whose round has no payout row, in input order |
| `GroupRounds.OneCurrent` | indexer/src/groupRounds.ts:296-312 | two rounds never both count as current |
| `Lifecycle.AtMostOneCycle` | indexer/src/indexer.ts:1556-1615 | under any schedule at most one poll cycle runs and one timer ticks |
| `Lifecycle.QuietUntilRestart` | indexer/src/indexer.ts:1406-1423 | from a shutdown on, no cycle and no ledger transaction begins before a restart |
| `Lifecycle.ResolvedStopIsQuiet` | indexer/src/indexer.ts:1625-1657 | a stop that resolves leaves no cycle in flight until a restart |
| `Lifecycle.AbortedForever` | indexer/src/indexer.ts:1625-1696 | after an aborted stop no cycle, ledger transaction or timer ever begins again |
| `Lifecycle.CanStop` | indexer/src/indexer.ts:1625-1657 | from any state of any schedule, unless a stop was aborted, the poller can be brought to rest |
| `Lifecycle.CanRun` | indexer/src/indexer.ts:1561-1615 | from rest it can be started, and then gets to a ledger transaction |
| `Lifecycle.CanTick` | indexer/src/indexer.ts:1575-1608 | the next tick of a running poller gets to a ledger transaction, once the cycle in flight has ended |
| `Lifecycle.CanAbort` | indexer/src/indexer.ts:1625-1657 | a stop that waits can be aborted, before or while it waits |
| `Lifecycle.Poller.StartIndexer` | indexer/src/indexer.ts:1561-1615 | starting is the state machine's start step, and throws exactly when already started |
| `Lifecycle.Poller.StopIndexer` | indexer/src/indexer.ts:1625-1657 | stopping is the state machine's stop step; it waits exactly when a cycle is in flight and the signal is not aborted, and throws exactly when one is and it is |
| `Lifecycle.Poller.RunTick` | indexer/src/indexer.ts:1575-1608 | a tick begins a cycle only when none is in flight and no shutdown is on |
| `Lifecycle.Poller.MayBeginLedger` | indexer/src/indexer.ts:1406-1423 | a ledger transaction may begin exactly when no shutdown is on |
| `Paging.OffsetIsSafe` | indexer/src/api.ts:305-321 | every accepted page and limit give an offset of at most 2^53 - 1 |
| `Paging.ServedPagesPass` | sdk/src/client.ts:1328-1377 | every page the server produces passes the client's envelope check |
| `Paging.Paginate` | sdk/src/client.ts:1379-1395 | at most `maxPages` requests, one page after the other until an answer is refused or says that it is the last; over a fixed list no answer is refused and the pages concatenate to it from the start page's offset on, each row once |
| `Schema.ValidateIndexerResponse` | sdk/src/indexerSchema.ts:409-420 | no violation is reported if and only if the body conforms to the schema, and the violations are exactly the places where a property is not as the schema says, with what was expected and found |
| `Schema.Report.CheckField` | sdk/src/indexerSchema.ts:315-384 | the violations pushed are those of the specification, in its order |
| `Schema.CleanMeansConforms` | sdk/src/indexerSchema.ts:315-395 | an empty result is conformance, an inductive relation on the schema |
| `Schema.ViolationsExactly` | sdk/src/indexerSchema.ts:315-395 | a violation is reported if and only if following its path down schema and value leads to a property that is missing, null, of the wrong type or out of range, as it says |
| `Schema.AdditiveTolerance` | sdk/src/indexerSchema.ts:386-395 | adding a key the schema does not name, at any depth, never changes the violations |

## Left out

- Postgres, Express, Soroban RPC, XDR and ScVal coding, signing and HTTP: events, rows and replies are datatypes, and SQL statements are functions on tables.
- Metrics, logging, backoff intervals and jitter: waits only decide how many lookups or polls fit, which is a parameter.
- The retry loop around single RPC reads (`withRpcRetry`): a reply is what the loop finally came to. The row cap of the reconciler's reads.
- Error-message texts and the string-matching error classifiers: whether an error is transient, or may have reached the server, is part of the reply.
- The legacy `reputation/increment` event, which current contracts do not publish, and the authorisation of reputation awards.
- Contract token transfers, token and reputation contract addresses, storage layout and i128 overflow beyond the check in `initialize`; one contract call per transaction is modelled.
- Indexed histories that begin before the start ledger, and the full and partial wipes of `indexer/src/db/replay.ts`; the rewind for failed events is modelled.
- `acknowledged_at` of failure rows, and the displayed values, `checked` and `unavailable` lists of a reconciliation report.
- Ingest.Indexer.RunPollCycle: the generic engine takes the fetch as a parameter that returns the chain's slice or an error; `Discovery.PollRpc` is the poll with the real fetch.
- Durability.NoSilentLoss: assumes distinct keys and ids, because the code's key omits the position; the code commits the ledger even when the evidence write fails, which `Durability.LostEvidence` shows to lose an event.
- Durability.CrashRefinement: assumes that no event clashes with an earlier accepted one, because the code's key omits the position; `Durability.AllAttemptedByFold` has that condition as an equivalence.
- Discovery.Discover: the code's `localeCompare` on zero-padded ids is the numeric order of positions.
- Money.ConversionIsExact: JavaScript numbers are covered through their shortest decimal text only; the length of the longest string is a parameter, taken to be so short that every exponent beyond 2^53, which `parseInt` rounds, is refused. BigInts have no largest value here.
- CsvExport.BuildCircleActivityCsv: code-unit order is taken on characters of the basic plane; ledgers and indexes are numbers, not their texts.
- CanonicalJson.CanonicalExactly: a number is its JSON text.
- CanonicalJson.PayloadSurvives: the text is written without the indentation of the manifest file, and the reader refuses white space.
- Lifecycle.AtMostOneCycle: a second stop call during a shutdown only waits and returns, so its wait is not a step of the state machine.
- Paging.Paginate: lists so long that their last page number would be refused are excluded.
- Schema.ValidateIndexerResponse: `Date.parse` is part of the value, paths are key lists, and the schemas themselves are parameters.
- SHA-256, manifest file writing and the other manifest field checks.
- The web application, deployment scripts, health checks, configuration and gating helpers.
