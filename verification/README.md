# mez-go-mono, proved core

A Dafny 4.11 model of the parts of mez-go-mono where a guarantee spans several functions, and the
proofs of those guarantees. `dafny verify dfyconfig.toml` checks all of it.

Code that changes state is a class or a method with loops, proved against functions and relations on
values; the theorems are about those values and about whole runs. I/O is reduced to small stores
whose operations may fail at any time (`reliable` says when they may not), and to values the
environment picks freely.

* **Outbox relay** - `OutboxTable` (rows and SQL transitions), `RelayMachine` (single steps with
  faults and crashes), `Relay` (the drain loop: a refinement of the machine, its exact termination
  threshold, convergence), `RelayLimits` (what its two numbers mean).
* **Reconciler** - `Reconcile`: the sweep and its exact threshold.
* **ACD router** - `Acd`, `Selection` (strategies), `Routing` (overflow search, ledger of loads),
  `Router` (the program), `AutoAssignment` (its steps in the fields of agents and queues), `Fairness`
  (round-robin and least-busy over runs).
* **Credentials** - `Envelope` (ideal authenticated cipher), `Credentials`, `DekCache`, `Keyring`
  (refines a plain map), `RotateKek` (interrupted rotations are confluent).
* **Backup** - `TableOrder`, `MigrationFacts`, `Tables` (rows, row-level security, NOT NULL and unique keys checked row
  by row, foreign keys checked when a transaction commits), `Upserts` (statements and rows), `Backup`
  (the stream), `Exported`, `RoundTrip` and `LineOrder` (export then restore), `RestoredColumns`,
  `UnnamedLines` and `RestoreSafety` (any stream), `TableTwice`, `RestoreTwice`, `ContactStreams` and `RepeatedId` (the second restore),
  `Deletes` (reset), `BackupService` (the program).
* **WhatsApp** - `ManagerMachine` and `Manager` (the bounded LRU under concurrent calls), `Throttle`,
  `WarmupQuota`.
* **Lifecycle runner** - `Lifecycle`. **Telegram decimals** - `Telegram`.

Where the code and its comments disagree the model follows the code:

* A failed registry lookup only counts an attempt; the message never reaches the DLQ and is claimed
  again at once (`internal/usecase/outbox/relay.go:163-169`).
* The default queue is looked up but never used, since storing a queue id is a no-op
  (`internal/usecase/routing/router.go:243-253`).
* A re-run of the rotation does not skip migrated rows, it records an unwrap error for each
  (`internal/usecase/secrets/rotate_kek.go:193-199`); its tenant count includes tenants of failed rows.
* The data-key cache is keyed by tenant and its key is never used to decrypt
  (`internal/usecase/secrets/keyring.go:149-160`).
* Two tables that the export writes are refused by the restore
  (`internal/usecase/backup/restore.go:53-61`), so a tenant with rows in them cannot be restored.
* A second restore of the same stream is not always accepted without effect (comment at
  `internal/usecase/backup/restore.go:383-384`): a record without an id gets a new one each time, and
  where an id comes up twice a unique key may be in its way.
* The upsert resolves conflicts of ids only (`internal/usecase/backup/restore.go:429`). The other unique
  keys (`migrations/0001_init.up.sql:63,80,101`, `migrations/0004_whatsmeow.up.sql:34,68`) refuse the
  restore of an export when a row written since holds one of them.
* The cascades of `migrations/0001_init.up.sql:70-101` are gone since
  `migrations/0003_outbox_fks_indexes.up.sql:25-43`; a reset that would leave another tenant's row
  dangling fails at its commit, after the WhatsApp tables have been wiped.
* Restoring an export would do without deferred foreign keys: it inserts parents first
  (comment at `internal/adapter/repository/postgres/db.go:75-78`).
* A line without a table name that looks like `whatsapp_history` cannot be restored: its field
  `message_id` (`internal/usecase/backup/restore.go:526`) is no column of the table
  (`migrations/0004_whatsmeow.up.sql:61-69`).
* The router has automatic assignment and sticky queues, but the service wires neither agents and
  queues nor a sticky store (`cmd/server/wire.go:174`).
* The end of the LRU slice is the most recent entry, not its front
  (`internal/adapter/provider/whatsmeow/manager.go:55` against lines 235-244).
* The runner stops only phases that have a Start (`pkg/lifecycle/runner.go:161-170`), and the first
  backoff of the throttle is not capped (`internal/adapter/provider/whatsmeow/reconnect.go:46-54`).

Assumptions: a single relay; message, row and agent ids are unique; the set of inbound messages whose
assign fails is fixed during a sweep; the environment's order of rows is arbitrary everywhere; a
rotation is an offline operation, as `docs/fase7/PLAN.md:56` has it, so no credential is stored during
a run (`RotateKek.StoredMeanwhileIsReadableIff` says what happens otherwise). The ids the database
makes up for records without one are arbitrary; only `RestoreTwice.RestoreIsIdempotentIff` and the
theorems of `ContactStreams` assume that they are new, which the sequence of `whatsapp_history` does
not ensure (`migrations/0004_whatsmeow.up.sql:61-62`). The tenant has its row in `tenants`, to which
every table refers (`migrations/0001_init.up.sql:55`): without it each insert is refused. "Drain never
returns" is stated as: cancelled before pass n, for every n.

## Model

| member | source | states |
|---|---|---|
| `OutboxTable.OutboxRepo.ClaimNext` | internal/adapter/repository/postgres/outbox.go:139-195 | a claim returns any min(limit, number of pending rows) different pending rows |
| `OutboxTable.OutboxRepo.MarkSentRow` | internal/adapter/repository/postgres/outbox.go:201-216 | only a pending row becomes sent; no such row is an error and changes nothing |
| `OutboxTable.OutboxRepo.MarkFailedRow` | internal/adapter/repository/postgres/outbox.go:220-233 | a pending row gains one attempt and stays pending; other rows are left alone without an error |
| `OutboxTable.OutboxRepo.MarkDlqRow` | internal/adapter/repository/postgres/outbox.go:237-255 | any row that is not sent moves to the dead-letter state |
| `OutboxTable.OutboxRepo.GetAttempts` | internal/adapter/repository/postgres/outbox.go:258-269 | the attempts stored for the row, or an error |
| `OutboxTable.ShortClaimIsComplete` | internal/usecase/outbox/relay.go:128-151 | a claim shorter than the batch holds every pending row, which is why drain may stop on it |
| `RelayMachine.StatusTellsTheTruth` | internal/usecase/outbox/relay.go:154-232 | over every run, with store errors and crashes between any two steps: sent implies a successful send, dlq implies at least MaxAttempts failures of send or lookup, a fault costs at most one duplicate delivery, at most one DLQ publication |
| `RelayMachine.ExactHistoryWithoutFaults` | internal/usecase/outbox/relay.go:154-232 | without faults or lookup misses: a sent row had exactly one success and fewer than MaxAttempts failures, a dlq row exactly MaxAttempts failures, no success and one publication |
| `RelayMachine.RowsOnlyMoveForward` | internal/adapter/repository/postgres/outbox.go:201-255 | between any two moments of any run no row is lost, sent and dlq are absorbing, attempts never go down |
| `RelayMachine.QueueStaysPending` | internal/usecase/outbox/relay.go:140-146 | every message claimed and not yet processed is still pending when its turn comes |
| `Relay.PassSpendsCredit` | internal/usecase/outbox/relay.go:128-151 | a pass that reaches a resolvable row strictly lowers the attempts left over the whole table: the termination measure |
| `Relay.DrainsConverge` | internal/usecase/outbox/relay.go:203-232 | MaxAttempts finished drains leave pending exactly the rows whose channel the registry cannot resolve, however Send behaves |
| `Relay.Relay.constructor` | internal/usecase/outbox/relay.go:56-76 | batches of the given size, 32 without one, and the given number of attempts, 5 without one; the relay may start over any table an earlier run left |
| `Relay.Relay.Process` | internal/usecase/outbox/relay.go:154-199 | one message: no registry leaves it alone, a failed lookup only counts an attempt and never dead-letters, otherwise it is sent, whatever the store does; each step is a step of RelayMachine |
| `Relay.Relay.HandleSendError` | internal/usecase/outbox/relay.go:203-232 | the failure is counted; with a store that answers the row is dead-lettered exactly when it has reached MaxAttempts, and then, if there is a bus, it is announced once; never twice in any case |
| `Relay.Relay.ProcessBatch` | internal/usecase/outbox/relay.go:140-146 | exactly the claimed rows are processed, no other row changes |
| `Relay.Relay.Pass` | internal/usecase/outbox/relay.go:133-146 | one round of the drain: a claim, and every claimed row processed |
| `Relay.PassInDrain` | internal/usecase/outbox/relay.go:128-151 | a pass at any point of a drain: full while a batch of rows is stuck; otherwise a full one lowers the attempts left and a short one finishes the drain |
| `Relay.Relay.Drain` | internal/usecase/outbox/relay.go:128-151 | with a store that answers: never returns iff at least BatchSize pending rows are on channels the registry cannot resolve; otherwise returns after at most one pass per attempt left and one more, and every row still pending was attempted in this drain |
| `RelayLimits.DeadLetteredAtTheLimit` | internal/usecase/outbox/relay.go:60-65 | of a relay built with m > 0 attempts, in a run without faults: a message never delivered is dead-lettered exactly at its m-th failed send, at the fifth if m <= 0, never after more; with a bus each dead letter is announced once, without one nothing is |
| `RelayLimits.ClaimsAreBounded` | internal/usecase/outbox/relay.go:60-62 | a claim holds at most the given number of messages, 32 without one, and every pending one if they are fewer |
| `RelayLimits.CountsAreEvents` | internal/usecase/outbox/relay.go:154-232 | the counters of the machine are the numbers of failed sends, deliveries and announcements among the events |
| `Reconcile.InboundRepo.SelectUnrouted` | internal/adapter/repository/postgres/inbound_events.go:37-70 | any min(limit, number of received messages) different received messages |
| `Reconcile.InboundRepo.MarkRouted` | internal/adapter/repository/postgres/inbound_events.go:75-92 | a received message gets the state routed, any other state stays |
| `Reconcile.PassReaches` | internal/usecase/reconcile/reconciler.go:77-110 | a select is full while a batch keeps failing; if fewer fail, a full one routes something new and a short one everything that is left |
| `Reconcile.PassInSweep` | internal/usecase/reconcile/reconciler.go:77-110 | one pass at any point of a sweep, in terms of the table at its start: what is routed by then, and why the sweep goes on or ends |
| `Reconcile.Reconciler.ProcessBatch` | internal/usecase/reconcile/reconciler.go:88-104 | routes exactly the messages of the batch whose assign succeeds and counts them |
| `Reconcile.Reconciler.ReconcileAll` | internal/usecase/reconcile/reconciler.go:77-110 | for a fixed set of messages whose assign or mark fails: finishes exactly when they are fewer than a batch; then each other received message has the state routed, all else is as it was, and the count is that of those routed |
| `Acd.MeetsSkills` | internal/core/domain/acd.go:49-63 | true iff for every required skill the last level listed for that name is high enough; a skill not listed has level 0 |
| `Acd.MeetsIsHavingSkills` | internal/core/domain/acd.go:49-63 | the skills suffice iff each required one is listed, the last listing of its name at a sufficient level, or unlisted with no level above zero required |
| `Acd.Conversation.Assign` | internal/core/domain/conversation.go:66-77 | stores the trimmed agent id and nothing else; a resolved conversation refuses and stays |
| `Acd.Conversation.Resolve` | internal/core/domain/conversation.go:80-90 | always succeeds and leaves the conversation resolved; a second time changes nothing |
| `Acd.LessTotal` | internal/usecase/routing/router.go:270 | the byte order by which the eligible agents are sorted is total on different ids, so rank and tie-break are unambiguous |
| `Acd.LessIff` | internal/usecase/routing/router.go:270 | one id comes before another iff at their first difference it ends or has the smaller character |
| `Acd.SpacesAre` | internal/core/domain/conversation.go:66-77 | the characters that trimming removes, by code point |
| `Acd.TrimIs` | internal/core/domain/conversation.go:66-77 | trimming takes the space at both ends and nothing else |
| `Selection.RoundRobinSeed` | internal/usecase/routing/router.go:232-238 | the seed is the sum of the candidates' loads, a function of their set |
| `Selection.EligibleAgents` | internal/usecase/routing/router.go:293-305 | exactly the candidates that are online, carry less than their maximum and have each required skill |
| `Selection.LeastBusy` | internal/usecase/routing/router.go:307-315 | the agent of least load, the least id among equals |
| `Selection.FindById` | internal/usecase/routing/router.go:317-328 | an agent with that id iff there is one; the empty id finds nobody |
| `Selection.Select` | internal/usecase/routing/router.go:265-291 | nobody iff each candidate is offline, full or short of a required skill; the one chosen is none of these, and is determined by the strategy: its rank by id is the seed modulo the number of eligible agents, or it is the sticky agent if eligible, or the least busy |
| `Selection.SelectionIsUnique` | internal/usecase/routing/router.go:265-291 | the strategy leaves no choice: two agents it allows are the same |
| `Selection.SelectIgnoresOrder` | internal/usecase/routing/router.go:265-291 | any two orders of the same candidates give the same, eligible agent |
| `Routing.SearchIsUnique` | internal/usecase/routing/router.go:184-229 | the result of the overflow search is determined by the store |
| `Routing.SearchIsCompleteIff` | internal/usecase/routing/router.go:184-229 | for any overflow links: the search is complete for every store with these links if and only if the chain from the start has ended at its ninth position or meets a queue again among its first nine |
| `Routing.SearchIsComplete` | internal/usecase/routing/router.go:184-229 | if at most eight different queues are reachable, cycles and dangling links included, "none" means that no reachable queue, at whatever distance, has an eligible agent |
| `Routing.NinthQueueIsNotAsked` | internal/usecase/routing/router.go:25 | an instance beyond the condition: nine queues in a row, "none" although the ninth has somebody free |
| `Routing.DefaultQueueIsNeverUsed` | internal/usecase/routing/router.go:138-150 | a conversation without a queue of its own is never assigned, also when a default queue exists, because its id is not stored |
| `Routing.AutoStepIsDeterministic` | internal/usecase/routing/router.go:125-180 | automatic assignment is a function of the store |
| `Routing.ReleaseNeverClamps` | internal/usecase/routing/router.go:105-120 | releasing a conversation never meets the clamp at zero of IncLoad |
| `Routing.StepKeepsLedger` | internal/usecase/routing/router.go:61-180 | each operation keeps: load equals the number of open conversations assigned, and no conversation is pending |
| `Routing.LoadsAreConserved` | internal/usecase/routing/router.go:61-180 | over every run of creations, manual and automatic assignments, releases and resolutions each load is the number of open conversations assigned to the agent |
| `Routing.CapacityHoldsWithoutManualAssign` | internal/usecase/routing/router.go:125-180 | runs without manual Assign keep every load within the agent's maximum |
| `Routing.AssignKeepsCapacityIff` | internal/usecase/routing/router.go:61-65 | a manual Assign keeps every load within its maximum if and only if the conversation is not open, the target is unknown, already holds the conversation, or has a free slot |
| `Routing.AutoAssignBalancesIff` | internal/usecase/routing/router.go:152-172 | an automatic assignment keeps the balance exactly when the agent id is not empty and has no surrounding space, since the conversation records the trimmed id |
| `AutoAssignment.AssignedIsServing` | internal/usecase/routing/router.go:184-229 | the agent assigned is online, below its maximum, skilled and a member of the first queue, within eight of the overflow chain, that anybody serves |
| `AutoAssignment.UnassignedIsUnserved` | internal/usecase/routing/router.go:184-229 | a conversation that stays unassigned: no member of the first eight queues of its chain is online, below its maximum and skilled |
| `AutoAssignment.ResolvedIsNotAssigned` | internal/usecase/routing/router.go:159-161 | a resolved conversation is never assigned; it is an error if somebody would serve it |
| `AutoAssignment.AssignmentRecords` | internal/usecase/routing/router.go:159-172 | the conversation gets the trimmed id, the agent one more, the contact is kept with the agent, and nothing else changes |
| `AutoAssignment.LeastLoadedIsChosen` | internal/usecase/routing/router.go:307-315 | a queue that serves by load gives the agent with the least, the least id among equals |
| `AutoAssignment.StickyAgentAnswers` | internal/usecase/routing/router.go:209-222 | a sticky queue gives a contact the agent it is kept with, while that agent serves the queue |
| `AutoAssignment.ContactStaysWithAgent` | internal/usecase/routing/router.go:159-222 | the next conversation of a contact that waits in a sticky queue goes to the agent of the one before, while that agent serves the queue |
| `RouterProgram.Router.Assign` | internal/usecase/routing/router.go:61-65 | manual assignment is the step of the ledger machine |
| `RouterProgram.Router.Unassign` | internal/usecase/routing/router.go:68-72 | removal is the step of the ledger machine |
| `RouterProgram.Router.Resolve` | internal/usecase/routing/router.go:75-79 | resolution is the step of the ledger machine |
| `RouterProgram.Router.Mutate` | internal/usecase/routing/router.go:81-94 | the conversation is rewritten and the load moved with it, or on an error nothing changes |
| `RouterProgram.Router.MoveLoad` | internal/usecase/routing/router.go:105-120 | the released agent loses one, the occupied one gains one, nothing if they are the same |
| `RouterProgram.Router.IncLoadRow` | internal/core/port/acd.go:16-18 | the load changes by delta, not below zero |
| `RouterProgram.Router.PickAgent` | internal/usecase/routing/router.go:184-229 | the loop with hop limit and visited set returns the agent of the first queue of the overflow chain that has an eligible one |
| `RouterProgram.Router.AutoAssign` | internal/usecase/routing/router.go:125-180 | the whole operation is the deterministic AutoStep: assigned, unchanged or failed, and what the store then holds |
| `Fairness.SeedGrows` | internal/usecase/routing/router.go:149-172 | each automatic assignment raises the round-robin seed of its queue by one |
| `Fairness.PicksFollowSeed` | internal/usecase/routing/router.go:265-283 | the i-th of consecutive picks has rank (first seed + i) modulo the number of eligible agents |
| `Fairness.RoundRobinIsFair` | internal/usecase/routing/router.go:265-283 | q times n consecutive assignments to a queue with the same n eligible agents, each with room, pick every agent exactly q times and nobody else |
| `Fairness.AnyStretchIsEven` | internal/usecase/routing/router.go:265-283 | in any stretch of consecutive picks two agents differ by at most one |
| `Fairness.LeastBusyKeepsSpread` | internal/usecase/routing/router.go:307-315 | from a store where each eligible agent has more free slots than there are conversations to assign, least-busy assignment keeps the same agents eligible and never lets the spread of their loads grow beyond max(initial spread, 1) |
| `Envelope.DecryptsAfterRewrap` | pkg/crypto/envelope.go:90-137 | what is encrypted under a wrapped key decrypts under it, also after the key has been wrapped under another master key |
| `Envelope.Zero` | pkg/crypto/envelope.go:184-188 | every byte of the buffer is overwritten |
| `Credentials.CredentialsRepo.UpdateWrappedDek` | internal/adapter/repository/postgres/credentials_repo.go:172-219 | wrapped key and version of one row change, its credential does not; a call that fails may have done it all the same |
| `Credentials.CredentialsRepo.Upsert` | internal/adapter/repository/postgres/credentials_repo.go:80-100 | the row of the slot is replaced, no other |
| `RotateKek.AttemptsCompose` | internal/usecase/secrets/rotate_kek.go:189-260 | two interrupted runs together are one: no row moves twice |
| `RotateKek.EveryMomentIsReadable` | internal/usecase/secrets/rotate_kek.go:189-260 | at every moment of any series of interrupted runs a row opens under exactly one of the two keys, to its own data key, credential untouched, version raised once iff it moved |
| `RotateKek.InterruptedRunsConverge` | internal/usecase/secrets/rotate_kek.go:189-260 | any series of interrupted runs ended by a complete one leaves the table of a single uninterrupted run, up to nonces |
| `RotateKek.RerunKeepsVersionIff` | internal/usecase/secrets/rotate_kek.go:189-260 | a second complete run raises no version again exactly when the two keys differ |
| `RotateKek.RestartIsNeeded` | internal/usecase/secrets/keyring.go:156-164 | a service still on the old key cannot read a moved row; one restarted under the new key reads what was there before |
| `RotateKek.Rotate` | internal/usecase/secrets/rotate_kek.go:138-289 | cut off after any number of rows the table is that of an attempt; a finished run on a reliable store is complete, counts every row as re-wrapped or as an error, and reports rows moved earlier as unwrap errors |
| `RotateKek.RotateRow` | internal/usecase/secrets/rotate_kek.go:189-260 | one row, whatever the table holds by now: unwrap error, or the data key that was read wrapped anew under the version after the one read, credential kept; an update reported as failed has been done or not; otherwise, and in a dry run, nothing changes |
| `RotateKek.StoredMeanwhileIsReadableIff` | internal/usecase/secrets/rotate_kek.go:189-260 | a credential stored between the read and the update of its row stays readable exactly when it was stored under the data key that was read |
| `DekCache.Cache.Get` | internal/usecase/secrets/cache.go:66-86 | a hit is an entry of this tenant, not expired and of the asked version; an expired one is dropped |
| `DekCache.Cache.Put` | internal/usecase/secrets/cache.go:90-102 | the tenant's entry is replaced; the key buffer it held is zeroed |
| `DekCache.Cache.Invalidate` | internal/usecase/secrets/cache.go:106-113 | no entry is left for the tenant and its key buffer is zeroed |
| `Keyring.Keyring.SetCredentials` | internal/usecase/secrets/keyring.go:116-136 | on success the slot's row decrypts to the text under the current key and the tenant is out of the cache; on failure the table is as it was |
| `Keyring.Keyring.ResolveCredentials` | internal/usecase/secrets/keyring.go:140-165 | the answer is a function of the table and the master key, whatever the cache holds; after any recorded history it is the last value set, or not-found; after an answer the cache holds the row's version |
| `Keyring.Keyring.Delete` | internal/usecase/secrets/keyring.go:169-175 | the slot is gone and the tenant out of the cache, or nothing changed |
| `Keyring.ResolvesLastSet` | internal/usecase/secrets/keyring.go:116-181 | over every history of sets, removals and rotations with restart, resolving answers the last value set, or not-found |
| `Keyring.NothingIsBroken` | internal/usecase/secrets/keyring.go:140-165 | in every such history each stored row decrypts |
| `TableOrder.AllowlistLeavesOutKeyMaterial` | internal/usecase/backup/restore.go:53-61 | restore accepts exactly the exported tables except the two of key material |
| `TableOrder.InOrderIsUnique` | internal/usecase/backup/restore.go:547-574 | a duplicate-free list in topological order is determined by its elements |
| `TableOrder.AppendInOrder` | internal/usecase/backup/restore.go:547-574 | the table is inserted once and the list stays strictly increasing in topological position |
| `Tables.MigrationsFormASchema` | migrations/0003_outbox_fks_indexes.up.sql:25-43 | the tables, unique keys and foreign keys of the migrations are a schema the theorems apply to |
| `MigrationFacts.UniqueKeysAre` | migrations/0001_init.up.sql:63-160 | which rows of each table stand in each other's way: those that agree in tenant and channel and phone, external_id or provider_msg_id, in tenant and channel, in tenant and jid, or in tenant, jid and msg_id |
| `MigrationFacts.ClosedIs` | migrations/0003_outbox_fks_indexes.up.sql:25-43 | a commit asks that each conversation has its contact and each message its conversation and its contact |
| `MigrationFacts.NineTables` | internal/usecase/backup/restore.go:53-61 | the nine tables of a backup and the seven a restore takes |
| `MigrationFacts.OneBadLineRefuses` | internal/usecase/backup/restore.go:227-244 | a malformed line, or one of key material or of no known table, refuses the whole stream |
| `Tables.PutAllKeeps` | migrations/0001_init.up.sql:52-101 | rows put one after the other leave the required columns filled and the unique keys unique |
| `Tables.UpsertedAt` | internal/usecase/backup/restore.go:426-441 | in one statement each row is merged with what the table held before the statement |
| `Upserts.StatementSplits` | internal/usecase/backup/restore.go:385-450 | one statement for two lists of rows with distinct ids does what two statements do, also when it is refused |
| `Upserts.BatchIsRowByRow` | internal/usecase/backup/restore.go:385-450 | any batch is refused if an id comes up twice in one statement and otherwise does what putting its rows one by one does: the size of the statements matters for nothing else |
| `Upserts.StatementsDistinctIff` | internal/usecase/backup/restore.go:386-395 | an id may come up again only at a position of another statement, i / size |
| `Upserts.ChunksDoNotMatter` | internal/usecase/backup/restore.go:385-450 | for any number of rows with distinct ids, statements of a hundred rows - or of any size - do together what one statement would, also when that fails |
| `Upserts.BatchPrefixIsClosed` | internal/usecase/backup/restore.go:385-450 | if no reference dangles before and after a batch with distinct ids, none does after any of its rows |
| `Backup.SeenIsInOrder` | internal/usecase/backup/restore.go:248-258 | the tables of a stream are visited once each, parents before children |
| `RestoredColumns.ColumnsOfARecord` | internal/usecase/backup/restore.go:248-266 | after a restore, for the last record with an id: a column of the table's first record has the field of this record, NULL if it has none; any other column keeps the value it had, or has the default if the id is new |
| `RestoredColumns.NoOtherRows` | internal/usecase/backup/restore.go:426-441 | the rows after a restore are those before and those of the records, and a row no record stands for is as it was |
| `RestoredColumns.NoIdTwiceInAHundred` | internal/usecase/backup/restore.go:385-392 | in a restore that is accepted no id comes up twice among the same hundred records of a table |
| `UnnamedLines.BelongsIff` | internal/usecase/backup/restore.go:231-234 | the table name decides where a line goes, and without one the first table all of whose fields are there |
| `UnnamedLines.UnnamedLineLands` | internal/usecase/backup/restore.go:516-543 | after a restore the row of an unnamed line is in the table its fields tell |
| `UnnamedLines.UnknownLineIsRefused` | internal/usecase/backup/restore.go:239-247 | an unnamed line whose fields tell no table, or one of key material, refuses the stream |
| `UnnamedLines.UnnamedHistoryIsRefused` | internal/usecase/backup/restore.go:526 | a stream whose first record of whatsapp_history is an unnamed line is refused |
| `Exported.RowsOfExport` | internal/usecase/backup/restore.go:248-266 | the rows restore reads back from the lines of an export, in any order of lines, are the rows exported |
| `Exported.TableRestored` | internal/usecase/backup/restore.go:426-441 | upserting a tenant's rows into a table, in a given order, is accepted iff no id belongs to another tenant and no unique key is held by another row of the table that has not been overwritten when it comes up; then they overwrite it |
| `RoundTrip.HalfwayIsClosed` | internal/usecase/backup/export.go:14-16 | with parents first, a database restored up to any table has a dangling reference only if the final one has one from those tables |
| `RoundTrip.EveryStatementIsClosed` | internal/adapter/repository/postgres/db.go:75-79 | in a restore of an export that succeeds the unique keys hold and no reference dangles after any row of any table: the restore would succeed with immediate foreign keys as well |
| `RoundTrip.RestoreOfExport` | internal/usecase/backup/restore.go:216-328 | restoring an export with its lines in a given order succeeds iff the tenant had no rows in the two rejected tables, none of its ids is another tenant's in the target, each row comes up with its unique keys free, and at the commit no reference dangles; the outcome is the target overwritten with the exported rows |
| `RoundTrip.RoundTripIsIdentity` | internal/usecase/backup/restore.go:216-328 | export, wipe of any of the tenant's tables, restore gives back the whole database |
| `RoundTrip.RestoreBringsTheTenantBack` | internal/usecase/backup/restore.go:216-328 | into a database without rows of the tenant restore brings exactly the exported rows and leaves the other tenants' rows as they are |
| `LineOrder.EveryOrderIsRestoredIff` | internal/usecase/backup/restore.go:385-450 | every order of the lines of an export is restored iff besides no exported row has a unique key that a row with another id holds in the target |
| `LineOrder.TakenKeyIsRefused` | internal/usecase/backup/restore.go:426-447 | a row that comes up while a row not overwritten by then holds its unique key: the restore is refused |
| `LineOrder.OutsideHolderIsRefused` | internal/usecase/backup/restore.go:426-447 | a unique key held by a row that is not exported: refused in every order of the lines |
| `LineOrder.NewHolderFirstIsRefused` | internal/usecase/backup/restore.go:426-447 | a unique key held by any row with another id: refused in the order that brings the new holder first |
| `LineOrder.PhoneWroteAgain` | migrations/0001_init.up.sql:63 | the input that fails: export, reset, a new contact with the same phone, restore - a legal database, no foreign id, nothing dangling, and refused |
| `RestoreSafety.OtherTenantsAreUntouched` | migrations/0001_init.up.sql:208-236 | whatever the lines say, a restore that succeeds touches no row of another tenant, writes no key material and leaves no dangling reference |
| `RestoreSafety.OtherRowsStay` | migrations/0001_init.up.sql:208-236 | a row with another tenant_id is as it was, and a new row has the tenant's |
| `TableTwice.SecondTime` | internal/usecase/backup/restore.go:383-384 | repeating a batch: a key that came up again has the value it had the first time at that point, the others the final one |
| `TableTwice.BatchAgain` | internal/usecase/backup/restore.go:383-384 | a batch taken once is put again without any change iff no row has, when it comes up, a unique key that an id first coming later ends up with; otherwise it is refused |
| `RestoreTwice.RestoreIsIdempotent` | internal/usecase/backup/restore.go:383-384 | restoring a stream over its own result is accepted and changes nothing, for every stream accepted once whose first record of each table has an id and that brings no id twice in a table, exported or not |
| `RestoreTwice.SecondRestore` | internal/usecase/backup/restore.go:383-384 | a stream accepted once that has ids, restored again: accepted and nothing changes iff no record has, when it comes up, a unique key that an id first coming later ends up with; otherwise refused |
| `RestoreTwice.RestoreIsIdempotentIff` | internal/usecase/backup/restore.go:383-384 | for every stream accepted once, with new made-up ids the second time: the second restore is accepted and changes nothing if and only if the first record of each table has an id and that condition on the unique keys holds |
| `ContactStreams.OneMoreContact` | internal/usecase/backup/restore.go:426-441 | one contact without an id, over any database: accepted iff its required columns are there and no other contact has its unique key, and then exactly one row is added |
| `ContactStreams.ContactWithoutPhoneComesAgain` | internal/usecase/backup/restore.go:383-384 | without a phone (or another column of the unique key) each restore adds one more row |
| `ContactStreams.ContactWithPhoneComesOnce` | migrations/0001_init.up.sql:63 | with one the second restore is refused |
| `RepeatedId.RepeatedIdIsRefused` | internal/usecase/backup/restore.go:385-395 | a stream of 102 contacts that have ids, one of them twice: accepted into an empty table, refused over its own result |
| `Deletes.WipeCommitsIff` | internal/usecase/backup/reset.go:137-159 | with deferred foreign keys the deletes of the tenant's rows from any tables commit if and only if no row that stays refers to one of them |
| `Deletes.ResetCanBeRefused` | internal/usecase/backup/reset.go:159-162 | a legal database in which the reset is refused: another tenant's conversation refers to a contact of this one |
| `Deletes.LeafWipeCommits` | internal/usecase/backup/reset.go:117-133 | deletes from tables that nothing refers to, such as the WhatsApp tables, always commit |
| `Deletes.WipedRows` | internal/usecase/backup/reset.go:123-158 | a delete takes exactly the rows whose tenant_id is the tenant's |
| `Deletes.ResetClearsTheTenant` | internal/usecase/backup/reset.go:117-158 | the two lists of tables together are all tables of the backup; without the platform connection all but the three of WhatsApp |
| `Deletes.ResetThenRestoreIsIdentity` | internal/usecase/backup/reset.go:92-163 | whatever a reset leaves, complete or failed at any point, a restore of an earlier export gives back the whole database |
| `BackupService.Database.Insert` | internal/usecase/backup/restore.go:443-447 | a statement is atomic: refused by policies, NOT NULL or a unique key, or exactly the specified upsert; references are not checked |
| `BackupService.Database.Commit` | internal/adapter/repository/postgres/db.go:75-79 | succeeds exactly when no reference dangles, if the store answers; otherwise the transaction's start is back |
| `BackupService.Service.ExportTable` | internal/usecase/backup/export.go:210-251 | one line for each of the tenant's rows of the table |
| `BackupService.Service.Export` | internal/usecase/backup/export.go:193-279 | every row of the tenant exactly once, none of another tenant, tables in topological order |
| `BackupService.Service.Parse` | internal/usecase/backup/restore.go:216-270 | refuses iff some line is malformed, has no table or one outside the allowlist; otherwise the batches and the order of the stream, which do not depend on the order of the lines |
| `BackupService.Service.Upsert` | internal/usecase/backup/restore.go:385-450 | the chunk loop runs the statements of a hundred rows |
| `BackupService.Service.UpsertTables` | internal/usecase/backup/restore.go:300-323 | the batches are upserted one table after the other in that order |
| `BackupService.Service.Restore` | internal/usecase/backup/restore.go:216-328 | one transaction: on any error, a dangling reference at the commit included, the database is as it was, otherwise it is the specified restore; blank streams are skipped |
| `BackupService.Service.Transaction` | internal/usecase/backup/restore.go:280-328 | all tables and the commit, or nothing |
| `BackupService.Service.DeleteEach` | internal/usecase/backup/reset.go:117-133 | each WhatsApp delete commits on its own: the first n tables are wiped and counted when an error stops it |
| `BackupService.Service.DeleteNow` | internal/usecase/backup/reset.go:123-131 | a delete that commits by itself: with a store that answers it fails exactly when a reference would dangle |
| `BackupService.Service.DeleteInside` | internal/usecase/backup/reset.go:151-158 | the deletes of the transaction with the running counter, before the commit |
| `BackupService.Service.DeleteTogether` | internal/usecase/backup/reset.go:137-159 | the six deletes and their commit: with a store that answers they succeed iff no row of another tenant refers to one of the tenant's; then exactly its rows are gone and counted, otherwise nothing has changed |
| `BackupService.Service.ResetParts` | internal/usecase/backup/reset.go:115-163 | both parts, for any two lists of tables with all foreign keys within the second |
| `BackupService.Service.Reset` | internal/usecase/backup/reset.go:92-163 | with a store that answers it succeeds if and only if no row of another tenant refers to a row of this one; then no row of the tenant is left in any table and the count is that of all its rows, the three WhatsApp tables being left alone without the platform connection; if it fails the six tenant tables are as they were and only WhatsApp tables, in the platform case, are wiped |
| `ManagerMachine.OrderIsKeySet` | internal/adapter/provider/whatsmeow/manager.go:113-259 | under any interleaving the order slice lists the active tenants once each, and there are at most MaxActiveTenants |
| `ManagerMachine.EveryClientIsAccountedFor` | internal/adapter/provider/whatsmeow/manager.go:137-171 | under any interleaving each client ever created is in flight, active for exactly one tenant, being disconnected, or disconnected - and in only one of these places |
| `ManagerMachine.OrderIsByLastUse` | internal/adapter/provider/whatsmeow/manager.go:235-244 | the slice is sorted by the time of last use, most recent last |
| `ManagerMachine.EvictionIsLeastRecentlyUsed` | internal/adapter/provider/whatsmeow/manager.go:247-259 | only an insertion into a full manager evicts, one tenant, disconnected, and every other active tenant was used after it |
| `WhatsappManager.Manager.constructor` | internal/adapter/provider/whatsmeow/manager.go:74-84 | a limit of zero or less becomes 100 |
| `WhatsappManager.Manager.TouchLru` | internal/adapter/provider/whatsmeow/manager.go:236-244 | moves the tenant to the end of the slice |
| `WhatsappManager.Manager.EvictLru` | internal/adapter/provider/whatsmeow/manager.go:247-259 | takes out and disconnects the tenant at the front |
| `WhatsappManager.Manager.Get` | internal/adapter/provider/whatsmeow/manager.go:174-183 | the tenant's client, now most recently used, or none |
| `WhatsappManager.Manager.Insert` | internal/adapter/provider/whatsmeow/manager.go:149-171 | the re-check: an active client wins and the new one is disconnected, otherwise the new one is installed with room made |
| `WhatsappManager.Manager.GetOrCreate` | internal/adapter/provider/whatsmeow/manager.go:113-171 | a tenant active at the call gets its client, in one critical section; otherwise nothing is returned exactly when the factory fails, and else, with arbitrary calls in between, the tenant's active client, most recently used; a client this call created is the result or disconnected |
| `WhatsappManager.Manager.Disconnect` | internal/adapter/provider/whatsmeow/manager.go:205-226 | with arbitrary calls in between: the client found at the start is disconnected; without one nothing else happens |
| `Throttle.BackoffDoubles` | internal/adapter/provider/whatsmeow/reconnect.go:41-58 | after k backoff errors in a row from a reset state the backoff is min(minInterval * 2^(k-1), maxBackoff), the first one uncapped |
| `Throttle.BackoffFormulaIff` | internal/adapter/provider/whatsmeow/reconnect.go:41-58 | the formula holds for every k exactly when minInterval does not exceed maxBackoff |
| `Throttle.DueTimesAreSpaced` | internal/adapter/provider/whatsmeow/reconnect.go:60-72 | for any errors, resets and clock, also one that jumps back, n scheduled reconnects span at least (n-1) * minInterval |
| `Throttle.DueTimesRespectBackoff` | internal/adapter/provider/whatsmeow/reconnect.go:60-72 | each scheduled reconnect is at least max(minInterval, backoff) after the one before |
| `Throttle.ReconnectThrottle.Next` | internal/adapter/provider/whatsmeow/reconnect.go:41-73 | due at once when the interval or the backoff has passed since the last due time, else exactly then; the backoff grows for errors that name 429 or 515 and for no other, up to 30 minutes |
| `WarmupQuota.DaysKeepTheQuota` | internal/adapter/provider/whatsmeow/reconnect.go:147-173 | with a clock that does not go back and at most k allowed sends outstanding at any time, the sends of a UTC day never exceed the quota at that day's last send plus k - 1, so with k = 1 never the quota, also when it steps up during the day |
| `WarmupQuota.BoundIsReached` | internal/adapter/provider/whatsmeow/reconnect.go:147-173 | the bound is reached: one send below the quota k senders are all allowed before the first records |
| `WarmupQuota.NothingInFourDays` | internal/adapter/provider/whatsmeow/reconnect.go:92-95 | nothing is allowed in the first 96 hours, whatever the clock does |
| `WarmupQuota.NothingSentInFourDays` | internal/adapter/provider/whatsmeow/reconnect.go:92-95 | nor sent, with a clock that does not go back |
| `WarmupQuota.TimelockHolds` | internal/adapter/provider/whatsmeow/reconnect.go:147-187 | no send to an unknown contact is allowed within 24 hours of a timelock; a later, shorter one does not shorten it |
| `WarmupQuota.AcceptedIff` | internal/adapter/provider/whatsmeow/reconnect.go:92-161 | an ask is accepted iff the sends of its UTC day are fewer than the ramp admits - 0 for four days, then 10, 30, 50, 80, 100, 100 and 200 - and, for an unknown contact, every lock is 24 hours old |
| `WarmupQuota.Warmup.AllowSend` | internal/adapter/provider/whatsmeow/reconnect.go:147-161 | the decision, its reason, and the day rolled unless the timelock refused |
| `WarmupQuota.Warmup.RecordSent` | internal/adapter/provider/whatsmeow/reconnect.go:164-173 | the counter of the day of the send is one higher |
| `WarmupQuota.Warmup.TriggerTimelock` | internal/adapter/provider/whatsmeow/reconnect.go:176-187 | the lock never moves backwards |
| `Lifecycle.AddedKeepsNames` | pkg/lifecycle/runner.go:98-117 | phase names stay distinct; the last phase of a name replaces the first |
| `Lifecycle.StopsReverseStarts` | pkg/lifecycle/runner.go:233-245 | the backward pass stops, of the phases started, those with a Stop, last started first |
| `Lifecycle.StopOrder` | pkg/lifecycle/runner.go:233-245 | of two started phases that have a Stop the later started is stopped first |
| `Lifecycle.StartOrder` | pkg/lifecycle/runner.go:142-217 | of two phases that have a Start the one added before is started before |
| `Lifecycle.StopOnlyPhaseIsNeverStopped` | pkg/lifecycle/runner.go:21-27 | a phase is stopped iff it was started and has a Stop; one that exists only for its Stop never is |
| `Lifecycle.Runner.AddPhase` | pkg/lifecycle/runner.go:98-117 | replaces in place or appends; ignored after boot or shutdown began |
| `Lifecycle.Runner.Boot` | pkg/lifecycle/runner.go:142-217 | starts the phases in order up to the first failure, which shuts down; afterwards the stops are the reversed starts, as far as they have a Stop |
| `Lifecycle.Runner.Shutdown` | pkg/lifecycle/runner.go:221-281 | the same for a direct shutdown; a second one does nothing |
| `Telegram.IntToStr` | internal/adapter/webhook/telegram/handler.go:177-197 | every 64-bit integer fits the 20-byte buffer; the result is the decimal with its sign, except that the least integer prints as a bare sign |
| `Telegram.ParseChatId` | internal/adapter/provider/telegram_bot/telegram.go:240-252 | digits only, wrapping in 64 bits |
| `Telegram.ParsedIs` | internal/adapter/provider/telegram_bot/telegram.go:240-252 | non-empty strings of 0 to 9 and nothing else are taken, and answered as the number modulo 2^64, signed |
| `Telegram.PrintedIs` | internal/adapter/webhook/telegram/handler.go:177-197 | the printed text is the decimal of the number without leading zeros, a minus sign before a negative one |
| `Telegram.ParserInvertsPrinterIff` | internal/adapter/provider/telegram_bot/telegram.go:240-252 | the parser inverts the printer exactly on the integers that are not negative |
| `Telegram.DedupIdIsInjective` | internal/adapter/webhook/telegram/handler.go:164-175 | different (chat, message) pairs never share a deduplication id, the least integer included |

## Left out

- Two relays at once: the claim's row locks end with the statement, so nothing excludes a second relay.
- Time-outs, tickers, notification channels and the goroutines around the loops; a context is a number of passes or rows after which it is cancelled.
- AES-GCM, base64, key derivation and random bytes: an ideal cipher that opens under the sealing key alone.
- pgValueToJSON and pgValueFromJSON: an abstract codec; the round trip assumes that it loses nothing, which the real one does not promise for byte arrays and for text that looks like a time or a UUID.
- Column types: what a stream puts into a column is taken to have its type; a refusal for that is one of the errors a database that is not reliable may give, and rolls the restore back. Exported values have their types.
- Manifest, schema versions, S3, dry runs, job records and audit rows of the backups; reset also deletes the tenant's stored backups, so identity after reset is about the database and an export kept elsewhere.
- Sticky-store errors, tenant transactions that fail for reasons of their own, and audit in the router; AgentRepo and QueueRepo have no implementation in the repository, so IncLoad follows its interface comment and ignores an unknown agent.
- Writes to conversations outside the router (the ingestor and the list service), which bypass its load accounting.
- The version window, audit and console report of the rotation; row errors of the report carry slot and operation only.
- Manager.DisconnectAll, which leaves its entries in the map and is only called at the end; dispatchers and QR codes.
- Warmup.Load, Penalize and the health score; a restored counter may exceed the restarted quota.
- Overflow of Go's 64-bit durations in the throttle and the warm-up: integers are unbounded there (the Telegram decimals do wrap).
- Runner.Run, Wait, phase time-outs and metrics; calls are one after the other.
- Selection.Select: with repeated candidate ids it states eligibility only, because ties then depend on the order of the candidates.
- HTTP, web sockets, templates, provider clients, circuit breaker, RBAC, password rules, settings, message bus counters and inbox paging.
