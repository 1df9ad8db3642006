# A verified model of the NestJS JetStream transport

The transport provisions JetStream streams at boot, migrates them when an immutable property
changes, routes messages to handlers and makes RPC calls over streams. This project models the parts
of it whose correctness depends on order, interleaving or arithmetic, and proves what they are for.
`dafny verify dfyconfig.toml` checks everything.

- **Stream migration** (`StreamServer`, `MigrationSafety`, `StreamMigration`, `MigrationRuns`).
  `StreamServer` is what a process sees of the NATS server: the stream, its backup, messages,
  sources with a position and a reported lag, and the environment's steps (publish, copy, report,
  time). `MigrationSafety.Inv` is the invariant of every reachable world; `RunKeeps` and the
  `...Keeps` lemmas prove it of the environment and of each call. The methods of
  `StreamMigration.StreamMigration` are the source's methods, statement by statement, with any run
  of the environment at every `await`; `calls` records what the process asked of the server. A call
  may take effect and report failure, and the process
  may die in any call, so what a method ensures for every outcome holds in every state a crash can
  leave. The invariant is the safety argument of the protocol: quiesce before counting; a lag of 0 of
  a synced source means everything was copied; a backup beside a recreated stream that does not
  source it means that nothing of the backup has entered that stream.
- **Boot convergence** (`StreamConfigDiff`, `Metadata`, `SubjectUtils`, `StreamProvider`,
  `StreamBoots`): subject inclusion, the merge of the shared stream's subjects, the update that a boot
  sends, and any number of boots.
- **Routing** (`ConcurrencyGate`, `EventPipeline`, `RpcRouter`): the bounded gate, settlement and
  dead-letter capture of events, and the race of result, error and deadline of an RPC command.
- **RPC client** (`RpcClient`): the reply inbox and the requests around it, in any interleaving.
- **Ack extension** (`AckTimers`, `AckExtension`): one adaptive timer against one timer a message.
- **Text** (`HeaderCapture`, `NameResolver`, `Durations`): globs compiled to regular expressions,
  subject names and the schedule namespace, and the duration printer.

Classes carry the source's fields. Fields that are history only (`log`, `calls`, `acked`, `ended`)
record what happened, and the theorems are about them; no branch reads them. Modules of
specification functions (`AckTimers`, the tallies of `EventPipeline`) say what the methods compute,
and the lemmas are about those functions.

## What turned out not to hold

- Re-running a recovery can duplicate messages. If a process dies after it created the backup and
  before it deleted the original, which is the whole of the drain wait, the next recovery attaches
  that backup to a stream that still holds everything, and every backed-up message is in it twice
  (src/server/infrastructure/stream-migration.ts:178-188; the comment there says otherwise).
  `MigrationRuns.DeathInTheDrainWait` is such a run. `MigrationSafety.RestoreIsExactIff` proves of
  every restore that it is exact if and only if the stream held none of the backup's messages when
  the backup was attached, and `StreamMigration.RecoveryIsExactIff` that this is so if and only if the
  original had been deleted and its backup copied nothing of the new stream. What was saved at the
  delete always comes back exactly once.
- A restore deletes the backup and then detaches the source. A process that dies in between leaves
  a source on the backup's name that no later boot removes (recovery looks for a backup first). If
  that stream is migrated again, stream and backup source each other, and the backup may hold a
  message twice. `MigrationRuns.DeathBeforeDetach` reaches that state, and
  `MigrationSafety.BackupIsExactIff` proves that every way to a drained backup gives an exact copy if
  and only if the stream had no such source; nothing is lost in either case.
- An option that sets an enable-only flag to `null` or `undefined` makes the boot send an update that
  asks to turn off a flag that is on; only `false` is recognised as disabling. The server refuses it,
  so the flag stays on, the boot fails, and every later boot sends the same again:
  `StreamProvider.TurnOffIsSentIff`, `RefusedByServerIff`, `SecondBootSendsNothing`.
- For a message that waited in the backlog the server's ack deadline can come to the very moment of
  the next extension: the park timer is cancelled and the route's timer starts over. For an `ack_wait`
  that is a whole even number of milliseconds the two halves can add up to all of it;
  `AckTimers.LapseExcludedIff` proves that for every other one they cannot.
- `*` in a glob does not match a line terminator: `HeaderCapture.FaithfulIffOneLine`.
- The duration printer calls its form the shortest; it never uses microseconds, and is the shortest
  of Go's forms exactly when `Durations.ShortestInGoIff` says so (1000 ns prints as `1000ns`).
- Without dead-letter capture a message that cannot be routed is terminated, twice if the first call
  throws (`EventPipeline.Delivery.Route`, `RpcRouter.Command.ResolveCommand`).
- A caller whose RPC request could not be built is called back even if it has unsubscribed meanwhile
  (`RpcClient.JetstreamClient.OnRejected`).

## Where documentation and code differ

- website/docs/guides/stream-migration.md:118 and the error text at
  src/server/infrastructure/stream-migration.ts:244-247 say that after a sourcing timeout the backup
  is preserved. Before the original is deleted the code rolls back and deletes the backup; the model
  follows the code (`RolledBack` or `Resumable` in `StreamMigration.StreamMigration.Migrate`).
- The same guide says that publishes are rejected until the restore completes. The stream is
  recreated with its subjects before the restore (line 99), so publishes are accepted during it;
  `Restoring` in `MigrationSafety` allows for that.
- The comment at src/server/infrastructure/stream.provider.ts:315-317 says that an update replaces the
  whole configuration. The model takes every update as an overlay of the fields it names.

## Model

| member | source | states |
|---|---|---|
| MigrationSafety.RunKeeps | src/server/infrastructure/stream-migration.ts:25-42 | whatever the server and live publishers do, in any order and number of steps, the migration invariant survives |
| MigrationSafety.InvMeansNothingLost | src/server/infrastructure/stream-migration.ts:74-79 | the invariant implies that every acknowledged publish is in the stream or in its backup |
| MigrationSafety.RunFrame | src/server/infrastructure/stream-migration.ts:74-79 | the environment configures nothing and only appends; a quiesced stream acknowledges nothing more and stays as it was counted |
| MigrationSafety.BackingUpRun | src/server/infrastructure/stream-migration.ts:215-219 | while a quiesced stream is being copied, its backup reports lag 0 only when it holds every acknowledged message |
| MigrationSafety.DrainedMeansCopied | src/server/infrastructure/stream-migration.ts:215-219 | a stream whose live source reports lag 0 holds the whole backup, and what was saved exactly once, whatever was published meanwhile |
| MigrationSafety.RestoredOnce | src/server/infrastructure/stream-migration.ts:193-213 | a fully drained restore holds each message of the deleted stream as often as it was backed up |
| MigrationSafety.AddBackupKeeps | src/server/infrastructure/stream-migration.ts:84-90 | a backup may be created beside a quiesced stream |
| MigrationSafety.AttachKeeps | src/server/infrastructure/stream-migration.ts:200-207 | attaching the backup keeps the invariant once the backup's own source is cleared |
| MigrationSafety.DetachKeeps | src/server/infrastructure/stream-migration.ts:210-212 | the source may be detached once the backup is gone |
| MigrationSafety.DeleteMainKeeps | src/server/infrastructure/stream-migration.ts:95-98 | the original may be deleted when it is empty or the backup is complete, and then everything acknowledged is in the backup |
| MigrationSafety.DeleteBackupKeeps | src/server/infrastructure/stream-migration.ts:210-211 | the backup may be deleted beside a stream that was never deleted or that drained it, and then the stream alone holds everything, saved messages once |
| MigrationSafety.BackupIsExactIff | src/server/infrastructure/stream-migration.ts:210-212 | every way to a drained backup copies each message exactly once if and only if the stream had no source left on the backup's name |
| MigrationSafety.DrainedBackupIsCopy | src/server/infrastructure/stream-migration.ts:81-93 | without such a source a backup that reports drained equals the stream, in order |
| MigrationSafety.AccountedRun | src/server/infrastructure/stream-migration.ts:205-208 | over any steps a stream that copies from its backup gains of each backed-up message exactly what its source moved past, and one without a backup gains only new messages |
| MigrationSafety.DrainAddsBackup | src/server/infrastructure/stream-migration.ts:205-208 | on every schedule, draining an attached backup adds exactly the backup to what the stream held of each message |
| MigrationSafety.RestoreIsExactIff | src/server/infrastructure/stream-migration.ts:178-188 | a restore leaves each backed-up message as often as it was backed up if and only if the stream held none of them when the backup was attached |
| MigrationSafety.UnsourcedBackupIsApartIff | src/server/infrastructure/stream-migration.ts:31-35 | that is so if and only if the original was deleted and the backup has copied nothing since; then nothing saved at the delete has entered the stream, and beside an original that was not deleted everything of the backup is in it |
| MigrationSafety.FirstBoot | src/server/infrastructure/stream.provider.ts:186-203 | a stream that was never migrated satisfies the invariant |
| MigrationRuns.DeathInTheDrainWait | src/server/infrastructure/stream-migration.ts:81-93 | from the first boot: a death while the backup fills, a recovery of the stale backup, and the one message is in the stream twice |
| MigrationRuns.DeathBeforeDetach | src/server/infrastructure/stream-migration.ts:210-212 | from the first boot: a death between the last delete and the detachment, and the next migration starts its backup beside a stream that still has a source |
| StreamMigration.JetStreamManager.Info | src/server/infrastructure/stream-migration.ts:310-323 | an info call answers truly or fails; not-found means not there |
| StreamMigration.JetStreamManager.Update | src/server/infrastructure/stream-config-diff.ts:27-59 | an update overlays the given fields or does nothing, is refused for locked settings and for turning off an enable-only flag, and may fail after taking effect |
| StreamMigration.StreamMigration.Await | src/server/infrastructure/stream-migration.ts:74-97 | across any `await` the invariant, the frame and a backup under way survive |
| StreamMigration.StreamMigration.Migrate | src/server/infrastructure/stream-migration.ts:51-125 | keeps the invariant under every outcome and crash; returning means recreated with the new configuration and every old message in it (exactly once unless it still sourced the backup); whatever fails once the subjects were taken away, either the delete of the original was reported or putting the configuration back is tried after it, and if that and what follows is reported done the stream serves as before; after a peer the phases run only for what still needs a new stream; when nothing crashes, throwing means a drain used up its whole waiting time and the stream was rolled back or can be resumed |
| StreamMigration.StreamMigration.RunOrRollBack | src/server/infrastructure/stream-migration.ts:71-118 | every throw before the delete of the original was reported is followed by the update that puts the configuration back, for any failing call |
| StreamMigration.StreamMigration.AdoptPeerResult | src/server/infrastructure/stream-migration.ts:62-67 | when another instance has migrated the stream one update is all that is sent, and returning means the stream has the new configuration |
| StreamMigration.StreamMigration.RunPhases | src/server/infrastructure/stream-migration.ts:71-105 | the four phases; a failure before the delete leaves the original untouched but for its subjects, one after it a complete backup |
| StreamMigration.StreamMigration.Quiesce | src/server/infrastructure/stream-migration.ts:75-79 | after the quiesce the count is exactly the number of messages in a stream that accepts no publish |
| StreamMigration.StreamMigration.CreateBackup | src/server/infrastructure/stream-migration.ts:81-90 | the backup it creates is empty, quiet, stamped with the time of its creation and sourced from the stream |
| StreamMigration.StreamMigration.WaitForSourceDrained | src/server/infrastructure/stream-migration.ts:220-248 | returns only when the source has synced and reports lag 0 with the minimum of messages; it times out only after the whole waiting time |
| StreamMigration.StreamMigration.RestoreFromBackup | src/server/infrastructure/stream-migration.ts:194-213 | returning means the stream alone, detached, configured, holding everything, and of each backed-up message what it held at the attachment plus what the backup held; when nothing crashes it returns or a drain used up its waiting time with the backup kept |
| StreamMigration.StreamMigration.DeleteAndRecreate | src/server/infrastructure/stream-migration.ts:95-100 | the original goes only when it is empty or its backup complete; afterwards an empty stream with the new configuration stands beside the backup of all it held |
| StreamMigration.StreamMigration.DrainThenDetach | src/server/infrastructure/stream-migration.ts:208-212 | drain, then delete the backup, then detach: the order that keeps the invariant at each crash point; the stream gains exactly what its source had left |
| StreamMigration.StreamMigration.ClearBackupSource | src/server/infrastructure/stream-migration.ts:200-205 | afterwards the backup sources nothing, so attaching it forms no cycle |
| StreamMigration.StreamMigration.WaitOutPeerMigration | src/server/infrastructure/stream-migration.ts:254-273 | returns only when no backup exists, and true only if one was there; gives up only after the whole waiting time |
| StreamMigration.StreamMigration.RollbackBeforeDelete | src/server/infrastructure/stream-migration.ts:276-296 | the first call puts the configuration back and nothing but the backup is touched afterwards; the backup goes only after that update proved that the original exists; when all calls are reported done the original serves again with its own configuration and without a backup |
| StreamMigration.StreamMigration.RecoverInterrupted | src/server/infrastructure/stream-migration.ts:131-191 | from every state a crash leaves: true means the stream is restored with every acknowledged message and its own configuration (the desired one if it was missing), and a restore that had not begun adds exactly the backup; a backup of less than 90 seconds is left alone; false means that nothing changed and there was no stale backup; when nothing crashes it returns, or a drain used up its whole waiting time |
| StreamMigration.FreshThroughTwoDrains | src/server/infrastructure/stream-migration.ts:14-19 | with the default timeouts a backup is not stale before both drain waits of its own migration can have run out |
| StreamMigration.RecoveryIsExactIff | src/server/infrastructure/stream-migration.ts:176-190 | a recovery that begins the restore leaves exact copies if and only if the original had been deleted and its backup copied nothing since; otherwise, beside an undeleted original, every backed-up message is there at least twice |
| StreamMigration.StreamMigration.RecoverBesideStream | src/server/infrastructure/stream-migration.ts:159-190 | a stream beside its stale backup keeps its configuration: an attached restore is finished, an empty backup dropped without touching the stream, and a restore that never began is run, which adds exactly the backup to what the stream holds |
| StreamMigration.StreamMigration.ResumeAfterDelete | src/server/infrastructure/stream-migration.ts:145-157 | a stream missing beside its backup is recreated as desired and restored |
| StreamMigration.StreamMigration.RecoverTwice | src/server/infrastructure/stream-migration.ts:131-191 | after a recovery that finished, a second one returns false and changes nothing |
| StreamProvider.EnsureStream | src/server/infrastructure/stream.provider.ts:163-218 | one boot keeps the invariant under every outcome; one that returns, whether it created, updated, migrated or recovered the stream, leaves a stream that the same boot finds unchanged; without a migration every outcome leaves the configuration as it was or as the accepted update makes it; the backup of a live migration is left alone and a stale one is gone; undisturbed it fails only if it refuses, the server refuses, or a migration runs out of time |
| StreamProvider.ReconcileStream | src/server/infrastructure/stream.provider.ts:301-393 | what an existing stream needs is decided and sent, with the same guarantees |
| StreamProvider.MigrateOrCreate | src/server/infrastructure/stream.provider.ts:194-203 | a not-found error that escapes the migration, and no other, leads to the creation of the stream, losing nothing; a migration that returns is followed by a look at the stream |
| StreamProvider.ConfiguredNeedsNothing | src/server/infrastructure/stream.provider.ts:315-329 | a stream that has every wanted setting and the wanted subjects, whatever else it has, is sent nothing |
| StreamBoots.Operate | src/server/infrastructure/stream.provider.ts:163-218 | after any number of boots with any options, failures and crashes no acknowledged message is lost; where the stream stands alone, what its backup held when the original was last deleted is in it exactly once, until the next backup is made; boots that share a stream take no subject away, whatever crashes |
| StreamConfigDiff.CompareStreamConfig | src/server/infrastructure/stream-config-diff.ts:68-126 | lists each property whose desired value is not the current one once with its kind, and the flags say exactly which kinds occur, in terms of plain equality and of the property names; in nested values the order of keys counts |
| StreamConfigDiff.KindsArePlain | src/server/infrastructure/stream-config-diff.ts:105-118 | only a different storage, or a flag of the four that is on and desired off, needs a new stream; a different retention is a conflict; every other difference asks for an update |
| StreamConfigDiff.AnyMatchesHasChange | src/server/infrastructure/stream-config-diff.ts:88-94 | a kind is in the recorded changes if and only if some property differs in that way |
| StreamProvider.HandleExistingStream | src/server/infrastructure/stream.provider.ts:301-393 | the sequence of tests decides as `Decide` says, for every current and desired configuration |
| StreamProvider.RefusesAndMigratesIff | src/server/infrastructure/stream.provider.ts:301-393 | a boot refuses if and only if another connection of the service owns the stream, the retention differs, or a shared stream would have to be recreated; it migrates if and only if that is allowed, needed and the stream is its own |
| StreamProvider.ConflictIsPlain | src/server/infrastructure/stream.provider.ts:599-617 | another connection of the same service owns the stream if and only if the owner fields differ and the stored one begins with the service name |
| StreamProvider.BootAppliesDesired | src/server/infrastructure/stream.provider.ts:324-366 | after a boot that goes through without a migration every desired property but metadata, storage and a flag turned off has its desired value, missing and null being one |
| StreamProvider.OwnMetadataApplied | src/server/infrastructure/stream.provider.ts:315-322 | after such a boot every metadata field the options ask for is on the stream |
| StreamProvider.UnchangedMeansAgreement | src/server/infrastructure/stream.provider.ts:324-328 | nothing is sent only where every such property and, unless shared, the subjects are as desired already |
| StreamProvider.MigratesToDesired | src/server/infrastructure/stream.provider.ts:371-391 | a migration recreates the stream with exactly the desired subjects and properties, merged metadata apart |
| StreamProvider.BuildMutableOnlyConfig | src/server/infrastructure/stream.provider.ts:395-415 | replaces exactly a different retention or storage and a flag turned off by the current values, leaves out those that have none, and keeps every other desired value |
| StreamProvider.UpdateRespectsLocks | src/server/infrastructure/stream.provider.ts:345-366 | an update that the server accepts, without a migration, leaves retention and storage alone, applies every mutable change and touches nothing that was not asked for |
| StreamProvider.EnabledFlagStaysOn | src/server/infrastructure/stream-config-diff.ts:47-59 | a flag that can only be enabled is on after every boot if it was before |
| StreamProvider.TurnOffIsSentIff | src/server/infrastructure/stream-config-diff.ts:112-115 | an update asks to turn such a flag off if and only if the options set it to something that is no boolean |
| StreamProvider.RefusedByServerIff | src/server/infrastructure/stream.provider.ts:345-366 | that is the only reason for the server to refuse an update a boot sends: nothing locked is ever sent |
| StreamProvider.ForeignMetadataSurvives | src/server/infrastructure/stream.provider.ts:315-322 | metadata keys the transport did not write keep their values |
| StreamProvider.WantedIsStable | src/server/infrastructure/stream.provider.ts:315-324 | after an accepted update a boot wants the same settings as before, whatever order the server returns the metadata in |
| StreamProvider.StoredNeedsNothing | src/server/infrastructure/stream.provider.ts:301-366 | once an update was accepted a boot with the same options sends nothing, in whatever order the server returns the metadata |
| StreamProvider.SecondBootSendsNothing | src/server/infrastructure/stream.provider.ts:301-366 | a second boot with the same options sends an update if and only if the server refused the first one, and then the same |
| Metadata.MergedField | src/server/infrastructure/stream.provider.ts:318-322 | in the merged metadata desired fields win and all others stay |
| Metadata.MergeIsStable | src/server/infrastructure/stream.provider.ts:318-322 | merging what is there already changes nothing, not even the order of the keys |
| StreamProvider.PruneKeepsLanguage | src/server/infrastructure/stream.provider.ts:308-310 | the pruned subjects match exactly the concrete subjects the merged ones match |
| StreamProvider.PruneIsAntichain | src/server/infrastructure/stream.provider.ts:308-310 | no kept subject covers another |
| StreamProvider.MergeOfPruned | src/server/infrastructure/stream.provider.ts:307-311 | merging with a pruned list keeps the same set as merging with all that was ever in it |
| StreamBoots.BootKeepsCoverage | src/server/infrastructure/stream.provider.ts:307-366 | after a boot on a shared stream it takes exactly what it took before and, if nothing refused the boot, what that asked for |
| StreamBoots.BootsKeepTheMaximal | src/server/infrastructure/stream.provider.ts:307-366 | after any boots of any services the kept set is the prune of what the stream had and what the boots asked for that were not refused |
| StreamBoots.BootsKeepCoverage | src/server/infrastructure/stream.provider.ts:307-366 | no boot, refused or not, takes away what the stream took before |
| StreamProvider.MergeIsIdempotent | src/server/infrastructure/stream.provider.ts:307-311 | merging again gives the same list in the same order |
| SubjectUtils.SubjectCovers | src/server/infrastructure/subject-utils.ts:2-15 | the index loop decides covering as defined token by token, for any two strings |
| SubjectUtils.CoversOrEqualsIffIncludes | src/server/infrastructure/subject-utils.ts:18-19 | for well-formed filters the answer is true if and only if every subject the second matches is matched by the first |
| SubjectUtils.CoversIsAsymmetric | src/server/infrastructure/subject-utils.ts:1-15 | covering is asymmetric |
| SubjectUtils.CoversIsTransitive | src/server/infrastructure/subject-utils.ts:1-15 | covering is transitive |
| SubjectUtils.JoinSplit | src/server/infrastructure/subject-utils.ts:5-6 | splitting at dots loses nothing |
| SubjectUtils.SplitJoin | src/server/infrastructure/subject-utils.ts:5-6 | dot-free tokens come back from the joined subject |
| ConcurrencyGate.ConcurrencyGate.Push | src/server/routing/concurrency-gate.ts:35-62 | a full gate parks the message last, under a park timer if there is one; otherwise it is routed at once; nothing is undone, and nothing waits while there is room, even when routes push from within their own call |
| ConcurrencyGate.ConcurrencyGate.Begin | src/server/routing/concurrency-gate.ts:89-98 | a slot is taken and the message routed, at once and in order; while the route runs the gate is full or nothing waits; a throw counts as a completed route and a promise keeps the slot |
| ConcurrencyGate.ConcurrencyGate.Reenter | src/server/routing/concurrency-gate.ts:53-61 | pushes from within a route keep every invariant and the order of messages |
| ConcurrencyGate.ConcurrencyGate.OnAsyncDone | src/server/routing/concurrency-gate.ts:84-87 | a route that settles frees its slot, the oldest parked messages fill what is free, and nothing else is undone |
| ConcurrencyGate.ConcurrencyGate.DrainBacklog | src/server/routing/concurrency-gate.ts:108-126 | takes parked messages from the front until the gate is full or nothing waits |
| ConcurrencyGate.ConcurrencyGate.Dispose | src/server/routing/concurrency-gate.ts:69-82 | hands back every parked message once and in order, stops all park timers and leaves running routes alone |
| ConcurrencyGate.Run | src/server/routing/concurrency-gate.ts:35-126 | after any run every message pushed is in exactly one place (routed, handed back or parked in order), no entry occurs twice, the gate runs no more than its limit and exactly that many while a message waits; a park timer is live exactly while its message is parked; a slot is held until its route is over, and after the call only for a promise |
| ConcurrencyGate.AccountsMeans | src/server/routing/concurrency-gate.ts:35-62 | the routes in flight are exactly those started and not finished, and the messages below a bound are exactly those routed or handed back |
| ConcurrencyGate.NothingTwice | src/server/routing/concurrency-gate.ts:69-82 | no message is routed, finished or handed back twice |
| ConcurrencyGate.LeaveInOrder | src/server/routing/concurrency-gate.ts:15-20 | messages leave the gate in the order in which they arrived |
| ConcurrencyGate.SequentialWhenOne | src/server/routing/event.router.ts:153-172 | with limit 1 every earlier route has finished before one starts |
| EventPipeline.Delivery.Capture | src/server/routing/dead-letter-capture.ts:58-92 | ends with one settlement: term if and only if a DLQ publish or callback succeeded, else nak; a publish is tried until it works, at most three times, and the callback runs whenever there is one (called only for unroutable messages and for last deliveries, lines 45-55) |
| EventPipeline.Delivery.PublishWithRetry | src/server/routing/dead-letter-capture.ts:138-162 | up to three attempts, failing only after the third |
| EventPipeline.Delivery.NotifyDeadLetterCallback | src/server/routing/dead-letter-capture.ts:185-200 | after a successful publish the message is terminated whatever the callback does |
| EventPipeline.Delivery.FallbackToOnDeadLetterCallback | src/server/routing/dead-letter-capture.ts:206-235 | terminates if and only if the callback succeeded, else keeps the message |
| EventPipeline.Delivery.SettleEnd | src/server/routing/settlement.ts:24-66 | one settlement call: terminate() gives term; otherwise retry() or a throw gives nak, or on the last delivery what the capture gives; otherwise ack |
| EventPipeline.StatusForContext | src/server/routing/settlement.ts:11-17 | what is reported of a handler that returned: terminated exactly if it called terminate(), succeeded exactly if it asked for nothing |
| EventPipeline.Delivery.RunHandler | src/server/routing/event-pipeline.ts:147-236 | one handler run and one settlement; the ack extension stops, and only after the settlement call |
| EventPipeline.Delivery.Route | src/server/routing/event-pipeline.ts:70-237 | the whole pipeline for one delivery: exactly one settlement when routed or captured, never an ack or term that was not earned, and what happens to unroutable messages without capture |
| EventPipeline.Serve | src/server/routing/event-pipeline.ts:136-237 | over all deliveries of a message, overlapping in any way and with crashes: with capture configured and a registry that does not throw it leaves the queue only after a handler returned and asked for nothing, a terminate() or a capture, and a delivery that completes makes it leave; runs are bounded by the limit, and a message that finds its handler is captured by its last delivery only |
| EventPipeline.InterleavingAddsUp | src/server/routing/event-pipeline.ts:168-171 | an interleaving of two sound deliveries is sound, and their counts add up |
| EventPipeline.ReleasedMeansDealtWith | src/server/routing/settlement.ts:24-66 | an ack or term in a sound log follows a successful run, a terminate() or a capture |
| EventPipeline.PrefixIsBefore | src/server/routing/event-pipeline.ts:136-237 | a process that dies at any point leaves a sound log |
| RpcRouter.Command.ResolveCommand | src/server/routing/rpc.router.ts:190-241 | a command is routed only if it resolves; otherwise it is terminated, twice if the first call throws |
| RpcRouter.Command.HandleSafe | src/server/routing/rpc.router.ts:254-337 | a handler that returns or throws at once ends the command at once; only a pending one arms the deadline |
| RpcRouter.Command.OnResolve | src/server/routing/rpc.router.ts:339-350 | an open command is answered and acked; one that is settled is left alone |
| RpcRouter.Command.OnDeadline | src/server/routing/rpc.router.ts:321-337 | a deadline that fires terminates the command and sends nothing |
| RpcRouter.Run | src/server/routing/rpc.router.ts:254-363 | in every order of result, error and deadline the first alone decides what is called and sent, and before it nothing is: a result is acked and its value, or else an error, is published; an error is published and terminated; a deadline only terminates |
| RpcRouter.OneCallOneReply | src/server/routing/rpc.router.ts:154-188 | whatever ended the command there is exactly one ack or term, at most one published reply and none after a timeout |
| RpcRouter.EveryEndIsTold | src/server/routing/rpc.router.ts:154-188 | a caller whose command was answered or failed waits in vain only if no publish can work |
| RpcRouter.AckThenReply | src/server/routing/rpc.router.ts:309-318 | a value is sent only after the ack was attempted |
| RpcRouter.ExtensionStopsFirst | src/server/routing/rpc.router.ts:339-361 | the ack extension stops before anything is called or sent |
| RpcClient.RpcReplyInbox.Discard | src/client/rpc-reply-inbox.ts:95-104 | drops request and deadline without a callback and says whether it was pending |
| RpcClient.RpcReplyInbox.RejectAll | src/client/rpc-reply-inbox.ts:107-121 | invokes each pending callback once with an error and leaves nothing pending or armed |
| RpcClient.RpcReplyInbox.Route | src/client/rpc-reply-inbox.ts:124-165 | a reply settles exactly the pending request it names, with the error, response or decode failure it carries |
| RpcClient.ReplyPacket | src/client/rpc-reply-inbox.ts:148-162 | a reply is a response if and only if it can be read and carries no error header, an error of the handler if it carries one, and a failure of the transport if it cannot be read |
| RpcClient.JetstreamClient.Publish | src/client/jetstream.client.ts:448-539 | a request that cannot be built is rejected later; any other is pending under a deadline before it connects or publishes, and fails at once without an inbox |
| RpcClient.JetstreamClient.OnRejected | src/client/jetstream.client.ts:340-359 | the rejection of a request that could not be built reaches its callback once, whether or not the caller is still there |
| RpcClient.JetstreamClient.Proceed | src/client/jetstream.client.ts:520-549 | after connecting, a request that was settled meanwhile goes no further |
| RpcClient.JetstreamClient.Fail | src/client/jetstream.client.ts:562-572 | a failed connect or publish settles a request that is still pending and no other |
| RpcClient.JetstreamClient.OnDeadline | src/client/jetstream.client.ts:512-518 | the deadline of a pending request calls it back with a timeout and nothing else changes |
| RpcClient.JetstreamClient.Unsubscribe | src/client/jetstream.client.ts:362-367 | a caller that leaves a pending request is never called back; others are untouched |
| RpcClient.JetstreamClient.HandleDisconnect | src/client/jetstream.client.ts:614-619 | afterwards no request is pending: each was called, is being rejected, or was left by its caller |
| RpcClient.JetstreamClient.Close | src/client/jetstream.client.ts:204-209 | closing settles every pending request |
| RpcClient.Session | src/client/jetstream.client.ts:322-368 | in every interleaving of replies, deadlines, disconnects, closes, unsubscriptions, connects, rejections and publish results no callback fires twice, pending requests are the armed ones, every callback hears what some event says of its request and nothing else, and a request whose deadline, disconnect, close or reply on an open inbox came fired exactly once, or will by a rejection on its way, unless its caller left |
| AckExtension.AckExtensionPool.Schedule | src/utils/ack-extension.ts:68-84 | adds the entry and tightens the shared timer, as `AckTimers.Schedule` |
| AckExtension.AckExtensionPool.Cancel | src/utils/ack-extension.ts:86-95 | removes a live entry, drops the timer with the last one, and does nothing twice |
| AckExtension.AckExtensionPool.EnsureWake | src/utils/ack-extension.ts:101-113 | the timer fires no later than asked and is never made later |
| AckExtension.AckExtensionPool.Tick | src/utils/ack-extension.ts:115-147 | the loop over live entries does what `AckTimers.Tick` says and keeps the timer invariant |
| AckExtension.AckExtensionPool.Start | src/utils/ack-extension.ts:160-171 | registers unless extension is disabled: first extended after one interval, for five minutes unless told otherwise |
| AckTimers.WalkArms | src/utils/ack-extension.ts:115-147 | after a tick a timer is armed if and only if some entry is live, due no later than any of them |
| AckTimers.WalkEntries | src/utils/ack-extension.ts:122-144 | a tick drops exactly the expired entries and extends exactly the due ones |
| AckTimers.CallsAreBounded | src/utils/ack-extension.ts:68-147 | for any timer latency the calls for an entry times its interval stay below its maximum |
| AckTimers.PoolRefinesOwnTimers | src/utils/ack-extension.ts:50-148 | with timers on time an entry is called exactly when a timer of its own would fire before its expiry |
| AckTimers.SilenceIsBounded | src/server/routing/concurrency-gate.ts:114-116 | from the delivery of a message that waited, over the hand-over from its park timer to its route's, the server hears nothing for two intervals at most, and for all of them only if each timer was just due |
| AckTimers.AckWaitNeverLapses | src/utils/ack-extension.ts:23-40 | with timers on time and the automatic interval for an ack_wait of a second or more: never more than ack_wait goes by without a sign of life while a message is live, be it parked first or not, and less than that counted from its registration |
| AckTimers.ResolveAckExtensionInterval | src/utils/ack-extension.ts:23-40 | off, or the whole milliseconds asked for, or half of ack_wait but at least half a second, or five seconds without one |
| AckTimers.LapseExcludedIff | src/utils/ack-extension.ts:33-39 | it is always less than ack_wait over a hand-over too if and only if ack_wait is no whole even number of milliseconds |
| HeaderCapture.CompiledParses | src/otel/capture.ts:12-23 | escaping and then rewriting stars gives a valid expression that reads as the glob's characters and runs, whatever regex syntax or backslashes it holds |
| HeaderCapture.GlobMatchesIffDenotes | src/otel/capture.ts:19-23 | on one line the expression matches exactly what the glob denotes |
| HeaderCapture.FaithfulIffOneLine | src/otel/capture.ts:19-23 | all globs are read faithfully on a string if and only if it has no line terminator |
| HeaderCapture.CompileHeaderAllowlist | src/otel/capture.ts:40-62 | the matcher allows a name if and only if some include denotes it and no exclude does |
| HeaderCapture.OrderDoesNotMatter | src/otel/capture.ts:48-61 | lists with the same patterns in any order give the same verdict on every name |
| NameResolver.NormalizePrefix | src/server/infrastructure/name-resolver.ts:111-126 | the loop trims trailing dots and refuses an empty token or `>` |
| NameResolver.ValidPrefixIffFilterWellFormed | src/server/infrastructure/name-resolver.ts:116-125 | a prefix is accepted if and only if its filter `prefix.>` is a well-formed subject |
| NameResolver.NormalizedIsStable | src/server/infrastructure/name-resolver.ts:111-126 | normalizing a normalized prefix changes nothing |
| NameResolver.NameResolver.BuildKindMap | src/server/infrastructure/name-resolver.ts:85-109 | all kinds get their names, or none if a custom prefix is refused: the documented prefixes by convention, a custom one without its trailing dots, and the `_sch` namespace below it |
| NameResolver.NameResolver.ScheduleSubjectBase | src/server/infrastructure/name-resolver.ts:65-75 | of the kinds whose prefix the subject has, broadcast before event before ordered gives the holder; it throws if and only if there is none |
| NameResolver.FilterIsPrefix | src/jetstream.constants.ts:308-332 | the filter of a kind matches exactly the valid subjects that begin with what publishers of that kind write |
| NameResolver.KindsAreApart | src/jetstream.constants.ts:308-345 | no subject reaches the filters of two kinds, and only broadcasts reach those of two services |
| NameResolver.NameResolver.MappingsAgree | src/jetstream.constants.ts:351-372 | both schedule mappings agree on every conventional event, ordered and broadcast subject of every service name, in the service's own namespace unless the subject reads as a broadcast |
| NameResolver.HolderReachesNoFilter | src/jetstream.constants.ts:334-335 | no convention filter of any kind and any service matches an event's schedule holder |
| NameResolver.HolderIsStoredIffScheduling | src/server/infrastructure/stream.provider.ts:152-160 | the event stream's subjects match a holder if and only if scheduling is on and the holder is a valid subject |
| Durations.RoundTrip | src/client/jetstream.record.ts:236-243 | parsing the printed duration gives the number back |
| Durations.UnitIsWorth | src/client/jetstream.record.ts:228-243 | each unit is worth what Go takes it for |
| Durations.PrintedIsShortest | src/client/jetstream.record.ts:235-243 | no exact form over h, m, s, ms and ns is shorter |
| Durations.ShortestInGoIff | src/client/jetstream.record.ts:235-243 | over all of Go's units it is the shortest unless the number is whole in microseconds but not in milliseconds |

## Left out

- StreamMigration.StreamMigration.Migrate: one process migrates at a time; of a peer that is waited out only the invariant is assumed. Consumers do not ack, limits do not discard and nothing expires during a migration, and the stream has no sources but the backup.
- StreamMigration.JetStreamManager.Update: a call takes effect at one moment or never; a call that is reported as failed does not take effect later. An update overlays the given fields.
- StreamMigration.StreamMigration.WaitForSourceDrained: a source whose twin was deleted and recreated copies from any position, which covers every way the server may resume it.
- MigrationSafety.RunKeeps: a publish names one of the stream's subjects; matching a concrete subject against wildcards is proved in `SubjectUtils` only.
- StreamProvider.SecondBootSendsNothing: the shared stream's subjects are assumed well formed (`>` only last), and boots do not interleave between reading and updating. The server may return metadata in any order; other nested values come back as they were sent. JavaScript's order of integer-like keys is not modelled.
- StreamProvider.EnsureStream: after a lost create race the source re-reads the stream only to choose its error; that error is a throw here. The DLQ stream's own boot takes the same path without recovery.
- ConcurrencyGate.ConcurrencyGate.Push: a route may push from within its own call any finite number of times, but not dispose of the gate.
- EventPipeline.Serve: loggers, the event bus and header building do not throw.
- EventPipeline.Delivery.Route: the ordered pipeline makes no settlement calls and is left out.
- RpcRouter.Command.OnResolve: the concurrency gate around a command is `ConcurrencyGate`.
- RpcClient.Session: callbacks do not throw and do not call back into the client; generated correlation ids differ; core-mode RPC is left out. The rejection of a request that cannot be built may be handled at any later moment.
- AckTimers.PoolRefinesOwnTimers: at the very moment an entry is cancelled or the run ends, whether its own timer had just fired is left open.
- AckTimers.AckWaitNeverLapses: a message is registered, parked or routed, at the moment of its delivery, and again at the moment its park timer is cancelled: the time for which it travels and is decoded counts as none.
- HeaderCapture.CompileHeaderAllowlist: case folding is any function; its Unicode details are not modelled. The cache of subject matchers is left out.
- NameResolver.HolderReachesNoFilter: service names are free of dots. Filters of custom prefixes contain their own `_sch` namespace and are left out, as are the broadcast consumers' patterns.
- Durations.RoundTrip: fractions of a nanosecond are not modelled.
- Spans, metrics, health, log texts, provisioning budgets and summaries, codecs, key-value metadata, connection setup and shutdown timeouts are observability or glue.
- The retry delay and binder warnings would only add easy members.
