/**
 Two runs of migrating processes that die (src/server/infrastructure/stream-migration.ts), call by
 call, from the first boot of a service on. Each shows that a limit of the guarantees is reached.
 */
module MigrationRuns {
  import opened Options
  import opened StreamConfigDiff
  import opened StreamServer
  import opened MigrationSafety
  import opened StreamMigration

  const CONFIG := Config(["orders"], map[])
  const QUIET := Config([], map[])

  /** The stream was created, and one publish was acknowledged. */
  function OnePublish(): World {
    Step(World(Some(NewStream(CONFIG, None, false)), None, 0, 0, {}, [], [], false, false), Publish(Main, "orders"))
  }

  /** Phase 1 and the start of phase 2: the stream is quiesced, and the backup was created. */
  function BackupCreated(w: World): World
    requires w.main.Some?
  {
    AfterAdd(AfterUpdate(w, Main, Whole(QUIET)), Backup, NewStream(QUIET, Some(w.now), true))
  }

  /** The backup's own source is cleared, and the stream sources the backup. */
  function Attached(w: World, config: Config): World
    requires w.main.Some? && w.backup.Some?
  {
    AfterUpdate(AfterUpdate(w, Backup, Whole(QUIET).(sourced := Some(false))),
                Main, Whole(config).(sourced := Some(true)))
  }

  /** One message is copied into the stream or its backup, which reports that it is in step. */
  function CopiedOne(w: World, into: Name): World {
    Step(Step(w, Copy(into, 0)), Report(into, 0))
  }

  /** An uninterrupted recovery beside a stream that does not source the backup. */
  function Recovered(w: World): World
    requires w.main.Some? && w.backup.Some?
  {
    var config := w.main.value.config;
    var alone := Alone(CopiedOne(Attached(w, config), Main));
    if alone.main.Some? then AfterUpdate(alone, Main, Whole(config).(sourced := Some(false))) else alone
  }

  /** The backup is deleted. */
  function Alone(w: World): World {
    if w.backup.Some? then AfterDelete(w, Backup) else w
  }

  // ----- The worlds on the way, written out -----

  /** A world with one acknowledged publish at time `now`. */
  function Holding(main: Stream, backup: Option<Stream>, now: int, saved: seq<Msg>, restoring: bool): World {
    World(Some(main), backup, now, 1, {0}, saved, saved, restoring, false)
  }

  lemma PublishedOnce()
    ensures OnePublish() == Holding(Stream(CONFIG, None, None, [0]), None, 0, [], false)
  {
    assert CONFIG.subjects[0] == "orders";
    assert [] + [0] == [0] && {} + {0} == {0};
  }

  lemma BackupStarts(main: Stream, now: int, saved: seq<Msg>)
    requires main.config.settings == map[]
    ensures BackupCreated(Holding(main, None, now, saved, false))
            == Holding(main.(config := QUIET), Some(NewStream(QUIET, Some(now), true)), now, [], false)
  {
  }

  lemma CopiesOne(main: Stream, startedAt: Option<int>, now: int)
    requires main.msgs == [0]
    ensures Step(Holding(main, Some(NewStream(QUIET, startedAt, true)), now, [], false), Copy(Backup, 0))
            == Holding(main, Some(Stream(QUIET, startedAt, Some(Source(1, None, false)), [0])), now, [], false)
  {
    assert [] + [0] == [0];
  }

  lemma AttachesAndCopies(main: Stream, backup: Stream, now: int, saved: seq<Msg>, restoring: bool)
    requires main.feed.None? && backup.msgs == [0] && backup.feed.Some?
    requires main.config.settings == map[] && backup.config == QUIET
    ensures CopiedOne(Attached(Holding(main, Some(backup), now, saved, restoring), main.config), Main)
            == Holding(main.(feed := Some(Source(1, Some(0), false)), msgs := main.msgs + [0]),
                       Some(backup.(feed := None)), now, saved, restoring)
  {
    var w := Holding(main, Some(backup), now, saved, restoring);
    var attached := Attached(w, main.config);
    assert attached == Holding(main.(feed := Some(Source(0, None, false))), Some(backup.(feed := None)),
                               now, saved, restoring);
    assert CanCopy(attached, Main, 0);
  }

  // ----- The runs -----

  /**
   A process dies while it waits for its backup to fill, before it deletes the original. Once the
   backup is stale, a recovery attaches it to a stream that still holds everything, and the
   message ends up in the stream twice. Nothing is lost, and every invariant holds.
   */
  lemma DeathInTheDrainWait() returns (died: World, recovered: World)
    ensures BackupCreated(OnePublish()) == died.(backup := Some(NewStream(QUIET, Some(0), true)))
    ensures died == Step(BackupCreated(OnePublish()), Copy(Backup, 0))
    ensures recovered == Recovered(Step(died, Tick(ACTIVE_MIGRATION_GRACE_MS)))
    ensures Stale(Step(died, Tick(ACTIVE_MIGRATION_GRACE_MS)))
    ensures Inv(died) && OnePublish().main.value.msgs == [0]
    ensures Inv(recovered) && Restored(recovered) && !recovered.tangled
    ensures recovered.main.value.msgs == [0, 0] && !Once([0], recovered.main.value.msgs)
  {
    PublishedOnce();
    BackupStarts(Stream(CONFIG, None, None, [0]), 0, []);
    CopiesOne(Stream(QUIET, None, None, [0]), Some(0), 0);
    died := Step(BackupCreated(OnePublish()), Copy(Backup, 0));
    InStaging(died);
    recovered := RecoversTwice(Step(died, Tick(ACTIVE_MIGRATION_GRACE_MS)));
  }

  lemma RecoversTwice(stale: World) returns (recovered: World)
    requires stale == Holding(Stream(QUIET, None, None, [0]),
                              Some(Stream(QUIET, Some(0), Some(Source(1, None, false)), [0])),
                              ACTIVE_MIGRATION_GRACE_MS, [], false)
    ensures recovered == Recovered(stale) && !recovered.tangled
    ensures Inv(recovered) && Restored(recovered)
    ensures recovered.main.value.msgs == [0, 0] && !Once([0], recovered.main.value.msgs)
  {
    AttachesAndCopies(stale.main.value, stale.backup.value, ACTIVE_MIGRATION_GRACE_MS, [], false);
    recovered := Recovered(stale);
    assert [0] + [0] == [0, 0];
    assert recovered == Holding(Stream(QUIET, None, None, [0, 0]), None, ACTIVE_MIGRATION_GRACE_MS, [], false);
    assert multiset([0, 0])[0] == 2 && multiset([0])[0] == 1 && 0 in [0];
  }

  lemma InStaging(w: World)
    requires w == Holding(Stream(QUIET, None, None, [0]),
                          Some(Stream(QUIET, Some(0), Some(Source(1, None, false)), [0])), 0, [], false)
    ensures Inv(w)
  {
    assert [0][..1] == [0];
  }

  /** Phase 3, and what the recreated stream then is. */
  function Recreated(w: World): World
    requires w.main.Some?
  {
    AfterAdd(AfterDelete(w, Main), Main, NewStream(CONFIG, None, false))
  }

  lemma RecreatesBesideBackup(quiet: Stream, backup: Stream, now: int)
    requires quiet.feed.None? && quiet.msgs == [0] && backup.msgs == [0] && backup.feed.Some?
    ensures Recreated(Holding(quiet, Some(backup), now, [], false))
            == Holding(NewStream(CONFIG, None, false), Some(backup.(feed := Some(backup.feed.value.(orphan := true)))),
                       now, [0], true)
  {
  }

  /**
   A migration that dies between its last delete and its last update. The next migration then starts
   its backup beside a stream that still sources the backup's name, which is where
   `BackupIsExactIff` says that a backup may be inexact.
   */
  lemma DeathBeforeDetach() returns (died: World, next: World)
    ensures var full := CopiedOne(BackupCreated(OnePublish()), Backup);
            && BackedUp(full)
            && died == Alone(CopiedOne(Attached(Recreated(full), CONFIG), Main))
    ensures Inv(died) && died.backup.None? && died.main.Some? && next == BackupCreated(died)
    ensures BackupStarted(next) && next.main.value.feed.Some?
  {
    FullBackup();
    var full := CopiedOne(BackupCreated(OnePublish()), Backup);
    RecreatesBesideBackup(full.main.value, full.backup.value, 0);
    AttachesAndCopies(NewStream(CONFIG, None, false), Recreated(full).backup.value, 0, [0], true);
    died := Alone(CopiedOne(Attached(Recreated(full), CONFIG), Main));
    assert [] + [0] == [0];
    assert died == Holding(LEFT_ATTACHED, None, 0, [0], false);
    LeftoverSourceStays(died);
    next := BackupCreated(died);
  }

  /** The recreated stream with its message, and a source on a backup that is gone. */
  const LEFT_ATTACHED := Stream(CONFIG, None, Some(Source(1, Some(0), true)), [0])

  lemma FullBackup()
    ensures var full := CopiedOne(BackupCreated(OnePublish()), Backup);
            && full == Holding(Stream(QUIET, None, None, [0]),
                               Some(Stream(QUIET, Some(0), Some(Source(1, Some(0), false)), [0])), 0, [], false)
            && BackedUp(full)
  {
    PublishedOnce();
    BackupStarts(Stream(CONFIG, None, None, [0]), 0, []);
    CopiesOne(Stream(QUIET, None, None, [0]), Some(0), 0);
    assert [0][..1] == [0];
  }

  lemma LeftoverSourceStays(w: World)
    requires w == Holding(LEFT_ATTACHED, None, 0, [0], false)
    ensures Inv(w) && BackupStarted(BackupCreated(w)) && BackupCreated(w).main.value.feed.Some?
  {
    BackupStarts(LEFT_ATTACHED, 0, [0]);
    var quiesced := AfterUpdate(w, Main, Whole(QUIET));
    AddBackupKeeps(quiesced, QUIET, Some(0));
  }
}
