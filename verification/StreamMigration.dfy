/**
 The migration itself (src/server/infrastructure/stream-migration.ts) and the boot that runs it.

 Every `await` of the source is an `Await` here: while the process waits, the environment takes
 any number of steps. Every call may take effect and yet report failure, and the process may die
 in it; so whatever holds after every outcome of a method holds in every state a crash can leave.
 */
module StreamMigration {
  import opened Options
  import opened StreamConfigDiff
  import opened StreamServer
  import opened MigrationSafety

  /** What one call to the server comes back with; `Dead`: the process died in the call. */
  datatype Reply<T> = Done(value: T) | NotFound | Failed | Dead

  /** What a process asks of the server, and whether the reply was no failure. */
  datatype Request = Asks(n: Name) | Adds(n: Name) | Updates(n: Name, p: Patch) | Deletes(n: Name)

  datatype Call = Call(request: Request, done: bool)

  /** What is thrown: a wait ran out, the server knows no such stream, or anything else. */
  datatype Error = TimedOut | StreamNotFound | Rejected

  /** How a method of the process ends: it returns, it throws, or the process died in it. */
  datatype Outcome<T> = Returned(value: T) | Threw(error: Error) | Died

  const SOURCING_POLL_INTERVAL_MS := 100
  const DEFAULT_SOURCING_TIMEOUT_MS := 30_000
  const DEFAULT_PEER_WAIT_MS := 60_000
  const ACTIVE_MIGRATION_GRACE_MS := 90_000

  /** The two streams as reached through the JetStream manager of one process. */
  class JetStreamManager {
    var w: World
    /** Calls report what they did, and the process stays alive. */
    const reliable: bool
    /** Every call made, in order. */
    ghost var calls: seq<Call>
    /** The process that calls has not died; a dead one calls nothing. */
    ghost var alive: bool

    constructor (w: World, reliable: bool)
      ensures this.w == w && this.reliable == reliable && calls == [] && alive
    {
      this.w := w;
      this.reliable := reliable;
      calls := [];
      alive := true;
    }

    /** The environment takes some steps. */
    method Interleave() returns (ghost es: seq<Event>)
      modifies this`w
      ensures w == Run(old(w), es)
    {
      es := [];
      var budget: int := *;
      var steps := if budget < 0 then 0 else budget;
      for i := 0 to steps
        invariant w == Run(old(w), es)
      {
        var e: Event := *;
        RunConcat(old(w), es, [e]);
        assert Run(w, [e]) == Run(Step(w, e), [e][1..]);
        w := Step(w, e);
        es := es + [e];
      }
    }

    method Elapse(ms: nat)
      modifies this`w
      ensures w == Step(old(w), Tick(ms))
    {
      w := Step(w, Tick(ms));
    }

    /** Another instance runs its own migration or recovery: like ours, it keeps the invariant. */
    method InterleavePeer()
      requires Inv(w)
      modifies this`w
      ensures Inv(w) && Later(old(w), w)
    {
      var w': World := *;
      if Inv(w') && Later(w, w') {
        w := w';
      }
    }

    method Info(n: Name) returns (r: Reply<Stream>)
      requires alive
      modifies this`calls, this`alive
      ensures alive <==> !r.Dead?
      ensures r.Done? ==> w.Get(n) == Some(r.value)
      ensures r.NotFound? ==> w.Get(n).None?
      ensures reliable ==> r.Done? || r.NotFound?
      ensures calls == old(calls) + [Call(Asks(n), r.Done? || r.NotFound?)]
    {
      var answers := *;
      if reliable || answers {
        r := if w.Get(n).Some? then Done(w.Get(n).value) else NotFound;
      } else {
        var dead := *;
        r := if dead then Dead else Failed;
      }
      calls := calls + [Call(Asks(n), r.Done? || r.NotFound?)];
      alive := !r.Dead?;
    }

    method Add(n: Name, config: Config, startedAt: Option<int>, sourced: bool) returns (r: Reply<()>)
      requires alive
      modifies this
      ensures calls == old(calls) + [Call(Adds(n), r.Done?)]
      ensures alive <==> !r.Dead?
      ensures w == old(w) || Added(old(w), n, config, startedAt, sourced, w)
      ensures !r.NotFound?
      ensures r.Done? ==> Added(old(w), n, config, startedAt, sourced, w)
      ensures reliable ==> !r.Dead?
      ensures reliable && old(w).Get(n).None? ==> r.Done?
    {
      var applies, reports := *, *;
      var done := false;
      if w.Get(n).None? && (reliable || applies) {
        w := AfterAdd(w, n, NewStream(config, startedAt, sourced));
        done := reliable || reports;
      }
      var dead := *;
      r := if done then Done(()) else if dead && !reliable then Dead else Failed;
      calls := calls + [Call(Adds(n), done)];
      alive := !r.Dead?;
    }

    /** The server refuses to change a locked setting. */
    method Update(n: Name, p: Patch) returns (r: Reply<()>)
      requires alive
      modifies this
      ensures calls == old(calls) + [Call(Updates(n, p), r.Done?)]
      ensures alive <==> !r.Dead?
      ensures w == old(w) || Updated(old(w), n, p, w)
      ensures r.NotFound? ==> old(w).Get(n).None?
      ensures r.Done? ==> Updated(old(w), n, p, w)
      ensures reliable ==> !r.Dead?
      ensures reliable && old(w).Get(n).Some? && !Locked(old(w).Get(n).value.config.settings, p.settings)
              ==> r.Done?
    {
      var applies, reports := *, *;
      var done, absent := false, w.Get(n).None?;
      if w.Get(n).Some? && !Locked(w.Get(n).value.config.settings, p.settings) && (reliable || applies) {
        w := AfterUpdate(w, n, p);
        done := reliable || reports;
      }
      var dead := *;
      r := if done then Done(()) else if absent && (reliable || reports) then NotFound
           else if dead && !reliable then Dead else Failed;
      calls := calls + [Call(Updates(n, p), done)];
      alive := !r.Dead?;
    }

    method Delete(n: Name) returns (r: Reply<()>)
      requires alive
      modifies this
      ensures calls == old(calls) + [Call(Deletes(n), r.Done?)]
      ensures alive <==> !r.Dead?
      ensures w == old(w) || Deleted(old(w), n, w)
      ensures r.NotFound? ==> old(w).Get(n).None?
      ensures r.Done? ==> Deleted(old(w), n, w)
      ensures reliable ==> !r.Dead?
      ensures reliable && old(w).Get(n).Some? ==> r.Done?
    {
      var applies, reports := *, *;
      var done, absent := false, w.Get(n).None?;
      if w.Get(n).Some? && (reliable || applies) {
        w := AfterDelete(w, n);
        done := reliable || reports;
      }
      var dead := *;
      r := if done then Done(()) else if absent && (reliable || reports) then NotFound
           else if dead && !reliable then Dead else Failed;
      calls := calls + [Call(Deletes(n), done)];
      alive := !r.Dead?;
    }
  }

  predicate Added(w: World, n: Name, config: Config, startedAt: Option<int>, sourced: bool, w': World) {
    w.Get(n).None? && w' == AfterAdd(w, n, NewStream(config, startedAt, sourced))
  }

  predicate Updated(w: World, n: Name, p: Patch, w': World) {
    && w.Get(n).Some? && !Locked(w.Get(n).value.config.settings, p.settings)
    && w' == AfterUpdate(w, n, p)
  }

  predicate Deleted(w: World, n: Name, w': World) {
    w.Get(n).Some? && w' == AfterDelete(w, n)
  }

  // ----- Reading the calls -----

  predicate Sent(calls: seq<Call>, from: nat, c: Call) {
    exists i :: from <= i < |calls| && calls[i] == c
  }

  /** The subjects of the stream were taken away. */
  predicate Quiesced(calls: seq<Call>, from: nat) {
    exists i :: from <= i < |calls| && calls[i].request.Updates? && calls[i].request.n.Main?
                && calls[i].request.p.subjects == Some([])
  }

  predicate OnlyAsked(calls: seq<Call>, from: nat) {
    forall i :: from <= i < |calls| ==> calls[i].request.Asks?
  }

  /** From call `at` on the process put the configuration back, and then at most removed the backup. */
  predicate PutBack(calls: seq<Call>, at: nat, config: Config) {
    && at < |calls| && calls[at].request == Updates(Main, Whole(config))
    && forall i :: at < i < |calls| ==> calls[i].request in {Asks(Backup), Deletes(Backup)}
  }

  predicate AllDone(calls: seq<Call>, at: nat) {
    forall i :: at <= i < |calls| ==> calls[i].done
  }

  /** A backup with a stamp of less than a minute and a half ago, as a live migration has it. */
  predicate FreshBackup(w: World, now: int) {
    w.backup.Some? && w.backup.value.startedAt.Some? && now - w.backup.value.startedAt.value < 90_000
  }

  /** A backup is fresh for both drain waits of the migration that made it, with the timeouts that
      the constructor sets by default. */
  lemma FreshThroughTwoDrains(migration: StreamMigration, made: World, later: World)
    requires migration.sourcingTimeoutMs <= DEFAULT_SOURCING_TIMEOUT_MS
    requires made.backup.Some? && made.backup.value.startedAt == Some(made.now)
    requires later.backup.Some? && later.backup.value.startedAt == made.backup.value.startedAt
    requires later.now <= made.now + 2 * migration.sourcingTimeoutMs
    ensures FreshBackup(later, later.now) && !Stale(later)
  {
  }

  // ----- What a call did -----

  /** The stream has the subjects and every setting of `c`. */
  predicate Configured(s: Stream, c: Config) {
    && s.config.subjects == c.subjects
    && (forall k :: k in c.settings ==> k in s.config.settings && s.config.settings[k] == c.settings[k])
  }

  /** A backup too old to belong to a live migration, or without a mark. */
  predicate Stale(w: World) {
    && w.backup.Some?
    && (w.backup.value.startedAt.Some? ==> w.now - w.backup.value.startedAt.value >= 90_000)
  }

  /** Where a restore ends: the stream alone, detached, with everything in it, and what was saved when
      the original was deleted (since the last backup was made) exactly once. */
  predicate Restored(w: World) {
    && w.backup.None? && w.main.Some? && w.main.value.feed.None?
    && Kept(w.acked, w.main.value.msgs)
    && Once(w.saved, w.main.value.msgs)
  }

  /** A migration from `w` that returned: the stream has the new configuration, is detached, and
      holds what the deleted one held. With no stale source on the deleted one, each message of it
      is there exactly as often as before. */
  predicate Recreated(w: World, w': World, newConfig: Config) {
    && w.main.Some? && Restored(w')
    && w'.main.value.config == newConfig
    && w.main.value.msgs <= w'.original
    && w'.tangled == w.main.value.feed.Some?
    && (!w'.tangled ==> Once(w'.original, w'.main.value.msgs))
  }

  /** The original was not deleted: at most its subjects are gone. */
  predicate Untouched(w: World, w': World) {
    && w.main.Some? && w'.main.Some? && !w'.restoring
    && w.main.value.config.settings == w'.main.value.config.settings
    && w.main.value.feed.Some? == w'.main.value.feed.Some?
    && w.main.value.msgs <= w'.main.value.msgs
  }

  /** The original serves as before, and the backup is gone. */
  predicate RolledBack(w: World, w': World) {
    && Untouched(w, w') && w'.backup.None?
    && w.main.value.config == w'.main.value.config
  }

  /** The original was deleted, and the backup that has all of it stands. */
  predicate Resumable(w: World, w': World) {
    && w'.backup.Some? && w'.restoring
    && w.main.Some? && w.main.value.msgs <= w'.original
  }

  /** What any steps of the environment leave true. */
  ghost predicate Waited(w: World, w': World) {
    Frame(w, w') && Accounted(w, w') && (BackingUp(w) ==> BackingUp(w'))
  }

  lemma WaitedTransitive(a: World, b: World, c: World)
    requires Waited(a, b) && Waited(b, c)
    ensures Waited(a, c)
  {
    FrameTransitive(a, b, c);
    AccountedTransitive(a, b, c);
  }

  /** Time moved on, and no acknowledgement was taken back. */
  predicate Later(w: World, w': World) {
    w.now <= w'.now && w.acked <= w'.acked
  }

  /** Between the start of a restore and the attachment, stream and backup only grew. */
  predicate AttachedLater(w: World, at: World) {
    && w.main.Some? && w.backup.Some? && at.main.Some? && at.backup.Some?
    && at.main.value.feed.None? && at.backup.value.feed.None?
    && w.main.value.msgs <= at.main.value.msgs && w.backup.value.msgs <= at.backup.value.msgs
    && w.restoring == at.restoring && w.saved == at.saved
  }

  /** A backup with messages beside a stream that sources nothing. */
  predicate RestoreNotBegun(w: World) {
    && w.backup.Some? && w.backup.value.msgs != []
    && w.main.Some? && w.main.value.feed.None?
  }

  predicate SameHistory(w: World, w': World) {
    w.original == w'.original && w.saved == w'.saved && w.tangled == w'.tangled
  }

  /** Draining a backup that was just attached adds the whole of it. */
  lemma AttachedReplay(at: World, config: Config, attached: World, w': World)
    requires Inv(at) && at.backup.Some? && at.backup.value.feed.None? && at.main.Some? && w'.main.Some?
    requires Updated(at, Main, Whole(config).(sourced := Some(true)), attached) && at.main.value.feed.None?
    requires Replayed(attached, w')
    ensures RestoredFrom(at, w')
  {
    assert CopiesBack(attached) && Position(attached) == [];
  }

  /**
   What a recovery that begins a restore makes of the backed-up messages. The copies are exact if and
   only if the original had been deleted and its backup copied nothing of the new stream; what was
   saved at the delete always is. If the process died before it deleted the original, the stream
   gets every message of the backup once more.
   */
  lemma RecoveryIsExactIff(w: World, at: World, w': World)
    requires RestoreNotBegun(w) && AttachedLater(w, at) && RestoredFrom(at, w')
    ensures Once(at.backup.value.msgs, w'.main.value.msgs) <==> w.restoring && at.backup.value.msgs == w.saved
    ensures w.restoring ==> Once(w.saved, w'.main.value.msgs)
    ensures !w.restoring ==> forall m :: m in w.backup.value.msgs ==> Count(w'.main.value.msgs, m) >= 2
  {
    RestoreIsExactIff(at, w');
    UnsourcedBackupIsApartIff(at);
    if w.restoring {
      SavedOnce(at, w');
    } else {
      forall m | m in w.backup.value.msgs
        ensures Count(w'.main.value.msgs, m) >= 2
      {
        assert m in at.backup.value.msgs && m in at.main.value.msgs;
      }
    }
  }

  lemma SavedOnce(at: World, w': World)
    requires RestoredFrom(at, w') && at.restoring && at.main.value.feed.None?
    ensures Once(at.saved, w'.main.value.msgs)
  {
    var b := at.backup.value.msgs;
    var tail := b[|at.saved|..];
    assert b == at.saved + tail;
    forall m | m in at.saved
      ensures multiset(w'.main.value.msgs)[m] == multiset(at.saved)[m]
    {
      assert m in b && m !in tail && m !in at.main.value.msgs;
      assert multiset(b) == multiset(at.saved) + multiset(tail);
      assert Count(w'.main.value.msgs, m) == Count(at.main.value.msgs, m) + Count(b, m);
    }
  }

  function AsTrue(o: Outcome<()>): Outcome<bool> {
    match o
    case Returned(_) => Returned(true)
    case Threw(t) => Threw(t)
    case Died => Died
  }

  function Unit(r: Reply<()>): Outcome<()> {
    match r
    case Done(_) => Returned(())
    case _ => Failure(r)
  }

  /** What a failed call ends the method with. */
  function Failure<T, U>(r: Reply<T>): (o: Outcome<U>)
    requires !r.Done?
    ensures o.Died? <==> r.Dead?
    ensures o == Threw(StreamNotFound) <==> r.NotFound?
    ensures !o.Returned? && o != Threw(TimedOut)
  {
    match r
    case NotFound => Threw(StreamNotFound)
    case Failed => Threw(Rejected)
    case Dead => Died
  }

  class StreamMigration {
    const sourcingTimeoutMs: nat
    const peerWaitMs: nat

    constructor (sourcingTimeoutMs: nat := DEFAULT_SOURCING_TIMEOUT_MS, peerWaitMs: nat := DEFAULT_PEER_WAIT_MS)
      ensures this.sourcingTimeoutMs == sourcingTimeoutMs && this.peerWaitMs == peerWaitMs
    {
      this.sourcingTimeoutMs := sourcingTimeoutMs;
      this.peerWaitMs := peerWaitMs;
    }

    /** One `await`: the environment runs, and what the protocol relies on survives. */
    method Await(jsm: JetStreamManager)
      requires Inv(jsm.w)
      modifies jsm`w
      ensures Inv(jsm.w) && Waited(old(jsm.w), jsm.w)
    {
      ghost var before := jsm.w;
      ghost var es := jsm.Interleave();
      RunKeeps(before, es);
      RunFrame(before, es);
      AccountedRun(before, es);
      if BackingUp(before) {
        BackingUpRun(before, es);
      }
    }

    method Sleep(jsm: JetStreamManager, ms: nat)
      requires Inv(jsm.w)
      modifies jsm`w
      ensures Inv(jsm.w) && Waited(old(jsm.w), jsm.w)
      ensures jsm.w.now >= old(jsm.w).now + ms
    {
      Await(jsm);
      ghost var before := jsm.w;
      StepKeeps(before, Tick(ms));
      StepFrame(before, Tick(ms));
      AccountedStep(before, Tick(ms));
      if BackingUp(before) {
        BackingUpStep(before, Tick(ms));
      }
      jsm.Elapse(ms);
      WaitedTransitive(old(jsm.w), before, jsm.w);
    }

    /** Wait for what the server says of a stream. */
    method Inspect(jsm: JetStreamManager, n: Name) returns (r: Reply<Stream>)
      requires Inv(jsm.w) && jsm.alive
      modifies jsm
      ensures r.Dead? <==> !jsm.alive
      ensures Inv(jsm.w) && Frame(old(jsm.w), jsm.w)
      ensures r.Done? ==> jsm.w.Get(n) == Some(r.value)
      ensures r.NotFound? ==> jsm.w.Get(n).None?
      ensures jsm.reliable ==> r.Done? || r.NotFound?
      ensures jsm.calls == old(jsm.calls) + [Call(Asks(n), r.Done? || r.NotFound?)]
    {
      Await(jsm);
      r := jsm.Info(n);
    }

    /** `found`: the configuration that was there when no backup stood; `begun`: its phases were run. */
    method Migrate(jsm: JetStreamManager, newConfig: Config)
      returns (r: Outcome<()>, ghost found: Option<Config>, ghost begun: bool)
      requires Inv(jsm.w) && jsm.alive
      modifies jsm
      ensures r.Died? <==> !jsm.alive
      ensures Inv(jsm.w) && Later(old(jsm.w), jsm.w) && old(jsm.calls) <= jsm.calls
      ensures r == Threw(TimedOut) && old(jsm.w).backup.None? ==> jsm.w.now >= old(jsm.w).now + sourcingTimeoutMs
      ensures r.Returned? ==> jsm.w.backup.None? && jsm.w.main.Some? && Configured(jsm.w.main.value, newConfig)
      // Without a peer, returning means the stream was recreated from its own contents.
      ensures r.Returned? && old(jsm.w).backup.None? ==>
                old(jsm.w).main.Some? && Recreated(old(jsm.w), jsm.w, newConfig)
      // A migration of an existing stream that throws has been rolled back, or can be resumed.
      ensures !r.Returned? && jsm.reliable && old(jsm.w).backup.None? && old(jsm.w).main.Some? ==>
                r == Threw(TimedOut) && (RolledBack(old(jsm.w), jsm.w) || Resumable(old(jsm.w), jsm.w))
      ensures jsm.reliable && old(jsm.w).backup.None? && old(jsm.w).main.None? ==> r == Threw(StreamNotFound)
      // Whatever fails: once the subjects were taken away, either the delete of the original was
      // reported, or putting the configuration back is the last thing that is tried.
      ensures Quiesced(jsm.calls, |old(jsm.calls)|) ==>
                begun || (old(jsm.w).backup.Some? && newConfig.subjects == [])
      ensures begun ==> found.Some?
      ensures found.Some? && old(jsm.w).backup.None? ==>
                begun && old(jsm.w).main.Some? && found.value == old(jsm.w).main.value.config
      // After a peer, the phases run only for what still needs a new stream; else one update is sent.
      ensures found.Some? && old(jsm.w).backup.Some? ==>
                (begun <==> AsksNewStream(found.value.settings, newConfig.settings))
      ensures !begun ==> forall i :: |old(jsm.calls)| <= i < |jsm.calls| ==>
                jsm.calls[i].request.Asks? || jsm.calls[i].request == Updates(Main, Whole(newConfig))
      ensures r.Threw? && begun && !Sent(jsm.calls, |old(jsm.calls)|, Call(Deletes(Main), true)) ==>
                exists at :: |old(jsm.calls)| <= at && PutBack(jsm.calls, at, found.value)
                             && (AllDone(jsm.calls, at) && old(jsm.w).backup.None? ==> RolledBack(old(jsm.w), jsm.w))
    {
      found, begun := None, false;
      var peer := WaitOutPeerMigration(jsm);
      match peer {
        case Died => r := Died; return;
        case Threw(t) => r := Threw(t); return;
        case Returned(_) =>
      }
      var peerFinished := peer.value;

      var info := Inspect(jsm, Main);
      if !info.Done? {
        r := Failure(info);
        return;
      }
      var current := info.value;
      found := Some(current.config);

      KindsArePlain(current.config.settings, newConfig.settings);
      if peerFinished && !HasChange(current.config.settings, newConfig.settings, Immutable) {
        r := AdoptPeerResult(jsm, newConfig);
        return;
      }

      begun := true;
      r := RunOrRollBack(jsm, current, newConfig);
    }

    /** Run the phases; what is thrown before the original was deleted is rolled back. */
    method RunOrRollBack(jsm: JetStreamManager, current: Stream, newConfig: Config) returns (r: Outcome<()>)
      requires Inv(jsm.w) && jsm.alive && jsm.w.backup.None? && jsm.w.main == Some(current)
      modifies jsm
      ensures r.Died? <==> !jsm.alive
      ensures old(jsm.calls) <= jsm.calls && Inv(jsm.w) && Later(old(jsm.w), jsm.w)
      ensures r == Threw(TimedOut) ==> jsm.w.now >= old(jsm.w).now + sourcingTimeoutMs
      ensures r.Returned? ==> Recreated(old(jsm.w), jsm.w, newConfig)
      ensures !r.Returned? && jsm.reliable ==>
                r == Threw(TimedOut) && (RolledBack(old(jsm.w), jsm.w) || Resumable(old(jsm.w), jsm.w))
      ensures r.Threw? && !Sent(jsm.calls, |old(jsm.calls)|, Call(Deletes(Main), true)) ==>
                exists at :: |old(jsm.calls)| <= at && PutBack(jsm.calls, at, current.config)
                             && (AllDone(jsm.calls, at) ==> RolledBack(old(jsm.w), jsm.w))
    {
      var originalDeleted;
      r, originalDeleted := RunPhases(jsm, current, newConfig);
      if r.Threw? && !originalDeleted {
        ghost var at := |jsm.calls|;
        var died := RollbackBeforeDelete(jsm, current);
        assert PutBack(jsm.calls, at, current.config);
        if died {
          r := Died;
        }
      }
    }

    /** Another instance has migrated the stream: only what can be updated is left to do. */
    method AdoptPeerResult(jsm: JetStreamManager, newConfig: Config) returns (r: Outcome<()>)
      requires Inv(jsm.w) && jsm.alive && jsm.w.main.Some? && jsm.w.backup.None?
      modifies jsm
      ensures r.Died? <==> !jsm.alive
      ensures Inv(jsm.w) && Later(old(jsm.w), jsm.w) && r != Threw(TimedOut) && jsm.w.backup.None?
      ensures exists done :: jsm.calls == old(jsm.calls) + [Call(Updates(Main, Whole(newConfig)), done)]
      ensures r.Returned? ==> jsm.w.main.Some? && Configured(jsm.w.main.value, newConfig)
    {
      Await(jsm);
      ReconfigureKeeps(jsm.w, Whole(newConfig));
      var updated := jsm.Update(Main, Whole(newConfig));
      r := Unit(updated);
    }

    /** The four phases. What is thrown before the original is deleted can be rolled back. */
    method RunPhases(jsm: JetStreamManager, current: Stream, newConfig: Config)
      returns (r: Outcome<()>, originalDeleted: bool)
      requires Inv(jsm.w) && jsm.alive && jsm.w.backup.None? && jsm.w.main == Some(current)
      modifies jsm
      ensures r.Died? <==> !jsm.alive
      ensures old(jsm.calls) <= jsm.calls
      ensures Inv(jsm.w) && Later(old(jsm.w), jsm.w)
      ensures r == Threw(TimedOut) ==> jsm.w.now >= old(jsm.w).now + sourcingTimeoutMs
      ensures r.Returned? ==> Recreated(old(jsm.w), jsm.w, newConfig)
      ensures originalDeleted ==> Sent(jsm.calls, |old(jsm.calls)|, Call(Deletes(Main), true))
      ensures r.Threw? && !originalDeleted ==> jsm.w.main.None? || Untouched(old(jsm.w), jsm.w)
      ensures !r.Returned? && jsm.reliable ==>
                && r == Threw(TimedOut)
                && (if originalDeleted then Resumable(old(jsm.w), jsm.w) else Untouched(old(jsm.w), jsm.w))
    {
      var backedUp := QuiesceAndBackUp(jsm, current);
      if !backedUp.Returned? {
        return if backedUp.Died? then Died else Threw(backedUp.error), false;
      }
      var drainedCount := backedUp.value;

      // Phase 3: delete and recreate.
      r, originalDeleted := DeleteAndRecreate(jsm, newConfig, drainedCount);
      if !r.Returned? {
        return;
      }

      // Phase 4: restore from the backup.
      if drainedCount > 0 {
        assert newConfig.settings + newConfig.settings == newConfig.settings;
        ghost var at;
        r, at := RestoreFromBackup(jsm, newConfig);
      }
    }

    /** The original goes only when it is empty or its backup is complete. */
    method DeleteAndRecreate(jsm: JetStreamManager, newConfig: Config, drainedCount: nat)
      returns (r: Outcome<()>, originalDeleted: bool)
      requires Inv(jsm.w) && jsm.alive && Closed(jsm.w) && jsm.w.main.Some? && !jsm.w.restoring
      requires if drainedCount == 0 then jsm.w.backup.None? && jsm.w.main.value.msgs == []
               else jsm.w.backup.Some? && BackedUp(jsm.w)
      modifies jsm
      ensures r.Died? <==> !jsm.alive
      ensures old(jsm.calls) <= jsm.calls
      ensures Inv(jsm.w) && Later(old(jsm.w), jsm.w) && r != Threw(TimedOut)
      ensures r.Returned? ==>
                && originalDeleted && jsm.w.main == Some(NewStream(newConfig, None, false))
                && jsm.w.backup.Some? == jsm.w.restoring == (drainedCount > 0)
                && old(jsm.w).main.value.msgs <= jsm.w.original
                && jsm.w.tangled == old(jsm.w).main.value.feed.Some?
      ensures r.Threw? && !originalDeleted ==> jsm.w.main.None? || Untouched(old(jsm.w), jsm.w)
      ensures originalDeleted ==> Sent(jsm.calls, |old(jsm.calls)|, Call(Deletes(Main), true))
      ensures jsm.reliable ==> r.Returned?
    {
      ghost var ready := jsm.w;
      Await(jsm);
      if drainedCount > 0 {
        BackedUpStays(ready, jsm.w);
      }
      DeleteMainKeeps(jsm.w);
      ghost var at := |jsm.calls|;
      var deleted := jsm.Delete(Main);
      if !deleted.Done? {
        return Unit(deleted), false;
      }
      Await(jsm);
      AddMainKeeps(jsm.w, newConfig, None);
      var recreated := jsm.Add(Main, newConfig, None, false);
      assert jsm.calls[at] == Call(Deletes(Main), true);
      return Unit(recreated), true;
    }

    /** Phases 1 and 2; returns how many messages were backed up. */
    method QuiesceAndBackUp(jsm: JetStreamManager, current: Stream) returns (r: Outcome<nat>)
      requires Inv(jsm.w) && jsm.alive && jsm.w.backup.None? && jsm.w.main == Some(current)
      modifies jsm
      ensures r.Died? <==> !jsm.alive
      ensures old(jsm.calls) <= jsm.calls
      ensures Inv(jsm.w) && Later(old(jsm.w), jsm.w) && jsm.w.main.Some? && !jsm.w.restoring
      ensures r == Threw(TimedOut) ==> jsm.w.now >= old(jsm.w).now + sourcingTimeoutMs
      ensures r.Returned? ==>
                && Closed(jsm.w) && Untouched(old(jsm.w), jsm.w)
                && (r.value == 0 ==> jsm.w.backup.None? && jsm.w.main.value.msgs == [])
                && (r.value > 0 ==> jsm.w.backup.Some? && BackedUp(jsm.w) && |jsm.w.backup.value.msgs| >= r.value)
      ensures r.Threw? ==> Untouched(old(jsm.w), jsm.w)
      ensures jsm.reliable ==> r.Returned? || r == Threw(TimedOut)
    {
      r := Quiesce(jsm, current);
      if !r.Returned? || r.value == 0 {
        return;
      }
      var drainedCount := r.value;
      var added := CreateBackup(jsm, current.config.(subjects := []));
      if !added.Done? {
        return Failure(added);
      }
      var drained := WaitForSourceDrained(jsm, Backup, drainedCount);
      r := match drained
        case Returned(_) => Returned(drainedCount)
        case Threw(t) => Threw(t)
        case Died => Died;
    }

    /** Phase 1: an acked publish after this point cannot be lost. Returns how many there are. */
    method Quiesce(jsm: JetStreamManager, current: Stream) returns (r: Outcome<nat>)
      requires Inv(jsm.w) && jsm.alive && jsm.w.backup.None? && jsm.w.main == Some(current)
      modifies jsm
      ensures r.Died? <==> !jsm.alive
      ensures old(jsm.calls) <= jsm.calls
      ensures Inv(jsm.w) && Later(old(jsm.w), jsm.w) && jsm.w.main.Some? && jsm.w.backup.None?
      ensures r.Returned? ==>
                && Untouched(old(jsm.w), jsm.w)
                && jsm.w.main.value.config.subjects == [] && r.value == |jsm.w.main.value.msgs|
      ensures r.Threw? ==> !r.error.TimedOut? && Untouched(old(jsm.w), jsm.w)
      ensures jsm.reliable ==> r.Returned?
    {
      Await(jsm);
      var quiesce := Whole(current.config).(subjects := Some([]));
      ReconfigureKeeps(jsm.w, quiesce);
      assert current.config.settings + current.config.settings == current.config.settings;
      NeverLockedAgainstItself(current.config.settings, current.config.settings);
      var quiesced := jsm.Update(Main, quiesce);
      if !quiesced.Done? {
        return Failure(quiesced);
      }
      var counted := Inspect(jsm, Main);
      r := if counted.Done? then Returned(|counted.value.msgs|) else Failure(counted);
    }

    /** Phase 2: a temporary stream sources the original. */
    method CreateBackup(jsm: JetStreamManager, quiet: Config) returns (r: Reply<()>)
      requires Inv(jsm.w) && jsm.alive && jsm.w.backup.None? && jsm.w.main.Some? && quiet.subjects == []
      requires jsm.w.main.value.config.subjects == []
      modifies jsm
      ensures r.Dead? <==> !jsm.alive
      ensures old(jsm.calls) <= jsm.calls
      ensures Inv(jsm.w) && Later(old(jsm.w), jsm.w) && !jsm.w.restoring
      ensures StreamFrame(old(jsm.w).main, jsm.w.main, false)
      ensures r.Done? ==> jsm.w.backup == Some(NewStream(quiet, Some(jsm.w.now), true)) && BackingUp(jsm.w)
      ensures jsm.reliable ==> r.Done?
    {
      Await(jsm);
      AddBackupKeeps(jsm.w, quiet, Some(jsm.w.now));
      r := jsm.Add(Backup, quiet, Some(jsm.w.now), true);
    }

    /** Phase 4: the stream copies its backup back, and both are tidied up. */
    method RestoreFromBackup(jsm: JetStreamManager, config: Config)
      returns (r: Outcome<()>, ghost at: World)
      requires Inv(jsm.w) && jsm.alive && jsm.w.backup.Some? && jsm.w.main.Some? && jsm.w.main.value.feed.None?
      modifies jsm
      ensures r.Died? <==> !jsm.alive
      ensures old(jsm.calls) <= jsm.calls
      ensures Inv(jsm.w) && Later(old(jsm.w), jsm.w) && SameHistory(old(jsm.w), jsm.w) && jsm.w.main.Some?
      ensures r == Threw(TimedOut) ==> jsm.w.now >= old(jsm.w).now + sourcingTimeoutMs
      // `at`: the world when the backup was attached.
      ensures r.Returned? ==> AttachedLater(old(jsm.w), at) && RestoredFrom(at, jsm.w)
      ensures r.Returned? ==>
                && Restored(jsm.w)
                && jsm.w.main.value.config.subjects == config.subjects
                && jsm.w.main.value.config.settings == old(jsm.w).main.value.config.settings + config.settings
      ensures jsm.reliable && !Locked(old(jsm.w).main.value.config.settings, config.settings) ==>
                r.Returned? || (r == Threw(TimedOut) && jsm.w.backup.Some? && jsm.w.restoring == old(jsm.w).restoring)
    {
      at := jsm.w;
      var cleared := ClearBackupSource(jsm);
      if !cleared.Returned? {
        r := if cleared.Died? then Died else Threw(cleared.error);
        return;
      }

      var attached;
      attached, at := AttachBackup(jsm, config);
      if !attached.Returned? {
        r := attached;
        return;
      }
      ghost var before := at.main.value.config.settings;
      assert before + config.settings + config.settings == before + config.settings;
      ghost var attachedWorld := jsm.w;
      r := DrainThenDetach(jsm, config, cleared.value);
      if r.Returned? {
        AttachedReplay(at, config, attachedWorld, jsm.w);
      }
    }

    /** Make the backup a source of the stream; `at` is the world just before. */
    method AttachBackup(jsm: JetStreamManager, config: Config) returns (r: Outcome<()>, ghost at: World)
      requires Inv(jsm.w) && jsm.alive && jsm.w.backup.Some? && jsm.w.backup.value.feed.None?
      requires jsm.w.main.Some? && jsm.w.main.value.feed.None?
      modifies jsm
      ensures r.Died? <==> !jsm.alive
      ensures old(jsm.calls) <= jsm.calls
      ensures Inv(jsm.w) && Later(old(jsm.w), jsm.w) && SameHistory(old(jsm.w), jsm.w) && jsm.w.main.Some?
      ensures r != Threw(TimedOut)
      ensures r.Returned? ==>
                && Inv(at) && Frame(old(jsm.w), at)
                && Updated(at, Main, Whole(config).(sourced := Some(true)), jsm.w)
      ensures jsm.reliable && !Locked(old(jsm.w).main.value.config.settings, config.settings) ==> r.Returned?
    {
      Await(jsm);
      at := jsm.w;
      var attach := Whole(config).(sourced := Some(true));
      AttachKeeps(jsm.w, attach);
      var attached := jsm.Update(Main, attach);
      r := Unit(attached);
    }

    /** Clear the backup's stale source, which would form a sourcing cycle; returns its size. */
    method ClearBackupSource(jsm: JetStreamManager) returns (r: Outcome<nat>)
      requires Inv(jsm.w) && jsm.alive && jsm.w.backup.Some? && jsm.w.main.Some? && jsm.w.main.value.feed.None?
      modifies jsm
      ensures r.Died? <==> !jsm.alive
      ensures old(jsm.calls) <= jsm.calls
      ensures Inv(jsm.w) && Later(old(jsm.w), jsm.w) && SameHistory(old(jsm.w), jsm.w) && jsm.w.backup.Some?
      ensures StreamFrame(old(jsm.w).main, jsm.w.main, true) && jsm.w.restoring == old(jsm.w).restoring
      ensures old(jsm.w).backup.value.msgs <= jsm.w.backup.value.msgs
      ensures r.Returned? ==> jsm.w.backup.value.feed.None?
      ensures r.Threw? ==> !r.error.TimedOut?
      ensures jsm.reliable ==> r.Returned?
    {
      var info := Inspect(jsm, Backup);
      if !info.Done? {
        return Failure(info);
      }
      var backup := info.value;
      if backup.feed.Some? {
        Await(jsm);
        var clear := Whole(backup.config).(sourced := Some(false));
        ClearBackupKeeps(jsm.w, clear);
        NeverLockedAgainstItself(backup.config.settings, backup.config.settings);
        var cleared := jsm.Update(Backup, clear);
        if !cleared.Done? {
          return Failure(cleared);
        }
      }
      r := Returned(|backup.msgs|);
    }

    /** Wait for the source, then delete the backup and only then detach. */
    method DrainThenDetach(jsm: JetStreamManager, config: Config, backupMessages: nat) returns (r: Outcome<()>)
      requires Inv(jsm.w) && jsm.alive && jsm.w.backup.Some? && jsm.w.main.Some? && jsm.w.main.value.feed.Some?
      modifies jsm
      ensures r.Died? <==> !jsm.alive
      ensures old(jsm.calls) <= jsm.calls
      ensures Inv(jsm.w) && Later(old(jsm.w), jsm.w) && SameHistory(old(jsm.w), jsm.w) && jsm.w.main.Some?
      ensures r == Threw(TimedOut) ==> jsm.w.now >= old(jsm.w).now + sourcingTimeoutMs
      ensures r.Returned? ==> Replayed(old(jsm.w), jsm.w) && |jsm.w.main.value.msgs| >= backupMessages
      ensures r.Returned? ==>
                && Restored(jsm.w)
                && jsm.w.main.value.config.subjects == config.subjects
                && jsm.w.main.value.config.settings == old(jsm.w).main.value.config.settings + config.settings
      ensures jsm.reliable && !Locked(old(jsm.w).main.value.config.settings, config.settings) ==>
                r.Returned? || (r == Threw(TimedOut) && jsm.w.backup.Some? && jsm.w.restoring == old(jsm.w).restoring)
    {
      var drained := WaitForSourceDrained(jsm, Main, backupMessages);
      if !drained.Returned? {
        return drained;
      }
      ghost var full := jsm.w;
      if full.restoring {
        DrainedMeansCopied(full);
      }
      ghost var before;
      r, before := DeleteThenDetach(jsm, config);
      if r.Returned? && CopiesBack(old(jsm.w)) {
        DrainReplays(old(jsm.w), full, before, jsm.w);
      }
    }

    /** The backup goes while it is still attached; `before` is the world when it does. */
    method DeleteThenDetach(jsm: JetStreamManager, config: Config) returns (r: Outcome<()>, ghost before: World)
      requires Inv(jsm.w) && jsm.alive && jsm.w.backup.Some? && jsm.w.main.Some? && jsm.w.main.value.feed.Some?
      requires jsm.w.restoring ==> Drained(jsm.w)
      modifies jsm
      ensures r.Died? <==> !jsm.alive
      ensures old(jsm.calls) <= jsm.calls
      ensures Inv(jsm.w) && Later(old(jsm.w), jsm.w) && SameHistory(old(jsm.w), jsm.w) && jsm.w.main.Some?
      ensures r != Threw(TimedOut)
      ensures r.Returned? ==>
                && Accounted(old(jsm.w), before) && before.backup.Some?
                && OnlyNew(AfterDelete(before, Backup), jsm.w)
                && old(jsm.w).main.value.msgs <= jsm.w.main.value.msgs
      ensures r.Returned? ==>
                && Restored(jsm.w)
                && jsm.w.main.value.config.subjects == config.subjects
                && jsm.w.main.value.config.settings == old(jsm.w).main.value.config.settings + config.settings
      ensures jsm.reliable && !Locked(old(jsm.w).main.value.config.settings, config.settings) ==> r.Returned?
    {
      Await(jsm);
      before := jsm.w;
      DeleteBackupKeeps(jsm.w);
      var deleted := jsm.Delete(Backup);
      if !deleted.Done? {
        r := Unit(deleted);
        return;
      }
      Await(jsm);
      var detach := Whole(config).(sourced := Some(false));
      DetachKeeps(jsm.w, detach);
      var detached := jsm.Update(Main, detach);
      r := Unit(detached);
    }

    /** Live publishes cannot fake completion: the source must have synced and report lag 0. */
    method WaitForSourceDrained(jsm: JetStreamManager, n: Name, minimumMessages: nat) returns (r: Outcome<()>)
      requires Inv(jsm.w) && jsm.alive
      modifies jsm
      ensures r.Died? <==> !jsm.alive
      ensures old(jsm.calls) <= jsm.calls
      ensures Inv(jsm.w) && Waited(old(jsm.w), jsm.w)
      ensures r == Threw(TimedOut) ==> jsm.w.now >= old(jsm.w).now + sourcingTimeoutMs
      ensures r.Returned? ==>
                && jsm.w.Get(n).Some? && jsm.w.Get(n).value.feed.Some?
                && jsm.w.Get(n).value.feed.value.lag == Some(0)
                && |jsm.w.Get(n).value.msgs| >= minimumMessages
      ensures jsm.reliable && old(jsm.w).Get(n).Some? ==> !r.Died? && (r.Threw? ==> r.error.TimedOut?)
    {
      var deadline := jsm.w.now + sourcingTimeoutMs;
      while jsm.w.now < deadline
        invariant Inv(jsm.w) && Waited(old(jsm.w), jsm.w)
        invariant jsm.alive && old(jsm.calls) <= jsm.calls
        decreases deadline - jsm.w.now
      {
        ghost var before := jsm.w;
        var polled := PollSource(jsm, n, minimumMessages);
        WaitedTransitive(old(jsm.w), before, jsm.w);
        if polled.Some? {
          return polled.value;
        }
      }
      r := Threw(TimedOut);
    }

    /** One look at the source; none: it has not drained yet, and some time was slept. */
    method PollSource(jsm: JetStreamManager, n: Name, minimumMessages: nat) returns (r: Option<Outcome<()>>)
      requires Inv(jsm.w) && jsm.alive
      modifies jsm
      ensures r.Some? && r.value.Died? <==> !jsm.alive
      ensures old(jsm.calls) <= jsm.calls
      ensures Inv(jsm.w) && Waited(old(jsm.w), jsm.w)
      ensures r.None? ==> jsm.w.now >= old(jsm.w).now + SOURCING_POLL_INTERVAL_MS
      ensures r.Some? ==> r.value != Threw(TimedOut)
      ensures r.Some? && r.value.Returned? ==>
                && jsm.w.Get(n).Some? && jsm.w.Get(n).value.feed.Some?
                && jsm.w.Get(n).value.feed.value.lag == Some(0)
                && |jsm.w.Get(n).value.msgs| >= minimumMessages
      ensures jsm.reliable && old(jsm.w).Get(n).Some? ==> r in {None, Some(Returned(()))}
    {
      Await(jsm);
      var info := jsm.Info(n);
      if !info.Done? {
        return Some(Failure(info));
      }
      var source := info.value.feed;
      if source.Some? && source.value.lag == Some(0) && |info.value.msgs| >= minimumMessages {
        return Some(Returned(()));
      }
      ghost var before := jsm.w;
      Sleep(jsm, SOURCING_POLL_INTERVAL_MS);
      WaitedTransitive(old(jsm.w), before, jsm.w);
      r := None;
    }

    /** A backup present now is a live peer migration: wait it out. True when one was. */
    method WaitOutPeerMigration(jsm: JetStreamManager) returns (r: Outcome<bool>)
      requires Inv(jsm.w) && jsm.alive
      modifies jsm
      ensures r.Died? <==> !jsm.alive
      ensures old(jsm.calls) <= jsm.calls && OnlyAsked(jsm.calls, |old(jsm.calls)|)
      ensures Inv(jsm.w) && Later(old(jsm.w), jsm.w)
      ensures r == Threw(TimedOut) ==> jsm.w.now >= old(jsm.w).now + peerWaitMs
      ensures r.Returned? ==> jsm.w.backup.None? && r.value == old(jsm.w).backup.Some?
      ensures old(jsm.w).backup.None? ==>
                && Frame(old(jsm.w), jsm.w)
                && r !in {Returned(true), Threw(TimedOut)}
                && (jsm.reliable ==> r == Returned(false))
    {
      var first := Inspect(jsm, Backup);
      match first {
        case NotFound => return Returned(false);
        case Dead => return Died;
        case Failed => return Threw(Rejected);
        case Done(_) =>
      }
      var deadline := jsm.w.now + peerWaitMs;
      while jsm.w.now < deadline
        invariant Inv(jsm.w) && Later(old(jsm.w), jsm.w)
        invariant jsm.alive && old(jsm.calls) <= jsm.calls && OnlyAsked(jsm.calls, |old(jsm.calls)|)
        decreases deadline - jsm.w.now
      {
        var polled := PollBackup(jsm);
        if polled.Some? {
          return polled.value;
        }
      }
      r := Threw(TimedOut);
    }

    /** One look at the backup; none: it is still there, and some time was slept. */
    method PollBackup(jsm: JetStreamManager) returns (r: Option<Outcome<bool>>)
      requires Inv(jsm.w) && jsm.alive
      modifies jsm
      ensures r.Some? && r.value.Died? <==> !jsm.alive
      ensures exists done :: jsm.calls == old(jsm.calls) + [Call(Asks(Backup), done)]
      ensures Inv(jsm.w) && Later(old(jsm.w), jsm.w)
      ensures r.None? ==> jsm.w.now >= old(jsm.w).now + SOURCING_POLL_INTERVAL_MS * 5
      ensures r.Some? ==> r.value != Threw(TimedOut)
      ensures r.Some? && r.value.Returned? ==> r.value.value && jsm.w.backup.None?
    {
      jsm.InterleavePeer();
      var again := Inspect(jsm, Backup);
      match again {
        case NotFound => return Some(Returned(true));
        case Dead => return Some(Died);
        case Failed => return Some(Threw(Rejected));
        case Done(_) =>
      }
      Sleep(jsm, SOURCING_POLL_INTERVAL_MS * 5);
      r := None;
    }

    /** Undo the quiesce; drop the backup only once an update has shown that the original exists. */
    method RollbackBeforeDelete(jsm: JetStreamManager, original: Stream) returns (died: bool)
      requires Inv(jsm.w) && jsm.alive && (jsm.w.main.None? || !jsm.w.restoring)
      modifies jsm
      ensures died <==> !jsm.alive
      ensures Inv(jsm.w) && Later(old(jsm.w), jsm.w) && old(jsm.calls) <= jsm.calls
      ensures PutBack(jsm.calls, |old(jsm.calls)|, original.config)
      ensures AllDone(jsm.calls, |old(jsm.calls)|) ==>
                && old(jsm.w).main.Some? && jsm.w.backup.None?
                && (old(jsm.w).main.value.config.settings == original.config.settings ==>
                      Untouched(old(jsm.w), jsm.w) && jsm.w.main.value.config == original.config)
      ensures jsm.reliable && old(jsm.w).main.Some? && old(jsm.w).main.value.config.settings == original.config.settings
              ==> !died && AllDone(jsm.calls, |old(jsm.calls)|)
    {
      Await(jsm);
      if jsm.w.main.Some? {
        ReconfigureKeeps(jsm.w, Whole(original.config));
      }
      assert original.config.settings + original.config.settings == original.config.settings;
      NeverLockedAgainstItself(original.config.settings, original.config.settings);
      var updated := jsm.Update(Main, Whole(original.config));
      if !updated.Done? {
        return updated.Dead?;
      }
      died := DropBackup(jsm);
    }

    /** Delete the backup if there is one. */
    method DropBackup(jsm: JetStreamManager) returns (died: bool)
      requires Inv(jsm.w) && jsm.alive && jsm.w.main.Some? && !jsm.w.restoring
      modifies jsm
      ensures died <==> !jsm.alive
      ensures Inv(jsm.w) && old(jsm.calls) <= jsm.calls
      ensures forall i :: |old(jsm.calls)| <= i < |jsm.calls| ==>
                jsm.calls[i].request in {Asks(Backup), Deletes(Backup)}
      ensures Later(old(jsm.w), jsm.w) && Untouched(old(jsm.w), jsm.w)
      ensures jsm.w.main.value.config == old(jsm.w).main.value.config
      ensures AllDone(jsm.calls, |old(jsm.calls)|) ==> jsm.w.backup.None?
      ensures jsm.reliable ==> !died && AllDone(jsm.calls, |old(jsm.calls)|)
    {
      var info := Inspect(jsm, Backup);
      assert jsm.calls[|old(jsm.calls)|].done == (info.Done? || info.NotFound?);
      if !info.Done? {
        return info.Dead?;
      }
      Await(jsm);
      DeleteBackupKeeps(jsm.w);
      ghost var at := |jsm.calls|;
      var deleted := jsm.Delete(Backup);
      assert jsm.calls[at].done == deleted.Done?;
      died := deleted.Dead?;
    }

    /** Finish a migration that a previous process left unfinished. */
    method RecoverInterrupted(jsm: JetStreamManager, desired: Config)
      returns (r: Outcome<bool>, ghost at: World)
      requires Inv(jsm.w) && jsm.alive
      modifies jsm
      ensures r.Died? <==> !jsm.alive
      ensures Inv(jsm.w) && Later(old(jsm.w), jsm.w) && SameHistory(old(jsm.w), jsm.w)
      ensures r == Threw(TimedOut) ==> jsm.w.now >= old(jsm.w).now + sourcingTimeoutMs
      ensures r.Returned? && r.value ==>
                && old(jsm.w).backup.Some? && Restored(jsm.w)
                && jsm.w.main.value.config == if old(jsm.w).main.Some? then old(jsm.w).main.value.config else desired
      // A restore that had not been wired up: `at` is the world when the backup was attached.
      ensures r.Returned? && r.value && RestoreNotBegun(old(jsm.w)) ==>
                AttachedLater(old(jsm.w), at) && RestoredFrom(at, jsm.w)
      // The backup of a live migration is left alone.
      ensures FreshBackup(old(jsm.w), jsm.w.now) ==> Frame(old(jsm.w), jsm.w) && r !in {Returned(true), Threw(TimedOut)}
      ensures r.Returned? && !r.value ==> Frame(old(jsm.w), jsm.w) && !Stale(old(jsm.w))
      ensures old(jsm.w).backup.None? ==> Frame(old(jsm.w), jsm.w) && (jsm.reliable ==> r.Returned? && !r.value)
      // An uninterrupted recovery of a stale backup finishes, unless a drain wait runs out.
      ensures jsm.reliable ==> r.Returned? || r == Threw(TimedOut)
      ensures jsm.reliable && Stale(old(jsm.w)) && r.Threw? ==> jsm.w.backup.Some? && jsm.w.main.Some?
    {
      at := jsm.w;
      var found := Inspect(jsm, Backup);
      match found {
        case NotFound => r := Returned(false); return;
        case Dead => r := Died; return;
        case Failed => r := Threw(Rejected); return;
        case Done(_) =>
      }
      var backup := found.value;
      if IsPeerMigrationActive(backup, jsm.w.now) {
        r := Returned(false);
        return;
      }
      r, at := RecoverStale(jsm, desired, backup);
    }

    /** The backup belongs to no live migration: see what is left of the stream. */
    method RecoverStale(jsm: JetStreamManager, desired: Config, backup: Stream)
      returns (r: Outcome<bool>, ghost at: World)
      requires Inv(jsm.w) && jsm.alive && jsm.w.backup == Some(backup)
      modifies jsm
      ensures r.Died? <==> !jsm.alive
      ensures Inv(jsm.w) && Later(old(jsm.w), jsm.w) && SameHistory(old(jsm.w), jsm.w)
      ensures r == Threw(TimedOut) ==> jsm.w.now >= old(jsm.w).now + sourcingTimeoutMs
      ensures r.Returned? ==>
                && r.value && Restored(jsm.w)
                && jsm.w.main.value.config == if old(jsm.w).main.Some? then old(jsm.w).main.value.config else desired
      ensures r.Returned? && RestoreNotBegun(old(jsm.w)) ==>
                AttachedLater(old(jsm.w), at) && RestoredFrom(at, jsm.w)
      ensures jsm.reliable ==> r.Returned? || (r == Threw(TimedOut) && jsm.w.backup.Some? && jsm.w.main.Some?)
    {
      at := jsm.w;
      var current := Inspect(jsm, Main);
      match current {
        case Dead => r := Died; return;
        case Failed => r := Threw(Rejected); return;
        case NotFound =>
          r := ResumeAfterDelete(jsm, desired, |backup.msgs|);
          return;
        case Done(_) =>
      }
      r, at := RecoverBesideStream(jsm, current.value, |backup.msgs|);
    }

    /** The stream stands beside a stale backup: finish, drop or start the restore. */
    method RecoverBesideStream(jsm: JetStreamManager, stream: Stream, backupMessages: nat)
      returns (r: Outcome<bool>, ghost at: World)
      requires Inv(jsm.w) && jsm.alive && jsm.w.backup.Some? && jsm.w.main == Some(stream)
      requires backupMessages == 0 ==> jsm.w.saved == []
      modifies jsm
      ensures r.Died? <==> !jsm.alive
      ensures Inv(jsm.w) && Later(old(jsm.w), jsm.w) && SameHistory(old(jsm.w), jsm.w) && jsm.w.main.Some?
      ensures r == Threw(TimedOut) ==> jsm.w.now >= old(jsm.w).now + sourcingTimeoutMs
      ensures r.Returned? ==> r.value && Restored(jsm.w) && jsm.w.main.value.config == stream.config
      ensures r.Returned? && RestoreNotBegun(old(jsm.w)) && backupMessages > 0 ==>
                AttachedLater(old(jsm.w), at) && RestoredFrom(at, jsm.w)
      // A stream without a source is not touched for a backup that holds nothing.
      ensures stream.feed.None? && backupMessages == 0 ==>
                jsm.calls == old(jsm.calls) + [Call(Deletes(Backup), r.Returned?)]
      ensures jsm.reliable ==> r.Returned? || (r == Threw(TimedOut) && jsm.w.backup.Some?)
    {
      at := jsm.w;
      NeverLockedAgainstItself(stream.config.settings, stream.config.settings);
      if stream.feed.Some? {
        // The source is attached already and goes on from where it is.
        var finished := DrainThenDetach(jsm, stream.config, backupMessages);
        r := AsTrue(finished);
        return;
      }

      if backupMessages == 0 {
        r := DropEmptyBackup(jsm);
        return;
      }

      // No source yet. If the original was never deleted, this adds the backup to what it still holds.
      var restored;
      restored, at := RestoreFromBackup(jsm, stream.config);
      r := AsTrue(restored);
    }

    /** Only the backup is left: the process died after the delete. */
    method ResumeAfterDelete(jsm: JetStreamManager, desired: Config, backupMessages: nat) returns (r: Outcome<bool>)
      requires Inv(jsm.w) && jsm.alive && jsm.w.backup.Some? && jsm.w.main.None?
      requires backupMessages == 0 ==> jsm.w.saved == []
      modifies jsm
      ensures r.Died? <==> !jsm.alive
      ensures Inv(jsm.w) && Later(old(jsm.w), jsm.w) && SameHistory(old(jsm.w), jsm.w)
      ensures r == Threw(TimedOut) ==> jsm.w.now >= old(jsm.w).now + sourcingTimeoutMs
      ensures r.Returned? ==> r.value && Restored(jsm.w) && jsm.w.main.value.config == desired
      ensures jsm.reliable ==> r.Returned? || (r == Threw(TimedOut) && jsm.w.backup.Some? && jsm.w.main.Some?)
    {
      Await(jsm);
      AddMainKeeps(jsm.w, desired, None);
      var added := jsm.Add(Main, desired, None, false);
      if !added.Done? {
        return AsTrue(Unit(added));
      }
      if backupMessages > 0 {
        NeverLockedAgainstItself(desired.settings, desired.settings);
        var restored;
        ghost var at;
        restored, at := RestoreFromBackup(jsm, desired);
        return AsTrue(restored);
      }
      r := DropEmptyBackup(jsm);
    }

    /** A backup that holds nothing is only deleted. */
    method DropEmptyBackup(jsm: JetStreamManager) returns (r: Outcome<bool>)
      requires Inv(jsm.w) && jsm.alive && jsm.w.backup.Some? && jsm.w.main.Some? && jsm.w.main.value.feed.None?
      requires jsm.w.saved == []
      modifies jsm
      ensures r.Died? <==> !jsm.alive
      ensures Inv(jsm.w) && Later(old(jsm.w), jsm.w) && SameHistory(old(jsm.w), jsm.w) && jsm.w.main.Some?
      ensures r != Threw(TimedOut)
      ensures r.Returned? ==> r.value && Restored(jsm.w) && jsm.w.main.value.config == old(jsm.w).main.value.config
      ensures jsm.calls == old(jsm.calls) + [Call(Deletes(Backup), r.Returned?)]
      ensures jsm.reliable ==> r.Returned?
    {
      Await(jsm);
      DeleteBackupKeeps(jsm.w);
      var deleted := jsm.Delete(Backup);
      r := AsTrue(Unit(deleted));
    }

    /** After a recovery that finished, the next one finds nothing to do and touches nothing. */
    method RecoverTwice(jsm: JetStreamManager, desired: Config)
      returns (first: Outcome<bool>, second: Outcome<bool>, ghost between: World)
      requires Inv(jsm.w) && jsm.alive && jsm.reliable
      modifies jsm
      ensures jsm.alive
      ensures Inv(jsm.w) && Later(old(jsm.w), jsm.w)
      ensures first == Threw(TimedOut) ==> jsm.w.now >= old(jsm.w).now + sourcingTimeoutMs
      ensures Stale(old(jsm.w)) ==> (first.Returned? && first.value) || first == Threw(TimedOut)
      ensures first.Returned? && first.value ==>
                && Restored(between) && SameHistory(old(jsm.w), between)
                && second.Returned? && !second.value && Frame(between, jsm.w)
    {
      ghost var at;
      first, at := RecoverInterrupted(jsm, desired);
      between := jsm.w;
      second, at := RecoverInterrupted(jsm, desired);
    }

    predicate IsPeerMigrationActive(backup: Stream, now: int) {
      backup.startedAt.Some? && now - backup.startedAt.value < ACTIVE_MIGRATION_GRACE_MS
    }
  }
}
