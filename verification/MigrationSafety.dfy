/**
 Why a migration loses nothing: the invariant every world satisfies between two steps, whichever
 process died where, and the proof that no step of the environment breaks it.
 */
module MigrationSafety {
  import opened Options
  import opened StreamConfigDiff
  import opened StreamServer

  /** Every message of `a` is in `b`. */
  predicate Within(a: seq<Msg>, b: seq<Msg>) {
    forall m :: m in a ==> m in b
  }

  predicate Apart(a: seq<Msg>, b: seq<Msg>) {
    forall m :: m in a ==> m !in b
  }

  /** Every message of `saved` is in `msgs` as often as it is in `saved`. */
  predicate Once(saved: seq<Msg>, msgs: seq<Msg>) {
    forall m :: m in saved ==> multiset(msgs)[m] == multiset(saved)[m]
  }

  predicate Kept(acked: set<Msg>, msgs: seq<Msg>) {
    forall m :: m in acked ==> m in msgs
  }

  function Contents(s: Option<Stream>): seq<Msg> {
    if s.Some? then s.value.msgs else []
  }

  /** The claim of the migration guide: an acknowledged publish is in the stream or in its backup. */
  predicate NothingLost(w: World) {
    Kept(w.acked, Contents(w.main) + Contents(w.backup))
  }

  // ----- The invariant -----

  predicate Below(s: seq<Msg>, bound: Msg) {
    forall m :: m in s ==> m < bound
  }

  /** Numbers of publishes are fresh. */
  predicate Numbered(w: World) {
    && (forall m :: m in w.acked ==> m < w.next)
    && Below(Contents(w.main), w.next)
    && Below(Contents(w.backup), w.next)
    && Below(w.saved, w.next)
  }

  /** No backup: the stream holds everything, and what was last restored is in it exactly once. */
  predicate Settled(w: World) {
    && w.backup.None? && !w.restoring
    && Kept(w.acked, Contents(w.main))
    && (w.main.None? ==> w.saved == [])
    && (w.main.Some? ==>
          && Once(w.saved, w.main.value.msgs)
          && (w.main.value.feed.Some? ==> w.main.value.feed.value.orphan))
  }

  /** A source in step with the twin it copies from: lag 0 is reported only when all is copied. */
  predicate InStep(f: Source, twin: seq<Msg>) {
    && !f.orphan && f.cursor <= |twin|
    && (f.lag == Some(0) ==> f.cursor == |twin|)
  }

  /** The backup stands beside a stream that still holds everything. */
  predicate Staging(w: World) {
    && w.backup.Some? && w.main.Some? && !w.restoring && w.saved == []
    && var b, s := w.backup.value, w.main.value;
    && b.config.subjects == []
    && Kept(w.acked, s.msgs)
    && Within(b.msgs, s.msgs)
    && (b.feed.Some? ==>
          var g := b.feed.value;
          && !g.orphan && g.cursor <= |s.msgs|
          && Within(s.msgs[..g.cursor], b.msgs)
          && (s.feed.None? ==> b.msgs == s.msgs[..g.cursor])
          && (s.feed.Some? ==> s.feed.value.orphan))
    && (s.feed.Some? && !s.feed.value.orphan ==> InStep(s.feed.value, b.msgs))
  }

  /** The stream was deleted: `saved` leads the backup, and nothing of it has entered the new
      stream unless the new stream sources the backup. */
  predicate Restoring(w: World) {
    && w.backup.Some? && w.restoring
    && var b := w.backup.value;
    && b.config.subjects == []
    && w.saved <= b.msgs
    && (w.main.None? ==> b.msgs == w.saved && Kept(w.acked, w.saved))
    && (w.main.Some? ==>
          var s := w.main.value;
          && Kept(w.acked, w.saved + s.msgs)
          && Within(b.msgs[|w.saved|..], s.msgs)
          && Apart(b.msgs[|w.saved|..], w.saved)
          && (s.feed.None? ==> Apart(w.saved, s.msgs))
          && (s.feed.Some? ==>
                && b.feed.None? && InStep(s.feed.value, b.msgs)
                && (forall m :: m in w.saved ==>
                      multiset(s.msgs)[m] == multiset(b.msgs[..s.feed.value.cursor])[m])))
  }

  predicate Inv(w: World) {
    && Numbered(w)
    && (!w.tangled ==> w.saved == w.original)
    && (Settled(w) || Staging(w) || Restoring(w))
  }

  lemma InvMeansNothingLost(w: World)
    requires Inv(w)
    ensures NothingLost(w)
  {
    if Restoring(w) {
      assert Within(w.saved, w.backup.value.msgs);
    }
  }

  // ----- The environment keeps it -----

  lemma PublishKeeps(w: World, n: Name, subject: string)
    requires Inv(w)
    ensures Inv(Step(w, Publish(n, subject)))
  {
    if Step(w, Publish(n, subject)) != w {
      assert n == Main;
      if Settled(w) {
        SettledPublish(w, subject);
      } else if Staging(w) {
        StagingPublish(w, subject);
      } else {
        RestoringPublish(w, subject);
      }
    }
  }

  predicate Publishable(w: World, subject: string) {
    w.main.Some? && subject in w.main.value.config.subjects
  }

  lemma SettledPublish(w: World, subject: string)
    requires Settled(w) && Numbered(w) && Publishable(w, subject)
    ensures Settled(Step(w, Publish(Main, subject))) && Numbered(Step(w, Publish(Main, subject)))
  {
    var w' := Step(w, Publish(Main, subject));
    assert w'.main.value.msgs == w.main.value.msgs + [w.next];
  }

  lemma StagingPublish(w: World, subject: string)
    requires Staging(w) && Numbered(w) && Publishable(w, subject)
    ensures Staging(Step(w, Publish(Main, subject))) && Numbered(Step(w, Publish(Main, subject)))
  {
    var s := w.main.value.msgs;
    assert Step(w, Publish(Main, subject)).main.value.msgs == s + [w.next];
    if w.backup.value.feed.Some? {
      var c := w.backup.value.feed.value.cursor;
      assert (s + [w.next])[..c] == s[..c];
    }
  }

  lemma RestoringPublish(w: World, subject: string)
    requires Restoring(w) && Numbered(w) && Publishable(w, subject)
    ensures Restoring(Step(w, Publish(Main, subject))) && Numbered(Step(w, Publish(Main, subject)))
  {
    var s := w.main.value.msgs;
    var w' := Step(w, Publish(Main, subject));
    assert w'.main.value.msgs == s + [w.next];
    forall m | m in w.saved
      ensures multiset(w'.main.value.msgs)[m] == multiset(s)[m]
    {
      CountSnoc(s, w.next, m);
    }
  }

  lemma CopyKeeps(w: World, n: Name, i: nat)
    requires Inv(w)
    ensures Inv(Step(w, Copy(n, i)))
  {
    if CanCopy(w, n, i) {
      assert w.Get(n.Twin()).value.msgs[i] in w.Get(n.Twin()).value.msgs;
      if Staging(w) {
        if n.Main? { StagingCopyBack(w, i); } else { StagingCopy(w, i); }
      } else {
        if n.Main? { RestoringCopy(w, i); } else { RestoringCopyLive(w, i); }
      }
    }
  }

  lemma StagingCopy(w: World, i: nat)
    requires Staging(w) && CanCopy(w, Backup, i)
    ensures Staging(Step(w, Copy(Backup, i)))
  {
    var b, s := w.backup.value, w.main.value;
    assert s.msgs[i] in s.msgs;
    assert s.msgs[..i+1] == s.msgs[..i] + [s.msgs[i]];
  }

  lemma StagingCopyBack(w: World, i: nat)
    requires Staging(w) && CanCopy(w, Main, i)
    ensures Staging(Step(w, Copy(Main, i)))
  {
    var b, s := w.backup.value, w.main.value;
    if b.feed.Some? {
      var c := b.feed.value.cursor;
      assert (s.msgs + [b.msgs[i]])[..c] == s.msgs[..c];
    }
  }

  lemma RestoringCopy(w: World, i: nat)
    requires Restoring(w) && CanCopy(w, Main, i)
    ensures Restoring(Step(w, Copy(Main, i)))
  {
    var b := w.backup.value;
    assert b.msgs[..i+1] == b.msgs[..i] + [b.msgs[i]];
  }

  lemma RestoringCopyLive(w: World, i: nat)
    requires Restoring(w) && CanCopy(w, Backup, i)
    ensures Restoring(Step(w, Copy(Backup, i)))
  {
    var b, s := w.backup.value, w.main.value;
    assert s.msgs[i] in s.msgs;
    assert (b.msgs + [s.msgs[i]])[|w.saved|..] == b.msgs[|w.saved|..] + [s.msgs[i]];
  }

  lemma StepKeeps(w: World, e: Event)
    requires Inv(w)
    ensures Inv(Step(w, e))
  {
    match e
    case Publish(n, subject) => PublishKeeps(w, n, subject);
    case Copy(n, i) => CopyKeeps(w, n, i);
    case Report(n, lag) =>
    case Tick(ms) =>
  }

  lemma {:induction false} RunKeeps(w: World, es: seq<Event>)
    requires Inv(w)
    ensures Inv(Run(w, es))
    decreases |es|
  {
    if es != [] {
      StepKeeps(w, es[0]);
      RunKeeps(Step(w, es[0]), es[1..]);
    }
  }

  // ----- What a process may rely on while it waits -----

  /** No stream accepts publishes. */
  predicate Closed(w: World) {
    && (w.main.Some? ==> w.main.value.config.subjects == [])
    && (w.backup.Some? ==> w.backup.value.config.subjects == [])
  }

  /** The environment creates, deletes and configures nothing, and only ever appends. */
  predicate StreamFrame(s: Option<Stream>, s': Option<Stream>, hasTwin: bool) {
    && s.Some? == s'.Some?
    && (s.Some? ==>
          var a, b := s.value, s'.value;
          && a.config == b.config && a.startedAt == b.startedAt
          && a.msgs <= b.msgs
          && a.feed.Some? == b.feed.Some?
          && (a.feed.Some? ==>
                && a.feed.value.orphan == b.feed.value.orphan
                && (!a.feed.value.orphan ==> a.feed.value.cursor <= b.feed.value.cursor))
          && (a.config.subjects == [] && (a.feed.None? || !hasTwin) ==> a.msgs == b.msgs))
  }

  predicate Frame(w: World, w': World) {
    && StreamFrame(w.main, w'.main, w.backup.Some?)
    && StreamFrame(w.backup, w'.backup, w.main.Some?)
    && w.now <= w'.now && w.acked <= w'.acked
    && (Closed(w) ==> w.acked == w'.acked)
    && w.original == w'.original && w.saved == w'.saved
    && w.restoring == w'.restoring && w.tangled == w'.tangled
  }

  lemma StepFrame(w: World, e: Event)
    ensures Frame(w, Step(w, e))
  {
    match e
    case Publish(n, subject) => PublishFrame(w, n, subject);
    case Copy(n, i) => CopyFrame(w, n, i);
    case Report(n, lag) => ReportFrame(w, n, lag);
    case Tick(ms) =>
  }

  lemma PublishFrame(w: World, n: Name, subject: string)
    ensures Frame(w, Step(w, Publish(n, subject)))
  {
    if n.Main? {
    } else {
    }
  }

  lemma CopyFrame(w: World, n: Name, i: nat)
    ensures Frame(w, Step(w, Copy(n, i)))
  {
    if n.Main? {
    } else {
    }
  }

  lemma ReportFrame(w: World, n: Name, lag: nat)
    ensures Frame(w, Step(w, Report(n, lag)))
  {
    if n.Main? {
    } else {
    }
  }

  lemma FrameTransitive(a: World, b: World, c: World)
    requires Frame(a, b) && Frame(b, c)
    ensures Frame(a, c)
  {
  }

  lemma {:induction false} RunFrame(w: World, es: seq<Event>)
    ensures Frame(w, Run(w, es))
    decreases |es|
  {
    if es != [] {
      var mid := Step(w, es[0]);
      StepFrame(w, es[0]);
      RunFrame(mid, es[1..]);
      FrameTransitive(w, mid, Run(w, es));
    }
  }

  /** A backup being made of a quiesced stream: once its source reports lag 0, it is complete. */
  predicate BackingUp(w: World) {
    && Staging(w) && Closed(w) && w.backup.value.feed.Some?
    && (w.backup.value.feed.value.lag == Some(0) ==> BackedUp(w))
  }

  predicate BackedUp(w: World) {
    && Staging(w) && w.backup.value.feed.Some?
    && Kept(w.acked, w.backup.value.msgs)
    && (w.main.value.feed.None? ==> w.backup.value.feed.value.cursor == |w.main.value.msgs|)
  }

  lemma BackingUpStep(w: World, e: Event)
    requires Inv(w) && BackingUp(w)
    ensures BackingUp(Step(w, e))
  {
    StepKeeps(w, e);
    StepFrame(w, e);
    var w' := Step(w, e);
    assert Staging(w');
    if w'.backup.value.feed.value.lag == Some(0) {
      if e.Report? && e.on == Backup {
        assert w.main.value.msgs[..w.backup.value.feed.value.cursor] == w.main.value.msgs;
      }
    }
  }

  lemma {:induction false} BackingUpRun(w: World, es: seq<Event>)
    requires Inv(w) && BackingUp(w)
    ensures BackingUp(Run(w, es))
    decreases |es|
  {
    if es != [] {
      StepKeeps(w, es[0]);
      BackingUpStep(w, es[0]);
      BackingUpRun(Step(w, es[0]), es[1..]);
    }
  }

  /** A completed backup stays complete. */
  lemma BackedUpStays(w: World, w': World)
    requires Inv(w) && Inv(w') && Frame(w, w') && Closed(w) && BackedUp(w)
    ensures BackedUp(w')
  {
  }

  /** The stream's source has copied the whole backup. */
  predicate Drained(w: World) {
    && Fed(w, Main)
    && w.main.value.feed.value.cursor == |w.backup.value.msgs|
  }

  /** A source attached to the stream that reports lag 0 has brought over everything. */
  lemma DrainedMeansCopied(w: World)
    requires Inv(w) && Fed(w, Main) && !w.main.value.feed.value.orphan
    requires w.main.value.feed.value.lag == Some(0)
    ensures Within(w.backup.value.msgs, w.main.value.msgs)
    ensures Drained(w)
    ensures w.restoring ==> Once(w.saved, w.main.value.msgs)
  {
    if Restoring(w) {
      RestoredOnce(w);
    }
  }

  lemma RestoredOnce(w: World)
    requires Restoring(w) && Drained(w)
    ensures Once(w.saved, w.main.value.msgs)
    ensures Within(w.backup.value.msgs, w.main.value.msgs)
  {
    var b, s := w.backup.value, w.main.value;
    var tail := b.msgs[|w.saved|..];
    assert b.msgs == w.saved + tail;
    assert b.msgs[..|b.msgs|] == b.msgs;
    forall m | m in w.saved
      ensures multiset(s.msgs)[m] == multiset(w.saved)[m]
    {
      assert m !in tail;
      assert multiset(b.msgs) == multiset(w.saved) + multiset(tail);
    }
    forall m | m in b.msgs
      ensures m in s.msgs
    {
      if m in w.saved {
        assert multiset(s.msgs)[m] > 0;
      }
    }
  }

  // ----- The calls keep it -----

  lemma AddMainKeeps(w: World, config: Config, startedAt: Option<int>)
    requires Inv(w) && w.main.None?
    ensures Inv(AfterAdd(w, Main, NewStream(config, startedAt, false)))
  {
  }

  lemma AddBackupKeeps(w: World, config: Config, startedAt: Option<int>)
    requires Inv(w) && w.backup.None? && w.main.Some? && config.subjects == []
    requires w.main.value.config.subjects == []
    ensures Inv(AfterAdd(w, Backup, NewStream(config, startedAt, true)))
    ensures BackingUp(AfterAdd(w, Backup, NewStream(config, startedAt, true)))
  {
  }

  /** A change of configuration that neither attaches nor detaches a source of the stream. */
  lemma ReconfigureKeeps(w: World, p: Patch)
    requires Inv(w) && w.main.Some?
    requires p.sourced.None? || p.sourced.value == w.main.value.feed.Some?
    ensures Inv(AfterUpdate(w, Main, p))
  {
  }

  /** The backup may be attached only after its own source was cleared. */
  lemma AttachKeeps(w: World, p: Patch)
    requires Inv(w) && w.main.Some? && w.main.value.feed.None? && p.sourced == Some(true)
    requires w.backup.Some? && w.backup.value.feed.None?
    ensures Inv(AfterUpdate(w, Main, p))
  {
    assert w.backup.value.msgs[..0] == [];
  }

  /** The source may be detached only after the backup is gone. */
  lemma DetachKeeps(w: World, p: Patch)
    requires Inv(w) && w.main.Some? && w.backup.None?
    requires p.sourced == Some(false)
    ensures Inv(AfterUpdate(w, Main, p))
  {
  }

  lemma ClearBackupKeeps(w: World, p: Patch)
    requires Inv(w) && w.backup.Some? && p.sourced == Some(false)
    requires p.subjects.None? || p.subjects.value == []
    requires w.main.Some? && w.main.value.feed.None?
    ensures Inv(AfterUpdate(w, Backup, p))
  {
  }

  /** The original may be deleted only when nothing was in it or the backup has all of it. */
  lemma DeleteMainKeeps(w: World)
    requires Inv(w) && w.main.Some?
    requires if w.backup.None? then w.main.value.msgs == [] else BackedUp(w)
    ensures Inv(AfterDelete(w, Main))
  {
    var w' := AfterDelete(w, Main);
    if w.backup.Some? {
      var s := w.main.value;
      assert s.msgs[..|s.msgs|] == s.msgs;
      assert w'.backup.value.msgs[|w'.saved|..] == [];
    }
  }

  /** The backup may be deleted only beside a stream that never was, or that has drained it. */
  lemma DeleteBackupKeeps(w: World)
    requires Inv(w) && w.backup.Some?
    requires w.restoring ==> w.main.Some? && (w.saved == [] || Drained(w))
    ensures Inv(AfterDelete(w, Backup)) && Settled(AfterDelete(w, Backup))
  {
    if w.restoring && w.saved != [] {
      RestoredOnce(w);
    }
  }

  // ----- When a restore is exact -----

  function Count(msgs: seq<Msg>, m: Msg): nat {
    multiset(msgs)[m]
  }

  /** The stream copies from a backup that itself copies nothing. */
  predicate CopiesBack(w: World) {
    && Fed(w, Main) && w.backup.value.feed.None? && w.backup.value.config.subjects == []
    && !w.main.value.feed.value.orphan
    && w.main.value.feed.value.cursor <= |w.backup.value.msgs|
    && Below(w.backup.value.msgs, w.next)
  }

  function Position(w: World): seq<Msg>
    requires CopiesBack(w)
  {
    w.backup.value.msgs[..w.main.value.feed.value.cursor]
  }

  /** From `w` to `w'` the stream gained of each message of its backup what its source moved past. */
  predicate CopiedOn(w: World, w': World) {
    CopiesBack(w) ==>
      && CopiesBack(w') && w'.backup == w.backup
      && w.main.value.feed.value.cursor <= w'.main.value.feed.value.cursor
      && forall m :: m in w.backup.value.msgs ==>
           Count(w'.main.value.msgs, m) + Count(Position(w), m) == Count(w.main.value.msgs, m) + Count(Position(w'), m)
  }

  /** A stream without a backup gains only new messages. */
  ghost predicate OnlyNew(w: World, w': World) {
    && w.next <= w'.next
    && (w.main.Some? && w.backup.None? ==>
          && w'.main.Some? && w'.backup.None?
          && forall m: Msg :: m < w.next ==> Count(w'.main.value.msgs, m) == Count(w.main.value.msgs, m))
  }

  lemma CountSnoc(msgs: seq<Msg>, last: Msg, m: Msg)
    ensures Count(msgs + [last], m) == Count(msgs, m) + if m == last then 1 else 0
  {
  }

  lemma CopiedOnStep(w: World, e: Event)
    ensures CopiedOn(w, Step(w, e))
  {
    if CopiesBack(w) && Step(w, e) != w {
      var w' := Step(w, e);
      match e
      case Publish(n, subject) =>
        forall m | m in w.backup.value.msgs
          ensures Count(w'.main.value.msgs, m) == Count(w.main.value.msgs, m)
        {
          CountSnoc(w.main.value.msgs, w.next, m);
        }
      case Copy(n, i) =>
        var b := w.backup.value.msgs;
        assert b[..i+1] == b[..i] + [b[i]];
        forall m | m in b
          ensures Count(w'.main.value.msgs, m) + Count(Position(w), m)
                  == Count(w.main.value.msgs, m) + Count(Position(w'), m)
        {
          CountSnoc(w.main.value.msgs, b[i], m);
          CountSnoc(b[..i], b[i], m);
        }
      case _ =>
    }
  }

  lemma OnlyNewStep(w: World, e: Event)
    ensures OnlyNew(w, Step(w, e))
  {
    match e
    case Publish(n, subject) => OnlyNewPublish(w, n, subject);
    case _ =>
  }

  lemma OnlyNewPublish(w: World, n: Name, subject: string)
    ensures OnlyNew(w, Step(w, Publish(n, subject)))
  {
    var w' := Step(w, Publish(n, subject));
    if w.main.Some? && w.backup.None? && w' != w {
      assert n == Main && w'.main.value.msgs == w.main.value.msgs + [w.next];
      forall m: Msg | m < w.next
        ensures Count(w'.main.value.msgs, m) == Count(w.main.value.msgs, m)
      {
        CountSnoc(w.main.value.msgs, w.next, m);
      }
    }
  }

  /** What any steps of the environment do to the counts of messages. */
  ghost predicate Accounted(w: World, w': World) {
    CopiedOn(w, w') && OnlyNew(w, w')
  }

  lemma CopiedOnTransitive(a: World, b: World, c: World)
    requires CopiedOn(a, b) && CopiedOn(b, c)
    ensures CopiedOn(a, c)
  {
  }

  lemma AccountedTransitive(a: World, b: World, c: World)
    requires Accounted(a, b) && Accounted(b, c)
    ensures Accounted(a, c)
  {
    CopiedOnTransitive(a, b, c);
  }

  lemma AccountedStep(w: World, e: Event)
    ensures Accounted(w, Step(w, e))
  {
    CopiedOnStep(w, e);
    OnlyNewStep(w, e);
  }

  lemma {:induction false} AccountedRun(w: World, es: seq<Event>)
    ensures Accounted(w, Run(w, es))
    decreases |es|
  {
    if es != [] {
      var mid := Step(w, es[0]);
      AccountedStep(w, es[0]);
      AccountedRun(mid, es[1..]);
      AccountedTransitive(w, mid, Run(w, es));
    }
  }

  /** `w'` came from draining the backup of `w`: the stream gained what its source had left. */
  predicate Replayed(w: World, w': World) {
    CopiesBack(w) ==>
      w'.main.Some? && forall m :: m in w.backup.value.msgs ==>
        Count(w'.main.value.msgs, m) + Count(Position(w), m)
        == Count(w.main.value.msgs, m) + Count(w.backup.value.msgs, m)
  }

  /** A drained source, the deletion of the backup and further waiting replay the backup. */
  lemma DrainReplays(w: World, drained: World, later: World, w': World)
    requires Accounted(w, drained) && Inv(drained) && Fed(drained, Main)
    requires !drained.main.value.feed.value.orphan && drained.main.value.feed.value.lag == Some(0)
    requires Accounted(drained, later) && later.backup.Some?
    requires OnlyNew(AfterDelete(later, Backup), w')
    ensures Replayed(w, w')
  {
    if CopiesBack(w) {
      DrainedMeansCopied(drained);
      var b := w.backup.value.msgs;
      assert b[..|b|] == b;
      assert Position(drained) == b;
      assert Position(later) == b;
      forall m | m in b
        ensures Count(w'.main.value.msgs, m) + Count(Position(w), m) == Count(w.main.value.msgs, m) + Count(b, m)
      {
        assert Count(w'.main.value.msgs, m) == Count(later.main.value.msgs, m);
      }
    }
  }

  /** `w'` came from attaching the backup in `at` and draining it: the stream gained exactly what
      the backup held. */
  predicate RestoredFrom(at: World, w': World) {
    && Inv(at) && at.main.Some? && at.backup.Some? && w'.main.Some?
    && forall m :: m in at.backup.value.msgs ==>
         Count(w'.main.value.msgs, m) == Count(at.main.value.msgs, m) + Count(at.backup.value.msgs, m)
  }

  /** Every schedule that drains an attached backup adds the backup to the stream. */
  lemma DrainAddsBackup(w: World, p: Patch, es: seq<Event>)
    requires Inv(w) && w.main.Some? && w.main.value.feed.None? && p.sourced == Some(true)
    requires w.backup.Some? && w.backup.value.feed.None?
    requires var end := Run(AfterUpdate(w, Main, p), es);
             end.main.Some? && end.main.value.feed.Some? && end.main.value.feed.value.lag == Some(0)
    ensures RestoredFrom(w, Run(AfterUpdate(w, Main, p), es))
  {
    var start := AfterUpdate(w, Main, p);
    AttachKeeps(w, p);
    RunKeeps(start, es);
    RunFrame(start, es);
    AccountedRun(start, es);
    DrainedMeansCopied(Run(start, es));
    var end := Run(start, es);
    assert Position(start) == [] && Position(end) == end.backup.value.msgs;
  }

  /** A restore leaves each backed-up message as often as it was backed up if and only if the
      stream held none of them when the backup was attached. */
  lemma RestoreIsExactIff(at: World, w': World)
    requires RestoredFrom(at, w')
    ensures Once(at.backup.value.msgs, w'.main.value.msgs) <==> Apart(at.backup.value.msgs, at.main.value.msgs)
  {
    forall m | m in at.backup.value.msgs
      ensures multiset(w'.main.value.msgs)[m] == multiset(at.backup.value.msgs)[m] <==> m !in at.main.value.msgs
    {
      assert Count(w'.main.value.msgs, m) == Count(at.main.value.msgs, m) + Count(at.backup.value.msgs, m);
    }
  }

  /** So it is exact if and only if the original had been deleted and its backup has copied nothing
      from the new stream: that much of it is always exact. Beside an original that was not deleted
      every message of the backup is duplicated. */
  lemma UnsourcedBackupIsApartIff(w: World)
    requires Inv(w) && w.backup.Some? && w.main.Some? && w.main.value.feed.None? && w.backup.value.msgs != []
    ensures Apart(w.backup.value.msgs, w.main.value.msgs) <==> w.restoring && w.backup.value.msgs == w.saved
    ensures w.restoring ==> Apart(w.saved, w.main.value.msgs)
    ensures !w.restoring ==> forall m :: m in w.backup.value.msgs ==> m in w.main.value.msgs
  {
    var b := w.backup.value.msgs;
    assert b[0] in b;
    if w.restoring && b != w.saved {
      var tail := b[|w.saved|..];
      assert b == w.saved + tail;
      assert tail != [] && tail[0] in tail && tail[0] in b;
    }
  }

  // ----- When a backup is an exact copy -----

  /** A migration that has just created its backup. */
  predicate BackupStarted(w: World) {
    && Inv(w) && BackingUp(w)
    && w.backup.value.msgs == [] && w.backup.value.feed == Some(Source(0, None, false))
    && w.main.value.msgs != []
  }

  /** The drain wait on the backup would return. */
  predicate BackupReportsDrained(w: World) {
    && w.backup.Some? && w.backup.value.feed.Some?
    && w.backup.value.feed.value.lag == Some(0)
  }

  /** Every way to a drained backup copies each message exactly once if and only if the stream had
      no source left on the backup's name. Such a source is what a process that dies between the
      last delete and the last update of a restore leaves behind, and no later boot detaches it. */
  lemma BackupIsExactIff(w: World)
    requires BackupStarted(w)
    ensures (forall es :: BackupReportsDrained(Run(w, es)) ==> Once(w.main.value.msgs, Run(w, es).backup.value.msgs))
            <==> w.main.value.feed.None?
  {
    if w.main.value.feed.None? {
      forall es | BackupReportsDrained(Run(w, es))
        ensures Once(w.main.value.msgs, Run(w, es).backup.value.msgs)
      {
        DrainedBackupIsCopy(w, es);
      }
    } else {
      var es := CycleSchedule(w);
      assert BackupReportsDrained(Run(w, es)) && !Once(w.main.value.msgs, Run(w, es).backup.value.msgs);
    }
  }

  lemma DrainedBackupIsCopy(w: World, es: seq<Event>)
    requires BackupStarted(w) && w.main.value.feed.None? && BackupReportsDrained(Run(w, es))
    ensures Run(w, es).backup.value.msgs == w.main.value.msgs
  {
    RunKeeps(w, es);
    RunFrame(w, es);
    BackingUpRun(w, es);
    var s := Run(w, es).main.value;
    assert s.msgs[..|s.msgs|] == s.msgs;
  }

  /** The backup copies the stream, the stream copies one message back, the backup copies that. */
  lemma CycleSchedule(w: World) returns (es: seq<Event>)
    requires BackupStarted(w) && w.main.value.feed.Some?
    ensures BackupReportsDrained(Run(w, es))
    ensures !Once(w.main.value.msgs, Run(w, es).backup.value.msgs)
  {
    var msgs := w.main.value.msgs;
    var n := |msgs|;
    var copies := CopyAll(w, n);
    var mid := Run(w, copies);
    assert msgs[..n] == msgs;
    var rest := [Copy(Main, 0), Copy(Backup, n), Report(Backup, 0)];
    es := copies + rest;
    RunConcat(w, copies, rest);
    var a := Step(mid, rest[0]);
    var b := Step(a, rest[1]);
    var c := Step(b, rest[2]);
    RunThree(mid, rest[0], rest[1], rest[2]);
    assert a.main.value.msgs == msgs + [msgs[0]];
    assert b.backup.value.msgs == msgs + [msgs[0]];
    assert multiset(c.backup.value.msgs)[msgs[0]] == multiset(msgs)[msgs[0]] + 1;
    assert msgs[0] in msgs;
  }

  lemma RunThree(w: World, e: Event, f: Event, g: Event)
    ensures Run(w, [e, f, g]) == Step(Step(Step(w, e), f), g)
  {
    assert [e, f, g][1..] == [f, g] && [f, g][1..] == [g] && [g][1..] == [];
    assert Run(Step(w, e), [f, g]) == Run(Step(Step(w, e), f), [g]);
    assert Run(Step(Step(w, e), f), [g]) == Run(Step(Step(Step(w, e), f), g), []);
  }

  lemma {:induction false} CopyAll(w: World, k: nat) returns (es: seq<Event>)
    requires BackupStarted(w) && k <= |w.main.value.msgs|
    ensures var w' := Run(w, es);
            && w'.main == w.main
            && w'.backup == Some(w.backup.value.(msgs := w.main.value.msgs[..k], feed := Some(Source(k, None, false))))
  {
    if k == 0 {
      es := [];
    } else {
      var before := CopyAll(w, k - 1);
      var last := Copy(Backup, k - 1);
      es := before + [last];
      RunConcat(w, before, [last]);
      var mid := Run(w, before);
      assert Run(mid, [last]) == Run(Step(mid, last), [last][1..]);
      assert w.main.value.msgs[..k] == w.main.value.msgs[..k-1] + [w.main.value.msgs[k-1]];
    }
  }

  /** The stream as a service first finds it: no backup, no source on the backup's name. */
  lemma FirstBoot(w: World)
    requires w.backup.None? && !w.restoring && !w.tangled && w.saved == [] && w.original == []
    requires forall m :: m in w.acked ==> m in Contents(w.main) && m < w.next
    requires Below(Contents(w.main), w.next)
    requires w.main.Some? ==> w.main.value.feed.None?
    ensures Inv(w)
  {
  }
}
