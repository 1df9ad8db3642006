/**
 What a migration sees of the NATS server: the stream it recreates, the backup beside it, and
 everything that can happen to the two between one call and the next.

 Messages are identified by the number of their publish. The fields from `acked` on are history:
 no call reads them.
 */
module StreamServer {
  import opened Options
  import opened StreamConfigDiff

  type Msg = nat

  /** `Main` is the stream being migrated, `Backup` the one named with the migration suffix. */
  datatype Name = Main | Backup {
    function Twin(): Name {
      if Main? then Backup else Main
    }
  }

  /**
   A stream's source on its twin: how many messages of the twin it has copied, and the lag it
   last reported (none: never synced, `active` is -1). An orphan's twin was deleted after it was
   attached; from then on nothing is known about the position it copies from.
   */
  datatype Source = Source(cursor: nat, lag: Option<nat>, orphan: bool)

  datatype Config = Config(subjects: seq<string>, settings: Settings)

  datatype Stream = Stream(config: Config, startedAt: Option<int>, feed: Option<Source>, msgs: seq<Msg>)

  datatype World = World(
    main: Option<Stream>,
    backup: Option<Stream>,
    now: int,
    next: Msg,
    acked: set<Msg>,      // every publish the server has acknowledged
    original: seq<Msg>,   // contents of the main stream when it was last deleted
    saved: seq<Msg>,      // contents of the backup at that moment
    restoring: bool,      // that delete happened beside the backup that still exists
    tangled: bool)        // the deleted stream still had a source on the backup's name
  {
    function Get(n: Name): Option<Stream> {
      if n.Main? then main else backup
    }

    function With(n: Name, s: Stream): World {
      if n.Main? then this.(main := Some(s)) else this.(backup := Some(s))
    }
  }

  // ----- What the environment does -----

  datatype Event =
    | Publish(to: Name, subject: string)  // a producer publishes on a subject of the stream
    | Copy(into: Name, index: nat)        // the server copies one message along a source
    | Report(on: Name, lag: nat)          // a source syncs and reports its lag
    | Tick(ms: nat)

  /** One environment step; an event that is not possible changes nothing. */
  function Step(w: World, e: Event): World {
    match e
    case Publish(n, subject) =>
      if w.Get(n).Some? && subject in w.Get(n).value.config.subjects then
        var s := w.Get(n).value;
        w.With(n, s.(msgs := s.msgs + [w.next])).(acked := w.acked + {w.next}, next := w.next + 1)
      else w
    case Copy(n, i) =>
      if CanCopy(w, n, i) then
        var s := w.Get(n).value;
        w.With(n, s.(msgs := s.msgs + [w.Get(n.Twin()).value.msgs[i]],
                     feed := Some(s.feed.value.(cursor := i + 1))))
      else w
    case Report(n, lag) =>
      if Fed(w, n) then
        var s := w.Get(n).value;
        var f := s.feed.value;
        var behind := |w.Get(n.Twin()).value.msgs| - f.cursor;
        if f.orphan then w.With(n, s.(feed := Some(f.(lag := Some(lag)))))
        else if behind >= 0 then w.With(n, s.(feed := Some(f.(lag := Some(behind)))))
        else w
      else w
    case Tick(ms) => w.(now := w.now + ms)
  }

  /** The stream has a source and both ends exist. */
  predicate Fed(w: World, n: Name) {
    w.Get(n).Some? && w.Get(n).value.feed.Some? && w.Get(n.Twin()).Some?
  }

  predicate CanCopy(w: World, n: Name, i: nat) {
    && Fed(w, n)
    && i < |w.Get(n.Twin()).value.msgs|
    && (w.Get(n).value.feed.value.orphan || i == w.Get(n).value.feed.value.cursor)
  }

  function Run(w: World, es: seq<Event>): World
    decreases |es|
  {
    if es == [] then w else Run(Step(w, es[0]), es[1..])
  }

  lemma {:induction false} RunConcat(w: World, a: seq<Event>, b: seq<Event>)
    ensures Run(w, a + b) == Run(Run(w, a), b)
    decreases |a|
  {
    if a == [] {
      assert a + b == b;
    } else {
      assert (a + b)[1..] == a[1..] + b;
      RunConcat(Step(w, a[0]), a[1..], b);
    }
  }

  // ----- What the calls of the JetStream manager do -----

  /** The fields an update names; the others keep their value. */
  datatype Patch = Patch(subjects: Option<seq<string>>, settings: Settings, sourced: Option<bool>)

  function Whole(c: Config): Patch {
    Patch(Some(c.subjects), c.settings, None)
  }

  function NewStream(config: Config, startedAt: Option<int>, sourced: bool): Stream {
    Stream(config, startedAt, if sourced then Some(Source(0, None, false)) else None, [])
  }

  /** A new backup starts a new migration: the history of the last one is over. */
  function AfterAdd(w: World, n: Name, s: Stream): World {
    if n.Main? then w.With(n, s)
    else w.With(n, s).(original := [], saved := [], restoring := false, tangled := false)
  }

  function Patched(s: Stream, p: Patch): Stream {
    s.(config := Config(if p.subjects.Some? then p.subjects.value else s.config.subjects,
                        s.config.settings + p.settings),
       feed := if p.sourced.None? || p.sourced.value == s.feed.Some? then s.feed
               else if p.sourced.value then Some(Source(0, None, false))
               else None)
  }

  function AfterUpdate(w: World, n: Name, p: Patch): World
    requires w.Get(n).Some?
  {
    w.With(n, Patched(w.Get(n).value, p))
  }

  function Orphaned(s: Option<Stream>): Option<Stream> {
    if s.Some? && s.value.feed.Some? then Some(s.value.(feed := Some(s.value.feed.value.(orphan := true))))
    else s
  }

  function AfterDelete(w: World, n: Name): World
    requires w.Get(n).Some?
  {
    if n.Main? then
      w.(main := None, backup := Orphaned(w.backup), original := w.main.value.msgs,
         saved := if w.backup.Some? then w.backup.value.msgs else [],
         restoring := w.backup.Some?, tangled := w.main.value.feed.Some?)
    else
      w.(backup := None, main := Orphaned(w.main), restoring := false)
  }
}
