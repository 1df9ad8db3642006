/**
 What the ack-extension pool does, as a value: one timer for all messages, against one timer per
 message (src/utils/ack-extension.ts). Times are milliseconds.
 */
module AckTimers {
  import opened Options

  type Msg = nat

  /** A registered message. The last three fields are history: when it was registered, the times
      at which `working()` was called for it, and when it left the pool. */
  datatype Entry = Entry(
    msg: Msg, interval: nat, nextFireAt: int, expiresAt: int,
    since: int, calls: seq<int>)

  function DueAt(e: Entry): int {
    if e.nextFireAt < e.expiresAt then e.nextFireAt else e.expiresAt
  }

  /** The pool: its live entries in order of registration, and when its timer fires. `ended` is
      history: entries that left, with the time of leaving. */
  datatype Pool = Pool(entries: seq<Entry>, wake: Option<int>, ended: seq<(Entry, int)>)

  // ----- The operations -----

  /** The timer fires no later than `dueAt`. */
  function Tighten(wake: Option<int>, dueAt: int): Option<int> {
    if wake.Some? && wake.value <= dueAt then wake else Some(dueAt)
  }

  function NewEntry(now: int, msg: Msg, interval: nat, maxTotalMs: int): Entry {
    Entry(msg, interval, now + interval, now + maxTotalMs, now, [])
  }

  function Schedule(p: Pool, now: int, msg: Msg, interval: nat, maxTotalMs: int): Pool {
    var e := NewEntry(now, msg, interval, maxTotalMs);
    Pool(p.entries + [e], Tighten(p.wake, DueAt(e)), p.ended)
  }

  function Without(entries: seq<Entry>, i: nat): seq<Entry>
    requires i < |entries|
  {
    entries[..i] + entries[i+1..]
  }

  /** Cancel the live entry at `i`; without entries there is no timer. */
  function Cancel(p: Pool, now: int, i: nat): Pool
    requires i < |p.entries|
  {
    var rest := Without(p.entries, i);
    Pool(rest, if rest == [] then None else p.wake, p.ended + [(p.entries[i], now)])
  }

  predicate Expired(e: Entry, now: int) {
    e.expiresAt <= now
  }

  function Extended(e: Entry, now: int): Entry {
    if e.nextFireAt <= now then e.(nextFireAt := now + e.interval, calls := e.calls + [now]) else e
  }

  /** Visit the first `n` entries: drop the expired ones, extend the due ones, find the next wake. */
  function Walk(entries: seq<Entry>, ended: seq<(Entry, int)>, now: int, n: nat): Pool
    requires n <= |entries|
  {
    if n == 0 then Pool([], None, ended)
    else
      var e, q := entries[n-1], Walk(entries, ended, now, n - 1);
      if Expired(e, now) then q.(ended := q.ended + [(e, now)])
      else q.(entries := q.entries + [Extended(e, now)], wake := Tighten(q.wake, DueAt(Extended(e, now))))
  }

  /** The shared timer fired. */
  function Tick(p: Pool, now: int): Pool {
    Walk(p.entries, p.ended, now, |p.entries|)
  }

  // ----- The pool's own invariant -----

  /** A timer is armed if and only if some entry is live, and it is due before any of them is. */
  ghost predicate Armed(p: Pool) {
    && (p.wake.Some? <==> p.entries != [])
    && (forall e :: e in p.entries ==> p.wake.value <= DueAt(e))
  }

  lemma ScheduleKeepsArmed(p: Pool, now: int, msg: Msg, interval: nat, maxTotalMs: int)
    requires Armed(p)
    ensures Armed(Schedule(p, now, msg, interval, maxTotalMs))
  {
  }

  lemma CancelKeepsArmed(p: Pool, now: int, i: nat)
    requires Armed(p) && i < |p.entries|
    ensures Armed(Cancel(p, now, i))
  {
  }

  lemma {:induction false} WalkArms(entries: seq<Entry>, ended: seq<(Entry, int)>, now: int, n: nat)
    requires n <= |entries|
    ensures Armed(Walk(entries, ended, now, n))
  {
    if n > 0 {
      WalkArms(entries, ended, now, n - 1);
    }
  }

  /** One step of the walk, on the list of visited survivors and entries still to visit. */
  lemma WalkStep(entries: seq<Entry>, ended: seq<(Entry, int)>, i: nat, now: int)
    requires i < |entries|
    ensures var done, next, e := Walk(entries, ended, now, i), Walk(entries, ended, now, i + 1), entries[i];
            var all, at := done.entries + entries[i..], |done.entries|;
            && all[at] == e
            && next.entries + entries[i+1..] ==
               (if Expired(e, now) then Without(all, at) else all[at := Extended(e, now)])
            && next.ended == (if Expired(e, now) then done.ended + [(e, now)] else done.ended)
            && next.wake == (if Expired(e, now) then done.wake else Tighten(done.wake, DueAt(Extended(e, now))))
            && |next.entries| == (if Expired(e, now) then at else at + 1)
  {
  }

  /** What a walk makes of the entries, entry by entry. */
  lemma {:induction false} WalkEntries(entries: seq<Entry>, ended: seq<(Entry, int)>, now: int, n: nat)
    requires n <= |entries|
    ensures forall x :: x in Walk(entries, ended, now, n).entries <==>
              exists e :: e in entries[..n] && !Expired(e, now) && x == Extended(e, now)
    ensures forall x :: x in Walk(entries, ended, now, n).ended <==>
              x in ended || (x.1 == now && x.0 in entries[..n] && Expired(x.0, now))
  {
    if n > 0 {
      assert entries[..n] == entries[..n-1] + [entries[n-1]];
      WalkEntries(entries, ended, now, n - 1);
    }
  }

  lemma TickEntries(p: Pool, now: int)
    ensures forall x :: x in Tick(p, now).entries <==>
              exists e :: e in p.entries && !Expired(e, now) && x == Extended(e, now)
    ensures forall x :: x in Tick(p, now).ended <==>
              x in p.ended || (x.1 == now && x.0 in p.entries && Expired(x.0, now))
  {
    WalkEntries(p.entries, p.ended, now, |p.entries|);
    assert p.entries[..|p.entries|] == p.entries;
  }

  // ----- Runs -----

  datatype Event =
    | Scheduled(now: int, msg: Msg, interval: nat, maxTotalMs: int)
    | Cancelled(now: int, index: nat)
    | Fired(now: int)

  function Apply(p: Pool, e: Event): Pool {
    match e
    case Scheduled(now, msg, interval, max) => Schedule(p, now, msg, interval, max)
    case Cancelled(now, i) => if i < |p.entries| then Cancel(p, now, i) else p
    case Fired(now) => Tick(p, now)
  }

  /** The event can happen after time `last`: the timer fires when it is due or later. */
  predicate Possible(p: Pool, last: int, e: Event) {
    && last <= e.now
    && (e.Scheduled? ==> e.interval > 0)
    && (e.Fired? ==> p.wake.Some? && p.wake.value <= e.now)
  }

  /** With timers on time, nothing happens after the due time but the timer. */
  predicate OnTime(p: Pool, e: Event) {
    && (p.wake.Some? ==> e.now <= p.wake.value)
  }

  /** `events` is a run from `p` at time `last`; `punctual`: with timers on time. */
  predicate IsRun(p: Pool, last: int, events: seq<Event>, punctual: bool)
    decreases |events|
  {
    events == [] ||
    (&& Possible(p, last, events[0])
     && (punctual ==> OnTime(p, events[0]))
     && IsRun(Apply(p, events[0]), events[0].now, events[1..], punctual))
  }

  function After(p: Pool, events: seq<Event>): Pool
    decreases |events|
  {
    if events == [] then p else After(Apply(p, events[0]), events[1..])
  }

  function EndTime(last: int, events: seq<Event>): int {
    if events == [] then last else events[|events|-1].now
  }

  const EMPTY := Pool([], None, [])

  // ----- Bounds for any latency -----

  function LastCall(e: Entry): int {
    if e.calls == [] then e.since else e.calls[|e.calls|-1]
  }

  /** Calls are at least an interval apart and before the expiry. */
  predicate Spaced(e: Entry) {
    && e.interval > 0
    && e.nextFireAt == LastCall(e) + e.interval
    && |e.calls| * e.interval <= LastCall(e) - e.since
    && (e.calls != [] ==> LastCall(e) < e.expiresAt)
  }

  ghost predicate AllSpaced(p: Pool) {
    && (forall e :: e in p.entries ==> Spaced(e))
    && (forall x :: x in p.ended ==> Spaced(x.0))
  }

  lemma ExtendedStaysSpaced(e: Entry, now: int)
    requires Spaced(e) && !Expired(e, now)
    ensures Spaced(Extended(e, now))
  {
    if e.nextFireAt <= now {
      var n := |e.calls|;
      assert (n + 1) * e.interval == n * e.interval + e.interval;
    }
  }

  lemma ApplyKeepsSpaced(p: Pool, last: int, ev: Event)
    requires AllSpaced(p) && Possible(p, last, ev)
    ensures AllSpaced(Apply(p, ev))
  {
    match ev
    case Scheduled(now, msg, interval, max) =>
      assert Spaced(NewEntry(now, msg, interval, max));
    case Cancelled(now, i) =>
    case Fired(now) =>
      TickEntries(p, now);
      forall x | x in Tick(p, now).entries
        ensures Spaced(x)
      {
        var e :| e in p.entries && !Expired(e, now) && x == Extended(e, now);
        ExtendedStaysSpaced(e, now);
      }
  }

  lemma {:induction false} RunKeepsSpaced(p: Pool, last: int, events: seq<Event>, punctual: bool)
    requires AllSpaced(p) && IsRun(p, last, events, punctual)
    ensures AllSpaced(After(p, events))
    decreases |events|
  {
    if events != [] {
      ApplyKeepsSpaced(p, last, events[0]);
      RunKeepsSpaced(Apply(p, events[0]), events[0].now, events[1..], punctual);
    }
  }

  /** However late the timer fires, a message registered for `maxTotal` ms is extended fewer than
      maxTotal / interval times. */
  lemma CallsAreBounded(last: int, events: seq<Event>, e: Entry)
    requires IsRun(EMPTY, last, events, false)
    requires var p := After(EMPTY, events); e in p.entries || exists t :: (e, t) in p.ended
    ensures e.calls != [] ==> |e.calls| * e.interval < e.expiresAt - e.since
  {
    RunKeepsSpaced(EMPTY, last, events, false);
  }

  // ----- With timers on time: one timer per message -----

  /** The first `n` fires of a timer of its own: since + interval, since + 2 * interval, ... */
  function OwnTimer(since: int, interval: nat, n: nat): seq<int> {
    if n == 0 then [] else OwnTimer(since, interval, n - 1) + [since + n * interval]
  }

  lemma {:induction false} InOwnTimer(since: int, interval: nat, n: nat, t: int)
    ensures t in OwnTimer(since, interval, n) <==> exists k: nat :: 1 <= k <= n && t == since + k * interval
  {
    if n > 0 {
      InOwnTimer(since, interval, n - 1, t);
      if t == since + n * interval {
        assert t in OwnTimer(since, interval, n);
      }
    }
  }

  /** The calls up to `now` are the first fires of a timer of its own, all of them before the
      expiry, and the next fire is not before `now`. */
  predicate LikeOwnTimer(e: Entry, now: int) {
    var n := |e.calls|;
    && e.interval > 0
    && e.calls == OwnTimer(e.since, e.interval, n)
    && e.nextFireAt == e.since + (n + 1) * e.interval
    && e.since + n * e.interval <= now <= e.nextFireAt
    && (n > 0 ==> e.since + n * e.interval < e.expiresAt)
  }

  ghost predicate AllLikeOwn(p: Pool, now: int) {
    && Armed(p)
    && (forall e :: e in p.entries ==> LikeOwnTimer(e, now))
    && (forall x :: x in p.ended ==> LikeOwnTimer(x.0, x.1))
  }

  lemma ExtendedLikeOwn(e: Entry, last: int, now: int)
    requires LikeOwnTimer(e, last) && last <= now <= e.nextFireAt && !Expired(e, now)
    ensures LikeOwnTimer(Extended(e, now), now)
  {
    var n := |e.calls|;
    assert (n + 2) * e.interval == (n + 1) * e.interval + e.interval;
  }

  lemma ApplyKeepsLikeOwn(p: Pool, last: int, ev: Event)
    requires AllLikeOwn(p, last) && Possible(p, last, ev) && OnTime(p, ev)
    ensures AllLikeOwn(Apply(p, ev), ev.now)
  {
    assert forall e :: e in p.entries ==> LikeOwnTimer(e, ev.now);
    match ev
    case Scheduled(now, msg, interval, max) =>
      assert LikeOwnTimer(NewEntry(now, msg, interval, max), now);
    case Cancelled(now, i) =>
      if i < |p.entries| {
        assert forall e :: e in Without(p.entries, i) ==> e in p.entries;
      }
    case Fired(now) =>
      WalkArms(p.entries, p.ended, now, |p.entries|);
      TickEntries(p, now);
      forall x | x in Tick(p, now).entries
        ensures LikeOwnTimer(x, now)
      {
        var e :| e in p.entries && !Expired(e, now) && x == Extended(e, now);
        ExtendedLikeOwn(e, last, now);
      }
  }

  lemma {:induction false} RunKeepsLikeOwn(p: Pool, last: int, events: seq<Event>)
    requires AllLikeOwn(p, last) && IsRun(p, last, events, true)
    ensures AllLikeOwn(After(p, events), EndTime(last, events))
    decreases |events|
  {
    if events != [] {
      ApplyKeepsLikeOwn(p, last, events[0]);
      RunKeepsLikeOwn(Apply(p, events[0]), events[0].now, events[1..]);
    }
  }

  lemma Multiples(a: nat, b: nat, interval: nat)
    requires a <= b
    ensures a * interval <= b * interval
  {
  }

  ghost predicate IsFire(e: Entry, t: int) {
    exists k: nat :: 1 <= k && t == e.since + k * e.interval
  }

  lemma CallsAreFires(e: Entry, end: int, t: int)
    requires LikeOwnTimer(e, end)
    ensures t in e.calls ==> t <= end && t < e.expiresAt && IsFire(e, t)
  {
    var n := |e.calls|;
    InOwnTimer(e.since, e.interval, n, t);
    if t in e.calls {
      var k: nat :| 1 <= k <= n && t == e.since + k * e.interval;
      Multiples(k, n, e.interval);
    }
  }

  lemma FiresAreCalls(e: Entry, end: int, t: int)
    requires LikeOwnTimer(e, end) && t < end && IsFire(e, t)
    ensures t in e.calls
  {
    var n := |e.calls|;
    var k: nat :| 1 <= k && t == e.since + k * e.interval;
    if k > n {
      Multiples(n + 1, k, e.interval);
    }
    InOwnTimer(e.since, e.interval, n, t);
  }

  /** The shared timer refines one timer per message: a message registered at `e.since` and live up
      to `end` was called exactly at the fires of its own timer before its expiry. (At `end` itself
      it depends on which came first, the fire or the end.) */
  lemma PoolRefinesOwnTimers(last: int, events: seq<Event>, e: Entry, end: int, t: int)
    requires IsRun(EMPTY, last, events, true)
    requires var p := After(EMPTY, events);
             (e in p.entries && end == EndTime(last, events)) || (e, end) in p.ended
    ensures t in e.calls ==> t <= end && t < e.expiresAt && IsFire(e, t)
    ensures t < end && IsFire(e, t) ==> t in e.calls
  {
    RunKeepsLikeOwn(EMPTY, last, events);
    assert LikeOwnTimer(e, end);
    CallsAreFires(e, end, t);
    if t < end && IsFire(e, t) {
      FiresAreCalls(e, end, t);
    }
  }

  // ----- The interval -----

  /** The configured extension: off, a number of milliseconds, or derived from `ack_wait`. */
  datatype Extension = Off | Every(ms: real) | NotFinite | Auto

  const DEFAULT_ACK_EXTENSION_INTERVAL := 5_000
  const MIN_ACK_EXTENSION_INTERVAL := 500

  /** No extension; or the whole milliseconds asked for; or half of `ack_wait`, at least half a
      second, and five seconds if there is none. */
  function ResolveAckExtensionInterval(config: Extension, ackWaitNanos: Option<nat>): (r: Option<nat>)
    ensures r.None? <==> config in {Off, NotFinite} || (config.Every? && config.ms <= 0.0)
    ensures config.Every? && r.Some? ==> r.value as real <= config.ms < r.value as real + 1.0
    ensures config.Auto? && ackWaitNanos in {None, Some(0)} ==> r == Some(5_000)
    ensures config.Auto? && ackWaitNanos.Some? && ackWaitNanos.value > 0 ==>
              r.value >= 500 && (r.value == 500 || r.value * 2_000_000 <= ackWaitNanos.value)
              && ackWaitNanos.value < (r.value + 1) * 2_000_000
  {
    match config
    case Off => None
    case NotFinite => None
    case Every(ms) => if ms <= 0.0 then None else Some(ms.Floor)
    case Auto =>
      if ackWaitNanos in {None, Some(0)} then Some(DEFAULT_ACK_EXTENSION_INTERVAL)
      else
        var interval := ackWaitNanos.value / 1_000_000 / 2;
        Some(if interval < MIN_ACK_EXTENSION_INTERVAL then MIN_ACK_EXTENSION_INTERVAL else interval)
  }

  // ----- From the delivery on -----

  /** A moment of a run: the last event was at `last`, and the timer is not overdue. */
  predicate Moment(p: Pool, last: int, now: int) {
    last <= now && (p.wake.Some? ==> now <= p.wake.value)
  }

  lemma LikeOwnAtMoment(p: Pool, last: int, now: int, e: Entry)
    requires AllLikeOwn(p, last) && Moment(p, last, now) && e in p.entries
    ensures LikeOwnTimer(e, now)
  {
  }

  /**
   A delivery that waited: it was parked, and registered as `parked`, when it arrived; the moment
   its park timer was cancelled it was registered again as `e`, without an extension in between.
   */
  predicate HandedOver(p: Pool, parked: Entry, e: Entry) {
    && parked.msg == e.msg && parked.interval == e.interval
    && (parked, e.since) in p.ended && e in p.entries
  }

  /** When the server last heard of the message: the last `working()`, or else the delivery. */
  function LastSeen(parked: Entry, e: Entry): int {
    if e.calls == [] then LastCall(parked) else LastCall(e)
  }

  /** Over a hand-over the server hears nothing for two intervals at most, and for the whole of them
      only if the park timer was cancelled at the very moment it was due and the next is due now. */
  lemma SilenceIsBounded(last: int, events: seq<Event>, parked: Entry, e: Entry, now: int)
    requires IsRun(EMPTY, last, events, true)
    requires var p := After(EMPTY, events);
             HandedOver(p, parked, e) && Moment(p, EndTime(last, events), now)
    ensures now - LastSeen(parked, e) <= 2 * e.interval
    ensures now - LastSeen(parked, e) == 2 * e.interval <==>
            e.calls == [] && e.since == parked.nextFireAt && now == e.nextFireAt
  {
    RunKeepsLikeOwn(EMPTY, last, events);
    RunKeepsSpaced(EMPTY, last, events, true);
    LikeOwnAtMoment(After(EMPTY, events), EndTime(last, events), now, e);
    assert LikeOwnTimer(parked, e.since) && Spaced(parked) && Spaced(e);
  }

  /** A message that was routed at once, or extended since it was: the server hears of it again
      within one interval. */
  lemma SilenceOfOneTimer(last: int, events: seq<Event>, e: Entry, now: int)
    requires IsRun(EMPTY, last, events, true)
    requires var p := After(EMPTY, events); e in p.entries && Moment(p, EndTime(last, events), now)
    ensures now - LastCall(e) <= e.interval
  {
    RunKeepsLikeOwn(EMPTY, last, events);
    RunKeepsSpaced(EMPTY, last, events, true);
    LikeOwnAtMoment(After(EMPTY, events), EndTime(last, events), now, e);
    assert Spaced(e);
  }

  lemma AutomaticInterval(ackWaitNanos: nat, interval: nat)
    requires ackWaitNanos >= 1_000_000_000
    requires ResolveAckExtensionInterval(Auto, Some(ackWaitNanos)) == Some(interval)
    ensures interval >= 500 && interval * 2_000_000 <= ackWaitNanos
    ensures interval * 2_000_000 == ackWaitNanos <==> ackWaitNanos % 2_000_000 == 0
  {
    assert interval == ackWaitNanos / 1_000_000 / 2;
  }

  /** A live message of a run with timers on time and the automatic interval, after a hand-over. */
  ghost predicate Watched(last: int, events: seq<Event>, parked: Entry, e: Entry, now: int, ackWaitNanos: nat) {
    && IsRun(EMPTY, last, events, true)
    && HandedOver(After(EMPTY, events), parked, e)
    && Moment(After(EMPTY, events), EndTime(last, events), now)
    && ResolveAckExtensionInterval(Auto, Some(ackWaitNanos)) == Some(e.interval)
  }

  /** With the automatic interval for an `ack_wait` of at least a second, never more than `ack_wait`
      goes by between two signs of life of a delivery, be it parked first or routed at once. */
  lemma AckWaitNeverLapses(last: int, events: seq<Event>, e: Entry, now: int, ackWaitNanos: nat)
    requires ackWaitNanos >= 1_000_000_000
    requires IsRun(EMPTY, last, events, true) && e in After(EMPTY, events).entries
    requires Moment(After(EMPTY, events), EndTime(last, events), now)
    requires ResolveAckExtensionInterval(Auto, Some(ackWaitNanos)) == Some(e.interval)
    ensures (now - LastCall(e)) * 1_000_000 < ackWaitNanos
    ensures forall parked :: HandedOver(After(EMPTY, events), parked, e) ==>
              (now - LastSeen(parked, e)) * 1_000_000 <= ackWaitNanos
  {
    AutomaticInterval(ackWaitNanos, e.interval);
    SilenceOfOneTimer(last, events, e, now);
    forall parked | HandedOver(After(EMPTY, events), parked, e)
      ensures (now - LastSeen(parked, e)) * 1_000_000 <= ackWaitNanos
    {
      SilenceIsBounded(last, events, parked, e, now);
    }
  }

  /** It is always less if and only if `ack_wait` is no whole even number of milliseconds: for one
      that is, the halves on both sides of the hand-over can add up to all of it. */
  lemma LapseExcludedIff(ackWaitNanos: nat)
    requires ackWaitNanos >= 1_000_000_000
    ensures (forall last, events, parked, e, now :: Watched(last, events, parked, e, now, ackWaitNanos) ==>
               (now - LastSeen(parked, e)) * 1_000_000 < ackWaitNanos)
            <==> ackWaitNanos % 2_000_000 != 0
  {
    if ackWaitNanos % 2_000_000 != 0 {
      forall last, events, parked, e, now | Watched(last, events, parked, e, now, ackWaitNanos)
        ensures (now - LastSeen(parked, e)) * 1_000_000 < ackWaitNanos
      {
        AutomaticInterval(ackWaitNanos, e.interval);
        SilenceIsBounded(last, events, parked, e, now);
      }
    } else {
      var i: nat := ackWaitNanos / 1_000_000 / 2;
      AutomaticInterval(ackWaitNanos, i);
      var events, parked, e := BoundaryRun(i);
      assert Watched(0, events, parked, e, 2 * i, ackWaitNanos);
    }
  }

  /** Parked for exactly one interval, then routed: at the second interval's end nothing was heard. */
  lemma BoundaryRun(i: nat) returns (events: seq<Event>, parked: Entry, e: Entry)
    requires i > 0
    ensures IsRun(EMPTY, 0, events, true) && EndTime(0, events) == i
    ensures HandedOver(After(EMPTY, events), parked, e) && Moment(After(EMPTY, events), i, 2 * i)
    ensures e.interval == i && LastSeen(parked, e) == 0
  {
    parked, e := NewEntry(0, 0, i, 3 * i), NewEntry(i, 0, i, 3 * i);
    var a, b, c := Scheduled(0, 0, i, 3 * i), Cancelled(i, 0), Scheduled(i, 0, i, 3 * i);
    events := [a, b, c];
    var p := Pool([parked], Some(i), []);
    var q := Pool([], None, [(parked, i)]);
    assert Apply(EMPTY, a) == p && Apply(p, b) == q;
    assert Apply(q, c) == Pool([e], Some(2 * i), [(parked, i)]);
    assert events[1..] == [b, c] && [b, c][1..] == [c] && [c][1..] == [];
    assert IsRun(q, i, [c], true) && IsRun(p, 0, [b, c], true);
    assert After(q, [c]) == Apply(q, c) && After(p, [b, c]) == Apply(q, c);
  }
}
