/**
 The concurrency limiter of the routing pipeline (src/server/routing/concurrency-gate.ts).

 Messages are numbered in the order in which they are pushed. `log` is history: what happened to
 them, in order.
 */
module ConcurrencyGate {
  import opened Options

  type Msg = nat

  /** A message parked in the backlog, and whether an ack-extension timer runs for it. */
  datatype QueuedMessage = QueuedMessage(msg: Msg, timed: bool)

  datatype Entry = Started(msg: Msg) | Finished(msg: Msg) | HandedBack(msg: Msg)

  /** How a call of the route ends; a promise settles later. */
  datatype RouteCall = ReturnedUndefined | ReturnedPromise | Threw

  const BACKLOG_WARN_THRESHOLD := 1_000

  // ----- Reading the log -----

  predicate HasRoom(running: set<Msg>, limit: Option<nat>) {
    limit.Some? ==> |running| < limit.value
  }

  function LeftBefore(left: nat, last: Entry): nat {
    if last.Finished? then left else last.msg
  }

  function RunningBefore(running: set<Msg>, last: Entry): set<Msg> {
    match last
    case Started(m) => running - {m}
    case Finished(m) => running + {m}
    case HandedBack(_) => running
  }

  /** The log accounts for the first `left` messages: they left the gate in the order of their
      numbers, each routed or handed back; `running` are the routes that have not finished; and no
      route started while `limit` others were running. */
  predicate Accounts(log: seq<Entry>, left: nat, running: set<Msg>, limit: Option<nat>)
    decreases |log|
  {
    if log == [] then left == 0 && running == {}
    else
      var front, last := log[..|log|-1], log[|log|-1];
      match last
      case Started(m) =>
        left == m + 1 && m in running && HasRoom(running - {m}, limit) && Accounts(front, m, running - {m}, limit)
      case Finished(m) => m !in running && Accounts(front, left, running + {m}, limit)
      case HandedBack(m) => left == m + 1 && Accounts(front, m, running, limit)
  }

  lemma StartAccounted(log: seq<Entry>, left: nat, running: set<Msg>, limit: Option<nat>)
    requires Accounts(log, left, running, limit) && HasRoom(running, limit)
    ensures left !in running
    ensures Accounts(log + [Started(left)], left + 1, running + {left}, limit)
  {
    AccountsMeans(log, left, running, limit);
    assert (log + [Started(left)])[..|log|] == log;
    assert running + {left} - {left} == running;
  }

  lemma FinishAccounted(log: seq<Entry>, left: nat, running: set<Msg>, limit: Option<nat>, m: Msg)
    requires Accounts(log, left, running, limit) && m in running
    ensures Accounts(log + [Finished(m)], left, running - {m}, limit)
  {
    assert (log + [Finished(m)])[..|log|] == log;
    assert running - {m} + {m} == running;
  }

  lemma HandBackAccounted(log: seq<Entry>, left: nat, running: set<Msg>, limit: Option<nat>)
    requires Accounts(log, left, running, limit)
    ensures Accounts(log + [HandedBack(left)], left + 1, running, limit)
  {
    assert (log + [HandedBack(left)])[..|log|] == log;
  }

  /** What an accounting says of a message, in terms of the entries alone. */
  lemma {:induction false} AccountsMeans(log: seq<Entry>, left: nat, running: set<Msg>, limit: Option<nat>)
    requires Accounts(log, left, running, limit)
    ensures forall m: Msg :: m in running <==> Started(m) in log && Finished(m) !in log
    ensures forall m: Msg :: Started(m) in log || HandedBack(m) in log <==> m < left
    ensures forall m: Msg :: !(Started(m) in log && HandedBack(m) in log)
    ensures forall m: Msg :: Finished(m) in log ==> Started(m) in log
    decreases |log|
  {
    if log != [] {
      var front, last := log[..|log|-1], log[|log|-1];
      assert log == front + [last];
      assert forall e :: e in log <==> e in front || e == last;
      AccountsMeans(front, LeftBefore(left, last), RunningBefore(running, last), limit);
    }
  }

  /** No entry occurs twice: a message is routed at most once, and handed back at most once. */
  lemma {:induction false} NothingTwice(log: seq<Entry>, left: nat, running: set<Msg>, limit: Option<nat>,
                                         i: nat, j: nat)
    requires Accounts(log, left, running, limit) && i < j < |log|
    ensures log[i] != log[j]
    decreases |log|
  {
    var front, last := log[..|log|-1], log[|log|-1];
    var left', running' := LeftBefore(left, last), RunningBefore(running, last);
    AccountsMeans(front, left', running', limit);
    if j == |log| - 1 {
      assert log[i] in front;
    } else {
      NothingTwice(front, left', running', limit, i, j);
    }
  }

  /** Messages leave in the order in which they arrived. */
  lemma {:induction false} LeaveInOrder(log: seq<Entry>, left: nat, running: set<Msg>, limit: Option<nat>,
                                         i: nat, j: nat)
    requires Accounts(log, left, running, limit) && i < j < |log|
    requires !log[i].Finished? && !log[j].Finished?
    ensures log[i].msg < log[j].msg
    decreases |log|
  {
    var front, last := log[..|log|-1], log[|log|-1];
    var left', running' := LeftBefore(left, last), RunningBefore(running, last);
    AccountsMeans(front, left', running', limit);
    if j == |log| - 1 {
      assert log[i] in front;
    } else {
      LeaveInOrder(front, left', running', limit, i, j);
    }
  }

  /** With a limit of one no route starts before every earlier one has finished. */
  lemma {:induction false} SequentialWhenOne(log: seq<Entry>, left: nat, running: set<Msg>, i: nat, m: Msg)
    requires Accounts(log, left, running, Some(1)) && i < |log| && log[i].Started?
    requires Started(m) in log[..i]
    ensures Finished(m) in log[..i]
    decreases |log|
  {
    var front, last := log[..|log|-1], log[|log|-1];
    var left', running' := LeftBefore(left, last), RunningBefore(running, last);
    if i == |log| - 1 {
      AccountsMeans(front, left', running', Some(1));
      assert running' == {};
    } else {
      assert front[..i] == log[..i];
      SequentialWhenOne(front, left', running', i, m);
    }
  }

  lemma OneLess(running: set<Msg>, msg: Msg)
    requires msg in running
    ensures |running - {msg}| == |running| - 1
  {
  }

  // ----- The backlog and its timers -----

  /** The backlog holds the messages from `first` on, in order, with a timer each or with none. */
  predicate Consecutive(backlog: seq<QueuedMessage>, first: Msg, timed: bool) {
    forall i :: 0 <= i < |backlog| ==> backlog[i] == QueuedMessage(first + i, timed)
  }

  /** The messages from `first` on, before `end`. */
  function Between(first: Msg, end: Msg): (s: set<Msg>)
    ensures forall m :: m in s <==> first <= m < end
  {
    if first >= end then {} else Between(first, end - 1) + {end - 1}
  }

  /** The messages for which a timer has to run: all that are parked, or none. */
  function Timed(parkTimer: bool, first: Msg, end: Msg): set<Msg> {
    if parkTimer then Between(first, end) else {}
  }

  lemma TimerStops(parkTimer: bool, first: Msg, end: Msg)
    requires first < end
    ensures (if parkTimer then Timed(parkTimer, first, end) - {first} else Timed(parkTimer, first, end))
            == Timed(parkTimer, first + 1, end)
  {
  }

  lemma TimerStarts(parkTimer: bool, first: Msg, end: Msg)
    requires first <= end
    ensures (if parkTimer then Timed(parkTimer, first, end) + {end} else Timed(parkTimer, first, end))
            == Timed(parkTimer, first, end + 1)
  {
  }

  // ----- The gate -----

  /** What a stretch of the gate's life is measured by. */
  datatype Snapshot = Snapshot(pushed: nat, waiting: nat, log: seq<Entry>, running: set<Msg>, reentries: nat)

  /** Nothing is undone: what waits leaves at the front, to be routed, and what runs still runs. Each
      message that came to wait was pushed from within a route. What ended returned no promise, and
      what was begun and still runs returned one. */
  predicate Onward(route: Msg -> RouteCall, a: Snapshot, b: Snapshot) {
    && a.log <= b.log && a.running <= b.running
    && a.pushed <= b.pushed && a.pushed - a.waiting <= b.pushed - b.waiting
    && b.reentries <= a.reentries && b.waiting + b.reentries <= a.waiting + a.reentries
    && (a.reentries == 0 ==> b.pushed == a.pushed)
    && (forall k :: |a.log| <= k < |b.log| ==>
          !b.log[k].HandedBack? && (b.log[k].Finished? ==> !route(b.log[k].msg).ReturnedPromise?))
    && forall m :: m in b.running ==> m in a.running || route(m).ReturnedPromise?
  }

  function Began(a: Snapshot, msg: Msg): Snapshot {
    a.(log := a.log + [Started(msg)], running := a.running + {msg})
  }

  function Ended(a: Snapshot, msg: Msg): Snapshot {
    a.(log := a.log + [Finished(msg)], running := a.running - {msg})
  }

  /** A route that began and ended, with what its call led to in between. */
  lemma RoutedOnward(route: Msg -> RouteCall, a: Snapshot, msg: Msg, b: Snapshot)
    requires msg !in a.running && Onward(route, Began(a, msg), b)
    ensures route(msg).ReturnedPromise? ==> Onward(route, a, b)
    ensures !route(msg).ReturnedPromise? ==> Onward(route, a, Ended(b, msg))
    ensures a.log + [Started(msg)] <= Ended(b, msg).log
    ensures a.log + [Started(msg)] + [Finished(msg)] == a.log + [Started(msg), Finished(msg)]
  {
    assert a.log <= a.log + [Started(msg)] <= b.log <= b.log + [Finished(msg)];
  }

  lemma OnwardTransitive(route: Msg -> RouteCall, a: Snapshot, b: Snapshot, c: Snapshot)
    requires Onward(route, a, b) && Onward(route, b, c)
    ensures Onward(route, a, c)
  {
  }

  class ConcurrencyGate {
    var active: nat
    var backlogWarned: bool
    var backlog: seq<QueuedMessage>

    /** None: unlimited. */
    const maxActive: Option<nat>
    /** A park timer is started for each message that has to wait. */
    const parkTimer: bool
    /** How the call of the route ends for each message. */
    const route: Msg -> RouteCall

    /** How many messages were pushed: the number of the next one. */
    var pushed: nat
    /** How many have left the gate. */
    ghost var left: nat
    /** The routes in flight. */
    var running: set<Msg>
    /** How many pushes the routes will still make from within their own call. */
    var reentries: nat
    ghost var timers: set<Msg>
    ghost var log: seq<Entry>

    predicate Full()
      reads this
    {
      maxActive.Some? && active >= maxActive.value
    }

    ghost predicate Valid()
      reads this
    {
      Booked() && (|backlog| >= 1_000 ==> backlogWarned)
    }

    ghost predicate Booked()
      reads this
    {
      && left + |backlog| == pushed && Consecutive(backlog, left, parkTimer)
      && Accounts(log, left, running, maxActive)
      && active == |running| && (maxActive.Some? ==> active <= maxActive.value)
      && timers == Timed(parkTimer, left, pushed)
    }

    /** Nothing waits while there is room. */
    predicate Quiescent()
      reads this
    {
      backlog != [] ==> Full()
    }

    /** At most one slot is free while something waits. */
    predicate AlmostFull()
      reads this
    {
      backlog != [] ==> maxActive.Some? && active + 1 >= maxActive.value
    }

    ghost function Now(): Snapshot
      reads this
    {
      Snapshot(pushed, |backlog|, log, running, reentries)
    }

    constructor (maxActive: Option<nat>, parkTimer: bool, route: Msg -> RouteCall)
      ensures Valid() && Quiescent() && pushed == 0 && log == [] && running == {}
      ensures this.maxActive == maxActive && this.parkTimer == parkTimer && this.route == route
    {
      this.maxActive, this.parkTimer, this.route := maxActive, parkTimer, route;
      active, backlogWarned, backlog, reentries := 0, false, [], 0;
      pushed, left, running, timers, log := 0, 0, {}, {}, [];
    }

    /** The routes called next may push this often. */
    method Allow(n: nat)
      requires Valid() && Quiescent()
      modifies this`reentries
      ensures Valid() && Quiescent() && reentries == n
    {
      reentries := n;
    }

    /** A message arrives; it may do so from within the call of a route. */
    method Push()
      requires Valid() && Quiescent()
      modifies this
      ensures Valid() && Quiescent()
      ensures Onward(route, old(Now()).(pushed := old(pushed) + 1, waiting := old(|backlog|) + 1), Now())
      ensures old(Full()) ==> log == old(log) && |backlog| == old(|backlog|) + 1 && pushed == old(pushed) + 1
      ensures !old(Full()) ==> old(log) + [Started(old(pushed))] <= log
      ensures !old(Full()) && old(reentries) == 0 ==>
                && backlog == []
                && log == old(log) + if route(old(pushed)).ReturnedPromise? then [Started(old(pushed))]
                                     else [Started(old(pushed)), Finished(old(pushed))]
      decreases reentries, 4
    {
      if Full() {
        Park();
      } else {
        Admit();
      }
    }

    /** A message that finds room is routed at once. */
    method Admit()
      requires Valid() && backlog == [] && !Full()
      modifies this
      ensures Valid() && Quiescent()
      ensures Onward(route, old(Now()).(pushed := old(pushed) + 1), Now())
      ensures old(log) + [Started(old(pushed))] <= log
      ensures old(reentries) == 0 ==>
                && backlog == []
                && log == old(log) + if route(old(pushed)).ReturnedPromise? then [Started(old(pushed))]
                                     else [Started(old(pushed)), Finished(old(pushed))]
      decreases reentries, 3
    {
      var msg := pushed;
      pushed := pushed + 1;
      RouteNew(msg);
    }

    /** Route a message that nothing waits in front of. */
    method RouteNew(msg: Msg)
      requires Admitting(msg) && backlog == [] && !Full()
      modifies this
      ensures Valid() && Quiescent() && Onward(route, old(Now()), Now())
      ensures old(log) + [Started(msg)] <= log
      ensures old(reentries) == 0 ==>
                && backlog == []
                && log == old(log) + if route(msg).ReturnedPromise? then [Started(msg)]
                                     else [Started(msg), Finished(msg)]
      decreases reentries, 2, 2
    {
      ghost var before := Now();
      var call := Begin(msg);
      ghost var routed := Now();
      RoutedOnward(route, before, msg, routed);
      if call.ReturnedUndefined? {
        FreeSlot(msg);
        OnwardTransitive(route, before, Ended(routed, msg), Now());
      }
    }

    /** A route that was over with its call gives its slot back. */
    method FreeSlot(msg: Msg)
      requires Valid() && Quiescent() && msg in running
      modifies this
      ensures Valid() && Quiescent() && Onward(route, Ended(old(Now()), msg), Now())
      ensures old(backlog) == [] ==> backlog == [] && log == old(log) + [Finished(msg)]
      decreases reentries, 2, 1
    {
      Finish(msg);
      if backlog != [] {
        DrainBacklog();
      }
    }

    /** Keep a message for later; its park timer extends it meanwhile. */
    method Park()
      requires Valid() && Full()
      modifies this
      ensures Valid() && Full() && pushed == old(pushed) + 1 && log == old(log)
      ensures running == old(running) && reentries == old(reentries)
      ensures backlog == old(backlog) + [QueuedMessage(old(pushed), parkTimer)]
    {
      Enqueue();
      if !backlogWarned && |backlog| >= BACKLOG_WARN_THRESHOLD {
        backlogWarned := true;
      }
    }

    /** The routers pass a park timer only with an interval, so that it always starts. */
    method Enqueue()
      requires Booked()
      modifies this`timers, this`backlog, this`pushed
      ensures Booked() && pushed == old(pushed) + 1
      ensures backlog == old(backlog) + [QueuedMessage(old(pushed), parkTimer)]
    {
      TimerStarts(parkTimer, left, pushed);
      timers := if parkTimer then timers + {pushed} else timers;
      backlog, pushed := backlog + [QueuedMessage(pushed, parkTimer)], pushed + 1;
    }

    /** The promise of a route settled. */
    method OnAsyncDone(msg: Msg)
      requires Valid() && Quiescent() && msg in running
      modifies this
      ensures Valid() && Quiescent()
      ensures Onward(route, Ended(old(Now()), msg), Now())
    {
      Finish(msg);
      DrainBacklog();
    }

    /** Fill what is free from the front of the backlog. */
    method DrainBacklog()
      requires Valid() && AlmostFull()
      modifies this
      ensures Valid() && Quiescent() && Onward(route, old(Now()), Now())
      ensures |backlog| < 1_000 ==> !backlogWarned
      decreases reentries, 2, 0
    {
      while !Full() && backlog != []
        invariant Valid() && AlmostFull() && Onward(route, old(Now()), Now())
        decreases |backlog| + reentries
      {
        ghost var before := Now();
        TakeNext();
        OnwardTransitive(route, old(Now()), before, Now());
      }
      if |backlog| < BACKLOG_WARN_THRESHOLD {
        backlogWarned := false;
      }
    }

    /** The oldest parked message leaves the backlog and is routed. */
    method TakeNext()
      requires Valid() && AlmostFull() && !Full() && backlog != []
      modifies this
      ensures Valid() && AlmostFull()
      ensures Onward(route, old(Now()).(waiting := old(|backlog|) - 1), Now())
      ensures old(log) + [Started(old(backlog)[0].msg)] <= log
      decreases reentries, 1, 1
    {
      var next := backlog[0];
      Unpark();
      ghost var before := Now();
      var call := Begin(next.msg);
      RoutedOnward(route, before, next.msg, Now());
      if call.ReturnedUndefined? {
        Finish(next.msg);
      }
    }

    method StopTimer(queued: QueuedMessage)
      requires timers == Timed(parkTimer, left, pushed) && left < pushed
      requires queued == QueuedMessage(left, parkTimer)
      modifies this`timers
      ensures timers == Timed(parkTimer, left + 1, pushed)
    {
      TimerStops(parkTimer, left, pushed);
      if queued.timed {
        timers := timers - {queued.msg};
      }
    }

    /** Take the oldest message out and stop its timer. */
    method Unpark()
      requires Valid() && backlog != []
      modifies this`backlog, this`timers
      ensures backlog == old(backlog)[1..] && Admitting(old(backlog)[0].msg)
    {
      StopTimer(backlog[0]);
      backlog := backlog[1..];
    }

    /** The subscription ends: what is parked goes back to the server. */
    method Dispose()
      requires Valid()
      modifies this
      ensures Valid() && Quiescent() && pushed == old(pushed) && backlog == [] && timers == {}
      ensures active == old(active) && running == old(running)
      ensures old(log) <= log && |log| == |old(log)| + |old(backlog)|
      ensures forall k :: |old(log)| <= k < |log| ==> log[k] == HandedBack(old(left) + k - |old(log)|)
    {
      for i := 0 to |backlog|
        invariant backlog == old(backlog) && pushed == old(pushed) && left == old(left) + i
        invariant active == old(active) && running == old(running)
        invariant Disposing(i)
        invariant old(log) <= log && |log| == |old(log)| + i
        invariant forall k :: |old(log)| <= k < |log| ==> log[k] == HandedBack(old(left) + k - |old(log)|)
      {
        HandBackNext(i);
      }
      backlog := [];
    }

    /** The first `i` parked messages were handed back. */
    ghost predicate Disposing(i: nat)
      reads this
    {
      && i <= |backlog| && i <= left && left + |backlog| - i == pushed
      && Accounts(log, left, running, maxActive)
      && Consecutive(backlog, left - i, parkTimer) && timers == Timed(parkTimer, left, pushed)
    }

    /** Stop the timer of a parked message and nak it; a closing connection may drop the nak. */
    method HandBackNext(i: nat)
      requires Disposing(i) && i < |backlog|
      modifies this`timers, this`log, this`left
      ensures Disposing(i + 1) && left == old(left) + 1 && log == old(log) + [HandedBack(old(left))]
    {
      StopTimer(backlog[i]);
      HandBackAccounted(log, left, running, maxActive);
      log, left := log + [HandedBack(left)], left + 1;
    }

    /** Take a slot and route; a throw counts as a route that completed. The gate is full, or nothing
        waits, for as long as the route runs. */
    method Begin(msg: Msg) returns (call: RouteCall)
      requires Admitting(msg) && !Full() && AlmostFull()
      modifies this
      ensures Valid() && Quiescent() && msg !in old(running)
      ensures call == if route(msg).ReturnedPromise? then ReturnedPromise else ReturnedUndefined
      ensures Onward(route, Began(old(Now()), msg), Now())
      ensures old(reentries) == 0 ==> backlog == old(backlog) && log == old(log) + [Started(msg)]
      decreases reentries, 1, 0
    {
      active := active + 1;
      StartAccounted(log, msg, running, maxActive);
      log, running, left := log + [Started(msg)], running + {msg}, left + 1;
      Reenter();
      call := route(msg);
      if call.Threw? {
        call := ReturnedUndefined;
      }
    }

    /** All that `Valid` says, but for the message that is about to be routed. */
    ghost predicate Admitting(msg: Msg)
      reads this
    {
      && msg == left && left + 1 + |backlog| == pushed
      && Consecutive(backlog, left + 1, parkTimer)
      && Accounts(log, msg, running, maxActive)
      && active == |running| && (maxActive.Some? ==> active <= maxActive.value)
      && timers == Timed(parkTimer, left + 1, pushed)
      && (|backlog| >= 1_000 ==> backlogWarned)
    }

    /** What a route pushes from within its call, if anything. */
    method Reenter()
      requires Valid() && Quiescent()
      modifies this
      ensures Valid() && Quiescent() && Onward(route, old(Now()), Now())
      ensures old(reentries) == 0 ==> backlog == old(backlog) && log == old(log)
      decreases reentries, 0
    {
      var more := *;
      while more && reentries > 0
        invariant Valid() && Quiescent() && Onward(route, old(Now()), Now())
        invariant old(reentries) == 0 ==> backlog == old(backlog) && log == old(log)
        decreases reentries
      {
        ghost var before := Now();
        reentries := reentries - 1;
        Push();
        OnwardTransitive(route, old(Now()), before, Now());
        more := *;
      }
    }

    /** Give the slot of a finished route back. */
    method Finish(msg: Msg)
      requires Valid() && Quiescent() && msg in running
      modifies this`active, this`running, this`log
      ensures Valid() && AlmostFull() && Now() == Ended(old(Now()), msg)
    {
      active := active - 1;
      OneLess(running, msg);
      FinishAccounted(log, left, running, maxActive, msg);
      log, running := log + [Finished(msg)], running - {msg};
    }
  }

  // ----- Any run -----

  /** `reentries`: how many pushes the routes that run then may make from within their calls. */
  datatype Event = Arrives(reentries: nat) | Settles(msg: Msg, reentries: nat) | Disposed

  /** Every message pushed is in exactly one place: routed, handed back, or still parked. */
  ghost predicate Conserved(log: seq<Entry>, backlog: seq<QueuedMessage>, pushed: nat) {
    && |backlog| <= pushed
    && (forall i :: 0 <= i < |backlog| ==> backlog[i].msg == pushed - |backlog| + i)
    && (forall m: Msg :: m < pushed - |backlog| <==> Started(m) in log || HandedBack(m) in log)
    && (forall m: Msg :: !(Started(m) in log && HandedBack(m) in log))
    && (forall i, j :: 0 <= i < j < |log| ==> log[i] != log[j])
  }

  /** A limited gate runs no more than its limit, and as many as that while something waits. */
  predicate UsesLimit(running: set<Msg>, waiting: nat, limit: Option<nat>) {
    match limit
    case None => waiting == 0
    case Some(n) => |running| <= n && (waiting > 0 ==> |running| == n)
  }

  function Arrivals(events: seq<Event>): nat {
    if events == [] then 0 else Arrivals(events[..|events|-1]) + if events[|events|-1].Arrives? then 1 else 0
  }

  /** The route of `m` is over: its call was, or the promise it returned has settled. */
  ghost predicate Completes(m: Msg, route: Msg -> RouteCall, events: seq<Event>) {
    !route(m).ReturnedPromise? || exists e :: e in events && e.Settles? && e.msg == m
  }

  method Handle(gate: ConcurrencyGate, e: Event)
    requires gate.Valid() && gate.Quiescent()
    modifies gate
    ensures gate.Valid() && gate.Quiescent() && old(gate.log) <= gate.log && gate.pushed >= old(gate.pushed)
    ensures e.Arrives? ==> gate.pushed > old(gate.pushed)
    ensures e.Settles? && e.msg in old(gate.running) ==> Finished(e.msg) in gate.log
    ensures e.Disposed? ==> gate.backlog == [] && gate.running == old(gate.running)
    ensures forall m: Msg :: m in gate.running ==> m in old(gate.running) || gate.route(m).ReturnedPromise?
    ensures forall k :: |old(gate.log)| <= k < |gate.log| && gate.log[k].Finished? ==>
              Completes(gate.log[k].msg, gate.route, [e])
    ensures !e.Disposed? ==>
              forall k :: |old(gate.log)| <= k < |gate.log| ==> !gate.log[k].HandedBack?
  {
    assert e in [e];
    match e
    case Arrives(reentries) =>
      gate.Allow(reentries);
      gate.Push();
    case Settles(msg, reentries) =>
      gate.Allow(reentries);
      if msg in gate.running {
        SettleRunning(gate, msg);
      }
    case Disposed => gate.Dispose();
  }

  method SettleRunning(gate: ConcurrencyGate, msg: Msg)
    requires gate.Valid() && gate.Quiescent() && msg in gate.running
    modifies gate
    ensures gate.Valid() && gate.Quiescent() && old(gate.log) <= gate.log && gate.pushed >= old(gate.pushed)
    ensures Finished(msg) in gate.log
    ensures forall m: Msg :: m in gate.running ==> m in old(gate.running) || gate.route(m).ReturnedPromise?
    ensures forall k :: |old(gate.log)| <= k < |gate.log| ==>
              && !gate.log[k].HandedBack?
              && (gate.log[k].Finished? ==> gate.log[k].msg == msg || !gate.route(gate.log[k].msg).ReturnedPromise?)
  {
    ghost var before := gate.log;
    gate.OnAsyncDone(msg);
    assert gate.log[|before|] == Finished(msg);
  }

  lemma CompletesInAll(route: Msg -> RouteCall, events: seq<Event>, i: nat)
    requires i < |events|
    ensures forall m :: Completes(m, route, [events[i]]) ==> Completes(m, route, events)
  {
    assert events[i] in events;
  }

  /** Nothing was handed back without a disposal, and no route ended or runs without a reason. */
  ghost predicate Explained(log: seq<Entry>, running: set<Msg>, route: Msg -> RouteCall, events: seq<Event>) {
    && (Disposed !in events ==> forall k :: 0 <= k < |log| ==> !log[k].HandedBack?)
    && (forall k :: 0 <= k < |log| && log[k].Finished? ==> Completes(log[k].msg, route, events))
    && (forall m: Msg :: m in running ==> route(m).ReturnedPromise?)
  }

  method Advance(gate: ConcurrencyGate, events: seq<Event>, i: nat)
    requires i < |events| && gate.Valid() && gate.Quiescent()
    requires gate.pushed >= Arrivals(events[..i]) && Explained(gate.log, gate.running, gate.route, events)
    modifies gate
    ensures gate.Valid() && gate.Quiescent()
    ensures gate.pushed >= Arrivals(events[..i+1]) && Explained(gate.log, gate.running, gate.route, events)
  {
    assert events[..i+1][..i] == events[..i] && events[i] in events;
    CompletesInAll(gate.route, events, i);
    Handle(gate, events[i]);
  }

  /** Whatever arrives, settles and is disposed of, in any order, pushes within a route included. */
  method Run(maxActive: Option<nat>, parkTimer: bool, route: Msg -> RouteCall, events: seq<Event>)
    returns (gate: ConcurrencyGate)
    ensures gate.maxActive == maxActive && gate.pushed >= Arrivals(events)
    ensures Conserved(gate.log, gate.backlog, gate.pushed)
    ensures gate.active == |gate.running| && UsesLimit(gate.running, |gate.backlog|, maxActive)
    ensures forall m: Msg :: m in gate.running <==> Started(m) in gate.log && Finished(m) !in gate.log
    // A park timer is live exactly while its message is parked.
    ensures forall m: Msg :: m in gate.timers <==> parkTimer && gate.pushed - |gate.backlog| <= m < gate.pushed
    ensures Disposed !in events ==> forall m: Msg :: HandedBack(m) !in gate.log
    // A slot is kept until its route is over, and not after its call if that returns no promise.
    ensures forall m: Msg :: Finished(m) in gate.log ==> Completes(m, route, events)
    ensures forall m: Msg :: m in gate.running ==> route(m).ReturnedPromise?
  {
    gate := new ConcurrencyGate(maxActive, parkTimer, route);
    for i := 0 to |events|
      invariant fresh(gate) && gate.Valid() && gate.Quiescent()
      invariant gate.maxActive == maxActive && gate.parkTimer == parkTimer && gate.route == route
      invariant gate.pushed >= Arrivals(events[..i]) && Explained(gate.log, gate.running, route, events)
    {
      Advance(gate, events, i);
    }
    assert events[..|events|] == events;
    AccountsMeans(gate.log, gate.left, gate.running, maxActive);
    forall i, j | 0 <= i < j < |gate.log|
      ensures gate.log[i] != gate.log[j]
    {
      NothingTwice(gate.log, gate.left, gate.running, maxActive, i, j);
    }
  }
}
