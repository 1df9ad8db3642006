/**
 The process-wide pool that drives ack extension with one adaptive timer
 (src/utils/ack-extension.ts), proved to do what AckTimers says of it. `now` stands for
 `Date.now()`; the timer itself is its due time.
 */
module AckExtension {
  import opened Options
  import T = AckTimers

  const DEFAULT_MAX_ACK_EXTENSION_MS := 300_000

  class AckEntry {
    const msg: T.Msg
    const interval: nat
    const expiresAt: int
    var nextFireAt: int
    var active: bool
    ghost const since: int
    ghost var calls: seq<int>

    constructor (msg: T.Msg, now: int, interval: nat, maxTotalMs: int)
      ensures Value() == T.NewEntry(now, msg, interval, maxTotalMs) && active && this.msg == msg
      ensures this.interval == interval && nextFireAt == now + interval && expiresAt == now + maxTotalMs
    {
      this.msg, this.interval := msg, interval;
      nextFireAt, expiresAt, active := now + interval, now + maxTotalMs, true;
      since, calls := now, [];
    }

    ghost function Value(): T.Entry
      reads this
    {
      T.Entry(msg, interval, nextFireAt, expiresAt, since, calls)
    }
  }

  class AckExtensionPool {
    var entries: seq<AckEntry>
    var handle: bool       // a timer is armed
    var handleFireAt: int
    ghost var ended: seq<(T.Entry, int)>

    /** The entries are the live ones, each once. */
    ghost predicate Listed()
      reads this, entries
    {
      && (forall i, j :: 0 <= i < j < |entries| ==> entries[i] != entries[j])
      && (forall e :: e in entries ==> e.active)
    }

    ghost predicate Valid()
      reads this, entries
    {
      Listed() && T.Armed(Contents())
    }

    ghost function Values(es: seq<AckEntry>): seq<T.Entry>
      reads es
    {
      seq(|es|, i requires 0 <= i < |es| reads es => es[i].Value())
    }

    ghost function Contents(): T.Pool
      reads this, entries
    {
      T.Pool(Values(entries), if handle then Some(handleFireAt) else None, ended)
    }

    ghost function Members(): set<AckEntry>
      reads this
    {
      set e | e in entries
    }

    constructor ()
      ensures Valid() && Contents() == T.EMPTY
    {
      entries, handle, handleFireAt, ended := [], false, 0, [];
    }

    method Schedule(now: int, msg: T.Msg, interval: nat, maxTotalMs: int) returns (entry: AckEntry)
      requires Valid()
      modifies this
      ensures Valid() && fresh(entry) && entries == old(entries) + [entry] && entry.msg == msg
      ensures entry.interval == interval && entry.nextFireAt == now + interval && entry.expiresAt == now + maxTotalMs
      ensures Contents() == T.Schedule(old(Contents()), now, msg, interval, maxTotalMs)
    {
      entry := new AckEntry(msg, now, interval, maxTotalMs);
      ghost var before := Contents();
      T.ScheduleKeepsArmed(before, now, msg, interval, maxTotalMs);
      entries := entries + [entry];
      assert Values(entries) == old(Values(entries)) + [entry.Value()];
      ghost var after := Values(entries);
      EnsureWake(if entry.nextFireAt < entry.expiresAt then entry.nextFireAt else entry.expiresAt);
      assert Values(entries) == after;
    }

    /** The shared timer fires no later than `dueAt`. */
    method EnsureWake(dueAt: int)
      modifies this`handle, this`handleFireAt
      ensures Some(handleFireAt) == T.Tighten(if old(handle) then Some(old(handleFireAt)) else None, dueAt) && handle
    {
      if handle && handleFireAt <= dueAt {
        return;
      }
      handle, handleFireAt := true, dueAt;
    }

    method IndexOf(entry: AckEntry) returns (k: nat)
      requires entry in entries
      ensures k < |entries| && entries[k] == entry
    {
      k := 0;
      while entries[k] != entry
        invariant k < |entries| && entry in entries[k..]
        decreases |entries| - k
      {
        k := k + 1;
      }
    }

    /** Without live entries there is no timer. Cancelling twice changes nothing. */
    method Cancel(entry: AckEntry, now: int) returns (ghost k: nat)
      requires Listed() && (entry.active ==> entry in entries)
      modifies this, entry`active
      ensures Listed() && !entry.active
      ensures !old(entry.active) ==> Contents() == old(Contents()) && entries == old(entries)
      ensures old(entry.active) ==>
                && k < |old(entries)| && old(entries)[k] == entry
                && entries == old(entries)[..k] + old(entries)[k+1..]
                && Contents() == T.Cancel(old(Contents()), now, k)
      ensures old(Valid()) ==> Valid()
    {
      k := 0;
      if !entry.active {
        return;
      }
      var at := IndexOf(entry);
      k := at;
      ghost var before := Contents();
      if T.Armed(before) {
        T.CancelKeepsArmed(before, now, k);
      }
      ended := ended + [(entry.Value(), now)];
      RemoveAt(at);
      entry.active := false;
      assert Values(entries) == T.Without(before.entries, k);
      if |entries| == 0 && handle {
        handle, handleFireAt := false, 0;
      }
    }

    method RemoveAt(at: nat)
      requires Listed() && at < |entries|
      modifies this`entries
      ensures entries == old(entries)[..at] + old(entries)[at+1..]
      ensures Listed() && old(entries)[at] !in entries
      ensures Values(entries) == T.Without(old(Values(entries)), at)
    {
      ghost var gone := entries[at];
      entries := entries[..at] + entries[at+1..];
      assert forall j :: 0 <= j < |entries| ==> entries[j] == old(entries)[if j < at then j else j + 1];
      assert Values(entries) == T.Without(old(Values(entries)), at);
    }

    /** The timer fired. */
    method Tick(now: int)
      requires Valid()
      modifies this, entries
      ensures Valid() && Contents() == T.Tick(old(Contents()), now)
    {
      T.WalkArms(Values(entries), ended, now, |entries|);
      handle, handleFireAt := false, 0;
      var earliest := Walk(now);
      if earliest.Some? {
        ghost var walked := Values(entries);
        EnsureWake(earliest.value);
        assert Values(entries) == walked;
      }
    }

    /** Visit every entry once; returns when the next one is due. */
    method Walk(now: int) returns (earliest: Option<int>)
      requires Listed() && !handle
      modifies this`entries, this`ended, entries
      ensures Listed()
      ensures T.Pool(Values(entries), earliest, ended) == T.Tick(T.Pool(old(Values(entries)), None, old(ended)), now)
    {
      ghost var values, gone := Values(entries), ended;
      assert T.Walk(values, gone, now, 0) == T.Pool([], None, gone) && values[0..] == values;
      earliest := VisitAll(now, values, gone, Members());
    }

    /** The loop over the live entries, which are among `all`. */
    method VisitAll(now: int, ghost values: seq<T.Entry>, ghost gone: seq<(T.Entry, int)>, ghost all: set<AckEntry>)
      returns (earliest: Option<int>)
      requires Listed() && !handle && Members() <= all
      requires Visited(T.Walk(values, gone, now, 0), values[0..], 0, None)
      modifies this`entries, this`ended, all
      ensures Listed()
      ensures T.Pool(Values(entries), earliest, ended) == T.Walk(values, gone, now, |values|)
    {
      earliest := None;
      var count := |entries|;
      var at: nat := 0;
      for i := 0 to count
        invariant Listed() && Members() <= all
        invariant i <= |values| && Visited(T.Walk(values, gone, now, i), values[i..], at, earliest)
      {
        assert entries[at] in Members();
        at, earliest := VisitNext(at, now, earliest, values, gone, i);
      }
      assert values[count..] == [];
    }

    /** One step of the walk; `values` and `gone` are the lists it began with. */
    method VisitNext(at: nat, now: int, earliest: Option<int>, ghost values: seq<T.Entry>,
        ghost gone: seq<(T.Entry, int)>, ghost i: nat)
      returns (at': nat, earliest': Option<int>)
      requires Listed() && !handle && i < |values| && at < |entries|
      requires Visited(T.Walk(values, gone, now, i), values[i..], at, earliest)
      modifies this`entries, this`ended, entries[at]
      ensures Listed() && Members() <= old(Members())
      ensures Visited(T.Walk(values, gone, now, i + 1), values[i+1..], at', earliest')
    {
      T.WalkStep(values, gone, i, now);
      var alive;
      alive, earliest' := Visit(at, now, earliest);
      at' := if alive then at + 1 else at;
    }

    ghost predicate Visited(done: T.Pool, rest: seq<T.Entry>, at: nat, earliest: Option<int>)
      reads this, entries
    {
      && Values(entries) == done.entries + rest && at == |done.entries|
      && earliest == done.wake && ended == done.ended
    }

    /** Drop the entry if it expired, extend it if it is due. */
    method Visit(at: nat, now: int, earliest: Option<int>) returns (alive: bool, wake: Option<int>)
      requires Listed() && !handle && at < |entries|
      modifies this`entries, this`ended, entries[at]
      ensures Listed() && Members() <= old(Members())
      ensures var e := old(Values(entries))[at];
              && alive == !T.Expired(e, now)
              && Values(entries) == (if alive then old(Values(entries))[at := T.Extended(e, now)]
                                     else T.Without(old(Values(entries)), at))
              && ended == (if alive then old(ended) else old(ended) + [(e, now)])
              && wake == (if alive then T.Tighten(earliest, T.DueAt(T.Extended(e, now))) else earliest)
    {
      var entry := entries[at];
      wake := earliest;
      alive := entry.expiresAt > now;
      if !alive {
        ended := ended + [(entry.Value(), now)];
        RemoveAt(at);
        entry.active := false;
        return;
      }
      if entry.nextFireAt <= now {
        // `working()` may throw on a degraded connection; the pool goes on either way.
        entry.calls := entry.calls + [now];
        entry.nextFireAt := now + entry.interval;
      }
      wake := T.Tighten(earliest, if entry.nextFireAt < entry.expiresAt then entry.nextFireAt else entry.expiresAt);
    }

    /** Register a message, unless extension is disabled. */
    method Start(now: int, msg: T.Msg, interval: Option<nat>, maxTotalMs: Option<int>) returns (entry: AckEntry?)
      requires Valid()
      modifies this
      ensures Valid()
      ensures entry == null <==> interval in {None, Some(0)}
      ensures Contents() == if entry == null then old(Contents())
                            else T.Schedule(old(Contents()), now, msg, interval.value, entry.expiresAt - now)
      // First extended after one interval, and not at all once the total time has passed.
      ensures entry != null ==> fresh(entry) && entries == old(entries) + [entry] && entry.msg == msg
      ensures entry != null ==>
                entry.interval == interval.value && entry.nextFireAt == now + interval.value
                && entry.expiresAt == now + if maxTotalMs.Some? then maxTotalMs.value else 300_000
    {
      if interval.None? || interval.value <= 0 {
        return null;
      }
      var total := if maxTotalMs.Some? then maxTotalMs.value else DEFAULT_MAX_ACK_EXTENSION_MS;
      entry := Schedule(now, msg, interval.value, total);
    }
  }
}
