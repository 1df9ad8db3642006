/**
 JetStream-mode RPC of the client: the reply inbox (src/client/rpc-reply-inbox.ts) and the request
 around it (src/client/jetstream.client.ts).

 A correlation id stands for one request and for the callback its caller passed; `calls` is
 history: every invocation of a callback. Callbacks do not throw and do not call back in.
 */
module RpcClient {
  import opened Options

  type Id = string

  /** What a callback is invoked with. */
  datatype Packet = Response | BusinessError | TransportError | TimedOut

  type Calls = seq<(Id, Packet)>

  ghost function Called(calls: Calls): set<Id> {
    set c | c in calls :: c.0
  }

  /** No callback was invoked twice. */
  ghost predicate AtMostOnce(calls: Calls) {
    forall i, j :: 0 <= i < j < |calls| ==> calls[i].0 != calls[j].0
  }

  lemma CalledAppended(calls: Calls, id: Id, p: Packet)
    ensures Called(calls + [(id, p)]) == Called(calls) + {id}
    ensures AtMostOnce(calls) && id !in Called(calls) ==> AtMostOnce(calls + [(id, p)])
  {
    assert forall c :: c in calls + [(id, p)] <==> c in calls || c == (id, p);
    if AtMostOnce(calls) && id !in Called(calls) {
      assert forall i :: 0 <= i < |calls| ==> calls[i] in calls;
    }
  }

  lemma CalledGrows(before: Calls, after: Calls)
    requires before <= after
    ensures Called(before) <= Called(after)
  {
    assert forall i :: 0 <= i < |before| ==> before[i] == after[i];
  }

  // ----- The inbox -----

  class RpcReplyInbox {
    var inbox: Option<nat>   // the reply-to subject
    var subscription: bool
    var pending: set<Id>     // requests with a registered callback
    var timeouts: set<Id>    // requests with an armed deadline
    ghost var calls: Calls

    constructor ()
      ensures inbox == None && !subscription && pending == {} && timeouts == {} && calls == []
    {
      inbox, subscription, pending, timeouts, calls := None, false, {}, {}, [];
    }

    method Setup(address: nat)
      modifies this`inbox, this`subscription
      ensures inbox == Some(address) && subscription
    {
      inbox, subscription := Some(address), true;
    }

    method Register(id: Id)
      modifies this`pending
      ensures pending == old(pending) + {id}
    {
      pending := pending + {id};
    }

    method ArmTimeout(id: Id)
      modifies this`timeouts
      ensures timeouts == old(timeouts) + {id}
    {
      timeouts := timeouts + {id};
    }

    /** The deadline timer of `id` fired. */
    method OnTimeout(id: Id)
      modifies this`pending, this`timeouts, this`calls
      ensures if id !in old(pending) then pending == old(pending) && timeouts == old(timeouts) && calls == old(calls)
              else pending == old(pending) - {id} && timeouts == old(timeouts) - {id}
                   && calls == old(calls) + [(id, TimedOut)]
    {
      if id !in pending {
        return;
      }
      timeouts := timeouts - {id};
      pending := pending - {id};
      calls := calls + [(id, TimedOut)];
    }

    /** Drop a request without invoking its callback; true when it was still pending. */
    method Discard(id: Id) returns (was: bool)
      modifies this`pending, this`timeouts
      ensures pending == old(pending) - {id} && timeouts == old(timeouts) - {id}
      ensures was <==> id in old(pending)
    {
      timeouts := timeouts - {id};
      was := id in pending;
      pending := pending - {id};
    }

    /** Fail every pending request and tear the inbox down. */
    method RejectAll()
      modifies this
      ensures pending == {} && timeouts == {} && inbox == None && !subscription
      ensures old(calls) <= calls && Called(calls) == Called(old(calls)) + old(pending)
      ensures forall i :: |old(calls)| <= i < |calls| ==> calls[i].1 == TransportError
      ensures AtMostOnce(old(calls)) && Called(old(calls)) !! old(pending) ==> AtMostOnce(calls)
    {
      var left := pending;
      while left != {}
        invariant left <= pending == old(pending)
        invariant old(calls) <= calls && Called(calls) == Called(old(calls)) + (pending - left)
        invariant forall i :: |old(calls)| <= i < |calls| ==> calls[i].1 == TransportError
        invariant AtMostOnce(old(calls)) && Called(old(calls)) !! old(pending) ==> AtMostOnce(calls)
        decreases left
      {
        var id :| id in left;
        CalledAppended(calls, id, TransportError);
        calls := calls + [(id, TransportError)];
        left := left - {id};
      }
      timeouts, pending := {}, {};
      subscription, inbox := false, None;
    }

    /** A message arrived on the inbox subject. */
    method Route(correlationId: Option<Id>, errorHeader: bool, decodes: bool)
      modifies this`pending, this`timeouts, this`calls
      ensures if correlationId in {None, Some("")} || correlationId.value !in old(pending)
              then pending == old(pending) && timeouts == old(timeouts) && calls == old(calls)
              else && pending == old(pending) - {correlationId.value}
                   && timeouts == old(timeouts) - {correlationId.value}
                   && calls == old(calls) + [(correlationId.value, ReplyPacket(errorHeader, decodes))]
    {
      if correlationId in {None, Some("")} {
        return;
      }
      var id := correlationId.value;
      if id !in pending {
        return;
      }
      timeouts := timeouts - {id};
      calls := calls + [(id, ReplyPacket(errorHeader, decodes))];
      pending := pending - {id};
    }
  }

  /** A reply counts as an answer only if it can be read and carries no error header. */
  function ReplyPacket(errorHeader: bool, decodes: bool): (packet: Packet)
    ensures packet == Response <==> decodes && !errorHeader
    ensures packet == BusinessError <==> decodes && errorHeader
    ensures packet == TransportError <==> !decodes
  {
    if !decodes then TransportError else if errorHeader then BusinessError else Response
  }

  // ----- The client -----

  /** The request is settled with this packet if it was pending; otherwise nothing happens. */
  predicate SettledWith(id: Id, packet: Packet, pending: set<Id>, calls: Calls, pending': set<Id>, calls': Calls) {
    if id in pending then pending' == pending - {id} && calls' == calls + [(id, packet)]
    else pending' == pending && calls' == calls
  }

  /** Where the asynchronous part of a request is suspended. */
  datatype Phase = Connecting | Publishing

  datatype PublishResult = Acked | Duplicate | Rejected

  class JetstreamClient {
    const rpcInbox: RpcReplyInbox
    var readyForPublish: bool
    var suspended: map<Id, Phase>
    var addresses: nat
    var rejecting: set<Id>           // requests that could not be built; their rejection is on its way
    ghost var sent: set<Id>          // requests made
    ghost var unsubscribed: set<Id>  // requests whose caller left while they were pending

    /** Every request made is pending under a deadline, or its callback was invoked, once, or its
        caller left while it was pending, or it is being rejected; never two of these. */
    ghost predicate Valid()
      reads this, rpcInbox
    {
      && rpcInbox.pending == rpcInbox.timeouts
      && AtMostOnce(rpcInbox.calls)
      && sent == rpcInbox.pending + Called(rpcInbox.calls) + unsubscribed + rejecting
      && rpcInbox.pending !! Called(rpcInbox.calls) !! unsubscribed !! rejecting
      && suspended.Keys <= sent
    }

    /** The requests that wait for nothing from outside any more. */
    ghost function Settled(): set<Id>
      reads this, rpcInbox
    {
      Called(rpcInbox.calls) + unsubscribed + rejecting
    }

    constructor ()
      ensures Valid() && fresh(rpcInbox) && sent == {} && unsubscribed == {} && rpcInbox.calls == []
      ensures !rpcInbox.subscription
    {
      rpcInbox := new RpcReplyInbox();
      readyForPublish, suspended, addresses := false, map[], 0;
      rejecting, sent, unsubscribed := {}, {}, {};
    }

    /** `encodes`: headers and payload could be built. */
    method Publish(id: Id, encodes: bool)
      requires Valid() && id !in sent
      modifies this, rpcInbox
      ensures Valid() && sent == old(sent) + {id} && unsubscribed == old(unsubscribed)
      ensures rpcInbox.subscription == old(rpcInbox.subscription)
      ensures rejecting == if encodes then old(rejecting) else old(rejecting) + {id}
      ensures rpcInbox.calls == if encodes && old(readyForPublish) && old(rpcInbox.inbox).None?
                                then old(rpcInbox.calls) + [(id, TransportError)] else old(rpcInbox.calls)
      ensures suspended == if !encodes || rpcInbox.calls != old(rpcInbox.calls) then old(suspended)
                           else old(suspended)[id := if old(readyForPublish) then Publishing else Connecting]
    {
      sent := sent + {id};
      if !encodes {
        // The promise is rejected; what handles that runs later.
        rejecting := rejecting + {id};
        return;
      }
      rpcInbox.Register(id);
      // Armed before connecting, so that a permanent outage still settles the request.
      rpcInbox.ArmTimeout(id);
      if !readyForPublish {
        suspended := suspended[id := Connecting];
        return;
      }
      Proceed(id);
    }

    /** The rejection is handled: the caller is called back, even one that left meanwhile. */
    method OnRejected(id: Id)
      requires Valid() && id in rejecting
      modifies this`rejecting, rpcInbox
      ensures Valid() && rejecting == old(rejecting) - {id} && rpcInbox.subscription == old(rpcInbox.subscription)
      ensures rpcInbox.calls == old(rpcInbox.calls) + [(id, TransportError)]
    {
      rejecting := rejecting - {id};
      Invoke(id, TransportError);
    }

    /** The request goes on once the client is connected. */
    method Proceed(id: Id)
      requires Valid() && id in sent
      modifies this`suspended, rpcInbox
      ensures Valid() && rpcInbox.inbox == old(rpcInbox.inbox) && rpcInbox.subscription == old(rpcInbox.subscription)
      ensures if old(rpcInbox.inbox).None?
              then SettledWith(id, TransportError, old(rpcInbox.pending), old(rpcInbox.calls),
                               rpcInbox.pending, rpcInbox.calls)
              else rpcInbox.pending == old(rpcInbox.pending) && rpcInbox.calls == old(rpcInbox.calls)
      ensures suspended == if id in rpcInbox.pending then old(suspended)[id := Publishing] else old(suspended) - {id}
    {
      suspended := suspended - {id};
      if id !in rpcInbox.pending {
        return;
      }
      if rpcInbox.inbox.None? {
        var was := rpcInbox.Discard(id);
        Invoke(id, TransportError);
        return;
      }
      suspended := suspended[id := Publishing];
    }

    /** Connecting or publishing failed. */
    method Fail(id: Id)
      requires Valid() && id in sent
      modifies this`suspended, rpcInbox
      ensures Valid() && rpcInbox.inbox == old(rpcInbox.inbox) && rpcInbox.subscription == old(rpcInbox.subscription)
      ensures SettledWith(id, TransportError, old(rpcInbox.pending), old(rpcInbox.calls),
                          rpcInbox.pending, rpcInbox.calls)
      ensures suspended == old(suspended) - {id} && id !in rpcInbox.pending
    {
      suspended := suspended - {id};
      var was := rpcInbox.Discard(id);
      if was {
        Invoke(id, TransportError);
      }
    }

    /** The connection of a connect() is there: set up the inbox, open the fast path. */
    method OnConnection()
      requires Valid()
      modifies this, rpcInbox
      ensures Valid() && sent == old(sent) && unsubscribed == old(unsubscribed) && rejecting == old(rejecting)
      ensures rpcInbox.calls == old(rpcInbox.calls) && rpcInbox.pending == old(rpcInbox.pending)
      ensures readyForPublish && rpcInbox.subscription && suspended == old(suspended)
      ensures rpcInbox.inbox == if old(rpcInbox.subscription) then old(rpcInbox.inbox) else Some(old(addresses))
    {
      if !rpcInbox.subscription {
        rpcInbox.Setup(addresses);
        addresses := addresses + 1;
      }
      readyForPublish := true;
    }

    /** A request waiting for connect() resumes. */
    method OnConnectSettled(id: Id, ok: bool)
      requires Valid() && id in suspended && suspended[id] == Connecting
      modifies this, rpcInbox
      ensures rpcInbox.subscription == old(rpcInbox.subscription)
      ensures Valid() && sent == old(sent) && unsubscribed == old(unsubscribed) && rejecting == old(rejecting)
      ensures if ok && old(rpcInbox.inbox).Some?
              then rpcInbox.pending == old(rpcInbox.pending) && rpcInbox.calls == old(rpcInbox.calls)
              else SettledWith(id, TransportError, old(rpcInbox.pending), old(rpcInbox.calls),
                               rpcInbox.pending, rpcInbox.calls)
      ensures suspended == if ok && id in rpcInbox.pending then old(suspended)[id := Publishing]
                           else old(suspended) - {id}
    {
      if ok {
        Proceed(id);
      } else {
        Fail(id);
      }
    }

    /** The publish of a request settles; a duplicate is answered to the original request only. */
    method OnPublishSettled(id: Id, result: PublishResult)
      requires Valid() && id in suspended && suspended[id] == Publishing
      modifies this, rpcInbox
      ensures rpcInbox.subscription == old(rpcInbox.subscription)
      ensures Valid() && sent == old(sent) && unsubscribed == old(unsubscribed) && rejecting == old(rejecting)
      ensures if result.Acked?
              then rpcInbox.pending == old(rpcInbox.pending) && rpcInbox.calls == old(rpcInbox.calls)
              else SettledWith(id, TransportError, old(rpcInbox.pending), old(rpcInbox.calls),
                               rpcInbox.pending, rpcInbox.calls)
      ensures suspended == old(suspended) - {id}
      ensures result != Acked ==> id !in rpcInbox.pending
    {
      if result.Acked? {
        suspended := suspended - {id};
      } else {
        Fail(id);
      }
    }

    method OnReply(correlationId: Option<Id>, errorHeader: bool, decodes: bool)
      requires Valid() && rpcInbox.subscription
      modifies rpcInbox
      ensures rpcInbox.subscription == old(rpcInbox.subscription)
      ensures Valid()
      ensures if correlationId in {None, Some("")}
              then rpcInbox.pending == old(rpcInbox.pending) && rpcInbox.calls == old(rpcInbox.calls)
              else SettledWith(correlationId.value, ReplyPacket(errorHeader, decodes),
                               old(rpcInbox.pending), old(rpcInbox.calls), rpcInbox.pending, rpcInbox.calls)
    {
      if correlationId.Some? {
        CalledAppended(rpcInbox.calls, correlationId.value, ReplyPacket(errorHeader, decodes));
      }
      rpcInbox.Route(correlationId, errorHeader, decodes);
    }

    /** After its deadline a request is settled, whatever came before. */
    method OnDeadline(id: Id)
      requires Valid() && id in rpcInbox.timeouts
      modifies rpcInbox
      ensures rpcInbox.subscription == old(rpcInbox.subscription)
      ensures Valid()
      ensures SettledWith(id, TimedOut, old(rpcInbox.pending), old(rpcInbox.calls), rpcInbox.pending, rpcInbox.calls)
      ensures id in Called(rpcInbox.calls)
    {
      CalledAppended(rpcInbox.calls, id, TimedOut);
      rpcInbox.OnTimeout(id);
    }

    method HandleDisconnect()
      requires Valid()
      modifies this, rpcInbox
      ensures Valid() && sent == old(sent) && unsubscribed == old(unsubscribed) && rejecting == old(rejecting)
      ensures old(rpcInbox.calls) <= rpcInbox.calls
      ensures forall i :: |old(rpcInbox.calls)| <= i < |rpcInbox.calls| ==> rpcInbox.calls[i].1 == TransportError
      ensures !readyForPublish && rpcInbox.inbox.None? && !rpcInbox.subscription && suspended == old(suspended)
      ensures sent == Settled() && rpcInbox.pending == {}
    {
      rpcInbox.RejectAll();
      readyForPublish := false;
    }

    method Close()
      requires Valid()
      modifies this, rpcInbox
      ensures Valid() && sent == old(sent) && unsubscribed == old(unsubscribed) && rejecting == old(rejecting)
      ensures old(rpcInbox.calls) <= rpcInbox.calls
      ensures forall i :: |old(rpcInbox.calls)| <= i < |rpcInbox.calls| ==> rpcInbox.calls[i].1 == TransportError
      ensures !readyForPublish && rpcInbox.inbox.None? && !rpcInbox.subscription && suspended == old(suspended)
      ensures sent == Settled() && rpcInbox.pending == {}
    {
      readyForPublish := false;
      rpcInbox.RejectAll();
    }

    /** The caller of `id` unsubscribes. */
    method Unsubscribe(id: Id)
      requires Valid()
      modifies this, rpcInbox
      ensures rpcInbox.subscription == old(rpcInbox.subscription)
      ensures Valid() && sent == old(sent) && rpcInbox.calls == old(rpcInbox.calls)
      ensures rpcInbox.pending == old(rpcInbox.pending) - {id}
      ensures suspended == old(suspended) && rejecting == old(rejecting)
      ensures unsubscribed == if id in old(rpcInbox.pending) then old(unsubscribed) + {id} else old(unsubscribed)
    {
      var was := rpcInbox.Discard(id);
      if was {
        unsubscribed := unsubscribed + {id};
      }
    }

    method Invoke(id: Id, packet: Packet)
      modifies rpcInbox`calls
      ensures rpcInbox.calls == old(rpcInbox.calls) + [(id, packet)]
      ensures Called(rpcInbox.calls) == old(Called(rpcInbox.calls)) + {id}
      ensures old(AtMostOnce(rpcInbox.calls)) && id !in old(Called(rpcInbox.calls)) ==> AtMostOnce(rpcInbox.calls)
    {
      CalledAppended(rpcInbox.calls, id, packet);
      rpcInbox.calls := rpcInbox.calls + [(id, packet)];
    }
  }

  // ----- Any interleaving -----

  datatype Event =
    | Send(id: Id, encodes: bool)
    | RejectionHandled(id: Id)
    | ConnectionUp
    | ConnectSettled(id: Id, ok: bool)
    | PublishSettled(id: Id, result: PublishResult)
    | Reply(correlationId: Option<Id>, errorHeader: bool, decodes: bool)
    | Deadline(id: Id)
    | Disconnected
    | Closed
    | Unsubscribed(id: Id)

  /** Correlation ids are generated, so no two requests share one. */
  predicate FreshIds(events: seq<Event>) {
    forall i, j :: 0 <= i < j < |events| && events[i].Send? && events[j].Send? ==> events[i].id != events[j].id
  }

  predicate ClosesInbox(e: Event) {
    e.Disconnected? || e.Closed?
  }

  /** The inbox is subscribed to when event `j` comes: a connection came up and was not lost again. */
  predicate Open(events: seq<Event>, j: nat)
    requires j <= |events|
  {
    exists u :: 0 <= u < j && events[u].ConnectionUp? && forall v :: u < v < j ==> !ClosesInbox(events[v])
  }

  predicate RepliesTo(e: Event, id: Id) {
    e.Reply? && e.correlationId == Some(id) && id != ""
  }

  /** A request made before does not stay pending through event `j`. */
  predicate Ends(events: seq<Event>, j: nat, id: Id)
    requires j < |events|
  {
    events[j] == Deadline(id) || ClosesInbox(events[j]) || (RepliesTo(events[j], id) && Open(events, j))
  }

  lemma OpenStep(events: seq<Event>, i: nat)
    requires i < |events|
    ensures Open(events, i + 1) <==> events[i].ConnectionUp? || (Open(events, i) && !ClosesInbox(events[i]))
  {
    if Open(events, i) && !ClosesInbox(events[i]) {
      var u :| 0 <= u < i && events[u].ConnectionUp? && forall v :: u < v < i ==> !ClosesInbox(events[v]);
    }
  }

  /** What an event invokes a pending callback with, if it invokes it. */
  predicate Says(e: Event, id: Id, packet: Packet) {
    match e
    case Reply(correlationId, errorHeader, decodes) =>
      && correlationId == Some(id) && id != ""
      && (if !decodes then packet == TransportError
          else if errorHeader then packet == BusinessError
          else packet == Response)
    case Deadline(i) => i == id && packet == TimedOut
    case Send(i, _) => i == id && packet == TransportError
    case RejectionHandled(i) => i == id && packet == TransportError
    case ConnectSettled(i, _) => i == id && packet == TransportError
    case PublishSettled(i, result) => i == id && packet == TransportError && result != Acked
    case Disconnected => packet == TransportError
    case Closed => packet == TransportError
    case _ => false
  }

  /** A request that failed on its way is not pending, and a rejection that was handled is over. */
  predicate Ran(e: Event, suspended: map<Id, Phase>, rejecting: set<Id>, pending': set<Id>, rejecting': set<Id>) {
    match e
    case ConnectSettled(id, ok) => id in suspended && suspended[id] == Connecting && !ok ==> id !in pending'
    case PublishSettled(id, result) =>
      id in suspended && suspended[id] == Publishing && result != Acked ==> id !in pending'
    case RejectionHandled(id) => id !in rejecting'
    case Unsubscribed(id) => id !in pending'
    case Send(id, encodes) => id in pending' + rejecting' || encodes
    case _ => true
  }

  method Handle(client: JetstreamClient, e: Event)
    requires client.Valid() && (e.Send? ==> e.id !in client.sent)
    modifies client, client.rpcInbox
    ensures client.Valid() && old(client.rpcInbox.calls) <= client.rpcInbox.calls
    ensures client.sent == if e.Send? then old(client.sent) + {e.id} else old(client.sent)
    ensures forall id :: id in client.unsubscribed ==> id in old(client.unsubscribed) || e == Unsubscribed(id)
    ensures old(client.Settled()) <= client.Settled()
    ensures client.rpcInbox.subscription <==> e.ConnectionUp? || (old(client.rpcInbox.subscription) && !ClosesInbox(e))
    ensures e.Deadline? && e.id in old(client.sent) ==> e.id in client.Settled()
    ensures ClosesInbox(e) ==> client.sent == client.Settled()
    ensures forall id :: RepliesTo(e, id) && old(client.rpcInbox.subscription) && id in old(client.sent) ==>
              id in client.Settled()
    ensures forall k :: |old(client.rpcInbox.calls)| <= k < |client.rpcInbox.calls| ==>
              Says(e, client.rpcInbox.calls[k].0, client.rpcInbox.calls[k].1)
    ensures Ran(e, old(client.suspended), old(client.rejecting), client.rpcInbox.pending, client.rejecting)
  {
    HandleOne(client, e);
    CalledGrows(old(client.rpcInbox.calls), client.rpcInbox.calls);
  }

  method HandleOne(client: JetstreamClient, e: Event)
    requires client.Valid() && (e.Send? ==> e.id !in client.sent)
    modifies client, client.rpcInbox
    ensures client.Valid() && old(client.rpcInbox.calls) <= client.rpcInbox.calls
    ensures client.sent == if e.Send? then old(client.sent) + {e.id} else old(client.sent)
    ensures old(client.unsubscribed) <= client.unsubscribed
    ensures forall id :: id in old(client.rejecting) ==> id in client.rejecting || id in Called(client.rpcInbox.calls)
    ensures forall id :: id in client.unsubscribed ==> id in old(client.unsubscribed) || e == Unsubscribed(id)
    ensures client.rpcInbox.subscription <==> e.ConnectionUp? || (old(client.rpcInbox.subscription) && !ClosesInbox(e))
    ensures e.Deadline? ==> e.id !in client.rpcInbox.pending
    ensures ClosesInbox(e) ==> client.rpcInbox.pending == {}
    ensures forall id :: RepliesTo(e, id) && old(client.rpcInbox.subscription) ==> id !in client.rpcInbox.pending
    ensures forall k :: |old(client.rpcInbox.calls)| <= k < |client.rpcInbox.calls| ==>
              Says(e, client.rpcInbox.calls[k].0, client.rpcInbox.calls[k].1)
    ensures Ran(e, old(client.suspended), old(client.rejecting), client.rpcInbox.pending, client.rejecting)
  {
    match e
    case Send(id, encodes) => client.Publish(id, encodes);
    case RejectionHandled(id) =>
      if id in client.rejecting {
        client.OnRejected(id);
      }
    case ConnectionUp => client.OnConnection();
    case ConnectSettled(id, ok) =>
      if id in client.suspended && client.suspended[id] == Connecting {
        client.OnConnectSettled(id, ok);
      }
    case PublishSettled(id, result) =>
      if id in client.suspended && client.suspended[id] == Publishing {
        client.OnPublishSettled(id, result);
      }
    case Reply(correlationId, errorHeader, decodes) =>
      if client.rpcInbox.subscription {
        client.OnReply(correlationId, errorHeader, decodes);
      }
    case Deadline(id) =>
      if id in client.rpcInbox.timeouts {
        client.OnDeadline(id);
      }
    case Disconnected => client.HandleDisconnect();
    case Closed => client.Close();
    case Unsubscribed(id) => client.Unsubscribe(id);
  }

  /** One of the first `n` events says what the callback was invoked with. */
  ghost predicate HasEvent(call: (Id, Packet), events: seq<Event>, n: nat)
    requires n <= |events|
  {
    exists j :: 0 <= j < n && Says(events[j], call.0, call.1)
  }

  ghost predicate Explained(calls: Calls, events: seq<Event>, n: nat)
    requires n <= |events|
  {
    forall k :: 0 <= k < |calls| ==> HasEvent(calls[k], events, n)
  }

  /** What was sent and had to end among the first `n` events has been settled. */
  ghost predicate EndedAreSettled(settled: set<Id>, events: seq<Event>, n: nat)
    requires n <= |events|
  {
    forall a, b :: 0 <= a < b < n && events[a].Send? && Ends(events, b, events[a].id) ==> events[a].id in settled
  }

  /** The requests made by the first `n` events. */
  ghost predicate SentBy(sent: set<Id>, events: seq<Event>, n: nat)
    requires n <= |events|
  {
    forall id :: id in sent <==> exists a :: 0 <= a < n && events[a].Send? && events[a].id == id
  }

  lemma ExplainedStep(before: Calls, after: Calls, events: seq<Event>, n: nat)
    requires n < |events| && Explained(before, events, n) && before <= after
    requires forall k :: |before| <= k < |after| ==> Says(events[n], after[k].0, after[k].1)
    ensures Explained(after, events, n + 1)
  {
    forall k | 0 <= k < |after|
      ensures HasEvent(after[k], events, n + 1)
    {
      if k < |before| {
        assert after[k] == before[k] && HasEvent(before[k], events, n);
      } else {
        assert Says(events[n], after[k].0, after[k].1);
      }
    }
  }

  lemma SentStep(before: set<Id>, after: set<Id>, events: seq<Event>, n: nat)
    requires n < |events| && SentBy(before, events, n)
    requires after == if events[n].Send? then before + {events[n].id} else before
    ensures SentBy(after, events, n + 1)
  {
  }

  lemma IdIsNew(sent: set<Id>, events: seq<Event>, n: nat)
    requires n < |events| && FreshIds(events) && SentBy(sent, events, n) && events[n].Send?
    ensures events[n].id !in sent
  {
  }

  /** In every interleaving of every event: no callback fires twice; the deadline of every pending
      request is armed and no other; unless its caller unsubscribed, a request that is not pending
      any more had its callback invoked, or will have it by a rejection that is on its way; none is
      pending after its deadline, a lost connection or a reply that finds the inbox open; and a
      callback hears of a response only if one came, of a timeout only at its deadline. */
  method Session(events: seq<Event>) returns (client: JetstreamClient)
    requires FreshIds(events)
    ensures client.Valid()
    ensures AtMostOnce(client.rpcInbox.calls) && client.rpcInbox.pending == client.rpcInbox.timeouts
    ensures forall e :: e in events && e.Send? && Unsubscribed(e.id) !in events ==>
              (e.id in Called(client.rpcInbox.calls) <==> e.id !in client.rpcInbox.pending + client.rejecting)
    ensures forall i, j :: (0 <= i < j < |events| && events[i].Send? && Ends(events, j, events[i].id)
                            && Unsubscribed(events[i].id) !in events) ==>
              events[i].id in Called(client.rpcInbox.calls) + client.rejecting
    ensures Explained(client.rpcInbox.calls, events, |events|)
  {
    client := new JetstreamClient();
    for i := 0 to |events|
      invariant fresh(client) && fresh(client.rpcInbox) && client.Valid()
      invariant client.rpcInbox.subscription <==> Open(events, i)
      invariant SentBy(client.sent, events, i)
      invariant forall id :: id in client.unsubscribed ==> Unsubscribed(id) in events
      invariant EndedAreSettled(client.Settled(), events, i)
      invariant Explained(client.rpcInbox.calls, events, i)
    {
      ghost var calls, sent, settled := client.rpcInbox.calls, client.sent, client.Settled();
      OpenStep(events, i);
      if events[i].Send? {
        IdIsNew(client.sent, events, i);
      }
      Handle(client, events[i]);
      ExplainedStep(calls, client.rpcInbox.calls, events, i);
      SentStep(sent, client.sent, events, i);
      EndedStep(sent, settled, client.Settled(), events, i);
    }
    assert client.sent == client.rpcInbox.pending + client.Settled();
  }

  lemma EndedStep(sent: set<Id>, before: set<Id>, after: set<Id>, events: seq<Event>, n: nat)
    requires n < |events| && EndedAreSettled(before, events, n) && SentBy(sent, events, n) && before <= after
    requires forall id :: id in sent && Ends(events, n, id) ==> id in after
    ensures EndedAreSettled(after, events, n + 1)
  {
  }
}
