/**
 Routing one delivery of a workqueue message: the pipeline (src/server/routing/event-pipeline.ts),
 its settlement (settlement.ts) and dead-letter capture (dead-letter-capture.ts), and the whole
 life of a message on the work queue.

 What handlers, publishes, callbacks and settlement calls do is given, in any way at all, and the
 process may die at any point. `log` is what happened, in order.
 */
module EventPipeline {
  import opened Options

  datatype Settlement = Ack | Nak | Term

  /** What a handler asked for through its context. */
  datatype RpcContext = RpcContext(shouldRetry: bool, shouldTerminate: bool)

  /** How the handler ends: it returns or throws, at once or later. */
  datatype HandlerEnd = Returned(ctx: RpcContext) | Threw

  datatype Entry =
    | ExtensionOn | ExtensionOff        // the ack-extension timer of the delivery
    | Handled(end: HandlerEnd)          // the handler ended
    | DlqAttempt(ok: bool)              // a publish to the DLQ stream
    | CallbackRun(ok: bool)             // a run of onDeadLetter
    | Settled(call: Settlement)         // a settlement call was made; it may throw or get lost

  type Log = seq<Entry>

  const DLQ_PUBLISH_ATTEMPTS := 3

  // ----- Reading a log -----

  /**
   What a log adds up to. `succeeded`: a handler returned and asked for nothing. `terminated`: one
   returned and had called terminate(). `unearned`: an ack was called before any handler run
   succeeded, or a term before a handler terminated or the message was captured. `cutShort`: the ack
   extension stopped before any settlement call.
   */
  datatype Tally = Tally(
    handlerRuns: nat, succeeded: bool, terminated: bool,
    dlqAttempts: nat, callbackRuns: nat, captured: bool,
    settlements: nat, last: Option<Settlement>, released: bool, unearned: bool,
    cutShort: bool)
  {
    predicate Sound() {
      !unearned && !cutShort
    }

    predicate Earns(call: Settlement) {
      match call
      case Ack => succeeded
      case Term => terminated || captured
      case Nak => true
    }

    /** The message was dealt with: handled, terminated by its handler, or captured elsewhere. */
    predicate DealtWith() {
      succeeded || terminated || captured
    }

    function Add(e: Entry): Tally {
      match e
      case ExtensionOn => this
      case ExtensionOff => this.(cutShort := cutShort || settlements == 0)
      case Handled(end) =>
        this.(handlerRuns := handlerRuns + 1,
        succeeded := succeeded || end == Returned(RpcContext(false, false)),
        terminated := terminated || (end.Returned? && end.ctx.shouldTerminate))
      case DlqAttempt(ok) => this.(dlqAttempts := dlqAttempts + 1, captured := captured || ok)
      case CallbackRun(ok) => this.(callbackRuns := callbackRuns + 1, captured := captured || ok)
      case Settled(call) =>
        this.(settlements := settlements + 1, last := Some(call),
        released := released || call != Nak, unearned := unearned || !Earns(call))
    }
  }

  const NOTHING := Tally(0, false, false, 0, 0, false, 0, None, false, false, false)

  function Count(log: Log): Tally {
    if log == [] then NOTHING else Count(log[..|log|-1]).Add(log[|log|-1])
  }

  lemma CountStep(log: Log, e: Entry)
    ensures Count(log + [e]) == Count(log).Add(e)
  {
    assert (log + [e])[..|log|] == log;
  }

  /** `t` is what `u` adds up to at some earlier point. */
  predicate Before(t: Tally, u: Tally) {
    && (u.Sound() ==> t.Sound()) && t.handlerRuns <= u.handlerRuns
    && t.dlqAttempts <= u.dlqAttempts && t.callbackRuns <= u.callbackRuns
  }

  lemma BeforeStep(t: Tally, u: Tally, e: Entry)
    requires Before(t, u)
    ensures Before(t, u.Add(e))
  {
  }

  /** A process that dies leaves a prefix, and a prefix of a sound log is sound. */
  lemma {:induction false} PrefixIsBefore(log: Log, cut: nat)
    requires cut <= |log|
    ensures Before(Count(log[..cut]), Count(log))
    decreases |log|
  {
    if cut < |log| {
      var init := log[..|log|-1];
      PrefixIsBefore(init, cut);
      assert init[..cut] == log[..cut];
      BeforeStep(Count(log[..cut]), Count(init), log[|log|-1]);
    } else {
      assert log[..cut] == log;
    }
  }

  /** `sum` is `t` and then `u`: what earned a call in `u` still earns it. */
  predicate Sum(t: Tally, u: Tally, sum: Tally) {
    && (t.Sound() && u.Sound() ==> sum.Sound())
    && sum.handlerRuns == t.handlerRuns + u.handlerRuns
    && sum.dlqAttempts == t.dlqAttempts + u.dlqAttempts
    && sum.callbackRuns == t.callbackRuns + u.callbackRuns
    && sum.settlements == t.settlements + u.settlements
    && sum.released == (t.released || u.released)
    && sum.succeeded == (t.succeeded || u.succeeded)
    && sum.terminated == (t.terminated || u.terminated)
    && sum.captured == (t.captured || u.captured)
  }

  lemma SumOfSettled(t: Tally, u: Tally, sum: Tally, call: Settlement)
    requires Sum(t, u, sum)
    ensures Sum(t, u.Add(Settled(call)), sum.Add(Settled(call)))
  {
    assert u.Earns(call) ==> sum.Earns(call);
  }

  lemma SumOfHandled(t: Tally, u: Tally, sum: Tally, end: HandlerEnd)
    requires Sum(t, u, sum)
    ensures Sum(t, u.Add(Handled(end)), sum.Add(Handled(end)))
  {
  }

  lemma SumOfPublish(t: Tally, u: Tally, sum: Tally, ok: bool)
    requires Sum(t, u, sum)
    ensures Sum(t, u.Add(DlqAttempt(ok)), sum.Add(DlqAttempt(ok)))
  {
  }

  lemma SumOfCallback(t: Tally, u: Tally, sum: Tally, ok: bool)
    requires Sum(t, u, sum)
    ensures Sum(t, u.Add(CallbackRun(ok)), sum.Add(CallbackRun(ok)))
  {
  }

  lemma SumStep(t: Tally, u: Tally, sum: Tally, e: Entry)
    requires Sum(t, u, sum)
    ensures Sum(t, u.Add(e), sum.Add(e))
  {
    match e
    case ExtensionOn =>
    case ExtensionOff =>
    case Handled(end) => SumOfHandled(t, u, sum, end);
    case DlqAttempt(ok) => SumOfPublish(t, u, sum, ok);
    case CallbackRun(ok) => SumOfCallback(t, u, sum, ok);
    case Settled(call) => SumOfSettled(t, u, sum, call);
  }

  /** `both` is made of the entries of `a` and of `b`, each in its own order. */
  predicate Interleaving(a: Log, b: Log, both: Log)
    decreases |both|
  {
    if both == [] then a == [] && b == []
    else
      var front, e := both[..|both|-1], both[|both|-1];
      || (a != [] && a[|a|-1] == e && Interleaving(a[..|a|-1], b, front))
      || (b != [] && b[|b|-1] == e && Interleaving(a, b[..|b|-1], front))
  }

  /** However two deliveries overlap, what earned a call of one still precedes it. */
  lemma {:induction false} InterleavingAddsUp(a: Log, b: Log, both: Log)
    requires Interleaving(a, b, both)
    ensures Sum(Count(a), Count(b), Count(both))
    decreases |both|
  {
    if both != [] {
      var front, e := both[..|both|-1], both[|both|-1];
      if a != [] && a[|a|-1] == e && Interleaving(a[..|a|-1], b, front) {
        InterleavingAddsUp(a[..|a|-1], b, front);
        SumStep(Count(b), Count(a[..|a|-1]), Count(front), e);
      } else {
        InterleavingAddsUp(a, b[..|b|-1], front);
        SumStep(Count(a), Count(b[..|b|-1]), Count(front), e);
      }
    }
  }

  /** No message is released from the queue before it was dealt with. */
  lemma {:induction false} ReleasedMeansDealtWith(log: Log)
    requires Count(log).Sound() && Count(log).released
    ensures Count(log).DealtWith()
  {
    if Count(log[..|log|-1]).released {
      ReleasedMeansDealtWith(log[..|log|-1]);
    }
  }

  lemma InSnoc(log: Log, e: Entry)
    requires log != []
    ensures e in log <==> e in log[..|log|-1] || e == log[|log|-1]
  {
    assert log == log[..|log|-1] + [log[|log|-1]];
  }

  // What the flags of a tally say of the log.

  lemma {:induction false} SucceededMeans(log: Log)
    ensures Count(log).succeeded <==> Handled(Returned(RpcContext(false, false))) in log
  {
    if log != [] {
      SucceededMeans(log[..|log|-1]);
      InSnoc(log, Handled(Returned(RpcContext(false, false))));
    }
  }

  lemma {:induction false} TerminatedMeans(log: Log)
    ensures Count(log).terminated <==>
            Handled(Returned(RpcContext(false, true))) in log || Handled(Returned(RpcContext(true, true))) in log
  {
    if log != [] {
      TerminatedMeans(log[..|log|-1]);
      InSnoc(log, Handled(Returned(RpcContext(false, true))));
      InSnoc(log, Handled(Returned(RpcContext(true, true))));
    }
  }

  lemma {:induction false} CapturedMeans(log: Log)
    ensures Count(log).captured <==> DlqAttempt(true) in log || CallbackRun(true) in log
  {
    if log != [] {
      CapturedMeans(log[..|log|-1]);
      InSnoc(log, DlqAttempt(true));
      InSnoc(log, CallbackRun(true));
    }
  }

  // ----- One delivery -----

  datatype HandlerStatus = Succeeded | Retried | Terminated | Failed

  /** What is reported of a handler that returned: an explicit terminate() wins over retry(). */
  function StatusForContext(ctx: RpcContext): (status: HandlerStatus)
    ensures status == Terminated <==> ctx.shouldTerminate
    ensures status == Succeeded <==> ctx == RpcContext(false, false)
    ensures status != Failed
  {
    if ctx.shouldTerminate then Terminated else if ctx.shouldRetry then Retried else Succeeded
  }

  /** `maxDeliver`: the limit known for the stream. `canPublish`: connection and name are there. */
  datatype CaptureConfig = CaptureConfig(
    maxDeliver: Option<int>, dlqEnabled: bool, canPublish: bool, hasCallback: bool)

  /** What the resolver makes of a message. `RegistryThrew`: the lookup itself failed. */
  datatype Resolution = Resolved | NoHandler | Undecodable | RegistryThrew

  /** Which of the attempts to publish to the DLQ would work. */
  type Publishes = s: seq<bool> | |s| == 3 witness [false, false, false]

  /** What a delivery meets: the handler's end, the publishes, the callback, and whether settlement
      calls throw and reach the server. */
  datatype Circumstances = Circumstances(
    end: HandlerEnd, publishes: Publishes, callbackWorks: bool, callsThrow: bool, callsArrive: bool)

  /** A capture that gets the message to a safe place. */
  predicate Saves(c: CaptureConfig, given: Circumstances) {
    || (c.dlqEnabled && c.canPublish && true in given.publishes)
    || (c.hasCallback && given.callbackWorks)
  }

  /** How often a capture publishes: until it works, three times at most. */
  predicate PublishedAsGiven(c: CaptureConfig, given: Circumstances, attempts: nat) {
    if !c.dlqEnabled || !c.canPublish then attempts == 0
    else
      && 1 <= attempts <= 3 && (forall i :: 0 <= i < attempts - 1 ==> !given.publishes[i])
      && (attempts < 3 ==> given.publishes[attempts - 1])
  }

  /** A capture ran, ended with a term if and only if the message is safe, and left nothing untried. */
  predicate CapturedAs(t: Tally, c: CaptureConfig, given: Circumstances, runs: nat) {
    && SettledBy(t, if Saves(c, given) then Term else Nak, runs) && t.captured == Saves(c, given)
    && PublishedAsGiven(c, given, t.dlqAttempts)
    && t.callbackRuns == if c.hasCallback then 1 else 0
  }

  /** One settlement call was made, it is `call`, and the handler ran `runs` times. */
  predicate SettledBy(t: Tally, call: Settlement, runs: nat) {
    && t.Sound() && t.settlements == 1 && t.last == Some(call) && t.released == (call != Nak)
    && t.handlerRuns == runs
  }

  /** Nothing settled yet in this delivery, and `captured` says if the message is safe elsewhere. */
  predicate Unsettled(t: Tally, captured: bool) {
    t.Sound() && t.settlements == 0 && !t.released && t.captured == captured
  }

  predicate Bounded(t: Tally) {
    t.dlqAttempts <= DLQ_PUBLISH_ATTEMPTS && t.callbackRuns <= 1
  }

  predicate NoCapture(t: Tally) {
    t.dlqAttempts == t.callbackRuns == 0 && !t.captured
  }

  /** The delivery is the last one that a positive limit allows. */
  predicate LastDelivery(capture: Option<CaptureConfig>, count: nat) {
    capture.Some? && match capture.value.maxDeliver case None => false case Some(limit) => 0 < limit <= count
  }

  /** What becomes of a message whose handler ended. */
  predicate SettledAs(t: Tally, end: HandlerEnd, capture: Option<CaptureConfig>, count: nat, given: Circumstances) {
    if end.Returned? && end.ctx.shouldTerminate then SettledBy(t, Term, 1) && NoCapture(t)
    else if end.Returned? && !end.ctx.shouldRetry then SettledBy(t, Ack, 1) && NoCapture(t)
    else if LastDelivery(capture, count) then CapturedAs(t, capture.value, given, 1)
    else SettledBy(t, Nak, 1) && NoCapture(t)
  }

  class Delivery {
    const deliveryCount: nat
    const capture: Option<CaptureConfig>
    const extending: bool
    const given: Circumstances
    var log: Log
    /** An ack or term reached the server. */
    var removed: bool
    /** What was reported of the handler. */
    var reported: Option<HandlerStatus>

    constructor (deliveryCount: nat, capture: Option<CaptureConfig>, extending: bool, given: Circumstances)
      ensures log == [] && !removed && reported == None
      ensures this.deliveryCount == deliveryCount && this.capture == capture
      ensures this.extending == extending && this.given == given
    {
      this.deliveryCount, this.capture, this.extending, this.given := deliveryCount, capture, extending, given;
      log, removed, reported := [], false, None;
    }

    /** The message is gone if and only if it was released and the calls arrive. */
    predicate Accurate()
      reads this
    {
      removed == (given.callsArrive && Count(log).released)
    }

    method Note(e: Entry)
      requires !e.Settled?
      modifies this`log
      ensures log == old(log) + [e] && Count(log) == old(Count(log)).Add(e)
    {
      CountStep(log, e);
      log := log + [e];
    }

    /** A settlement call: it may throw, and it may not reach the server. */
    method Settle(call: Settlement) returns (throws: bool)
      requires Accurate()
      modifies this`log, this`removed
      ensures log == old(log) + [Settled(call)] && Count(log) == old(Count(log)).Add(Settled(call))
      ensures Accurate() && throws == given.callsThrow
    {
      CountStep(log, Settled(call));
      log := log + [Settled(call)];
      if given.callsArrive && call != Nak {
        removed := true;
      }
      throws := given.callsThrow;
    }

    /** A settlement call that throws is logged and swallowed. */
    method SettleQuietly(call: Settlement)
      requires Accurate()
      modifies this`log, this`removed
      ensures log == old(log) + [Settled(call)] && Count(log) == old(Count(log)).Add(Settled(call))
      ensures Accurate()
    {
      var throws := Settle(call);
    }

    // ----- Dead-letter capture -----

    predicate IsFinalDelivery()
      ensures IsFinalDelivery() <==> LastDelivery(capture, deliveryCount)
    {
      && capture.Some? && capture.value.maxDeliver.Some?
      && capture.value.maxDeliver.value > 0 && deliveryCount >= capture.value.maxDeliver.value
    }

    /** Publish to the DLQ or hand to the callback; then term if and only if the message is safe. */
    method Capture()
      requires capture.Some? && Unsettled(Count(log), false) && NoCapture(Count(log)) && Accurate()
      modifies this`log, this`removed
      ensures old(log) <= log
      ensures CapturedAs(Count(log), capture.value, given, old(Count(log).handlerRuns)) && Accurate()
    {
      if !capture.value.dlqEnabled {
        FallbackToOnDeadLetterCallback();
      } else {
        PublishToDlq();
      }
    }

    method PublishToDlq()
      requires capture.Some? && Unsettled(Count(log), false) && NoCapture(Count(log)) && Accurate()
      requires capture.value.dlqEnabled
      modifies this`log, this`removed
      ensures old(log) <= log
      ensures CapturedAs(Count(log), capture.value, given, old(Count(log).handlerRuns)) && Accurate()
    {
      if !capture.value.canPublish {
        FallbackToOnDeadLetterCallback();
        return;
      }
      var published := PublishWithRetry();
      if published {
        NotifyDeadLetterCallback();
      } else {
        FallbackToOnDeadLetterCallback();
      }
    }

    /** Up to three attempts; past max_deliver they are the only second chance. */
    method PublishWithRetry() returns (ok: bool)
      requires Count(log).dlqAttempts == 0 && !Count(log).captured
      modifies this`log
      ensures old(log) <= log
      ensures Count(log) == old(Count(log)).(dlqAttempts := Count(log).dlqAttempts, captured := ok)
      ensures ok == (true in given.publishes)
      ensures PublishedAsGiven(CaptureConfig(None, true, true, false), given, Count(log).dlqAttempts)
    {
      var attempt := 1;
      while attempt <= DLQ_PUBLISH_ATTEMPTS
        invariant 1 <= attempt <= DLQ_PUBLISH_ATTEMPTS + 1
        invariant old(log) <= log && Count(log) == old(Count(log)).(dlqAttempts := attempt - 1)
        invariant forall i :: 0 <= i < attempt - 1 ==> !given.publishes[i]
      {
        ok := given.publishes[attempt - 1];
        Note(DlqAttempt(ok));
        if ok {
          return;
        }
        attempt := attempt + 1;
      }
      ok := false;
    }

    method RunCallback() returns (ok: bool)
      modifies this`log
      ensures log == old(log) + [CallbackRun(ok)] && Count(log) == old(Count(log)).Add(CallbackRun(ok))
      ensures ok == given.callbackWorks
    {
      ok := given.callbackWorks;
      Note(CallbackRun(ok));
    }

    /** End a capture: the message goes if and only if it is safe. */
    method SettleCapture(captured: bool)
      requires Unsettled(Count(log), captured) && Accurate()
      modifies this`log, this`removed
      ensures old(log) <= log
      ensures SettledBy(Count(log), if captured then Term else Nak, old(Count(log).handlerRuns)) && Accurate()
      ensures Count(log).captured == captured && Count(log).dlqAttempts == old(Count(log).dlqAttempts)
      ensures Count(log).callbackRuns == old(Count(log).callbackRuns)
    {
      if captured {
        SettleQuietly(Term);
      } else {
        SettleQuietly(Nak);
      }
    }

    /** After a successful publish the callback is only notified: its failure changes nothing. */
    method NotifyDeadLetterCallback()
      requires capture.Some? && Unsettled(Count(log), true) && Count(log).callbackRuns == 0 && Accurate()
      modifies this`log, this`removed
      ensures old(log) <= log
      ensures SettledBy(Count(log), Term, old(Count(log).handlerRuns)) && Count(log).captured && Accurate()
      ensures Count(log).dlqAttempts == old(Count(log).dlqAttempts)
      ensures Count(log).callbackRuns == if capture.value.hasCallback then 1 else 0
    {
      if capture.value.hasCallback {
        var ok := RunCallback();
      }
      SettleCapture(true);
    }

    /** Last resort: without a callback that works the message stays in the stream. */
    method FallbackToOnDeadLetterCallback()
      requires capture.Some? && Unsettled(Count(log), false) && Count(log).callbackRuns == 0 && Accurate()
      modifies this`log, this`removed
      ensures old(log) <= log
      ensures var works := capture.value.hasCallback && given.callbackWorks;
              && SettledBy(Count(log), if works then Term else Nak, old(Count(log).handlerRuns))
              && Count(log).captured == works && Accurate()
      ensures Count(log).dlqAttempts == old(Count(log).dlqAttempts)
      ensures Count(log).callbackRuns == if capture.value.hasCallback then 1 else 0
    {
      var captured := false;
      if capture.value.hasCallback {
        captured := RunCallback();
      }
      SettleCapture(captured);
    }

    // ----- Settlement -----

    /** A run that failed or asked for a retry: captured on the last delivery, else given back. */
    method SettleUndone()
      requires Unsettled(Count(log), false) && NoCapture(Count(log)) && Accurate()
      modifies this`log, this`removed
      ensures old(log) <= log
      ensures Accurate()
      ensures if LastDelivery(capture, deliveryCount)
              then CapturedAs(Count(log), capture.value, given, old(Count(log).handlerRuns))
              else SettledBy(Count(log), Nak, old(Count(log).handlerRuns)) && NoCapture(Count(log))
    {
      if IsFinalDelivery() {
        Capture();
      } else {
        SettleQuietly(Nak);
      }
    }

    /** settleSuccess and settleFailure. */
    method SettleEnd(end: HandlerEnd)
      requires Unsettled(Count(log), false) && NoCapture(Count(log)) && Accurate() && Count(log).handlerRuns == 1
      requires Count(log).succeeded == (end == Returned(RpcContext(false, false)))
      requires Count(log).terminated == (end.Returned? && end.ctx.shouldTerminate)
      modifies this`log, this`removed
      ensures old(log) <= log
      ensures SettledAs(Count(log), end, capture, deliveryCount, given) && Accurate()
    {
      if end.Returned? && end.ctx.shouldTerminate {
        SettleQuietly(Term);
      } else if end.Returned? && !end.ctx.shouldRetry {
        SettleQuietly(Ack);
      } else {
        SettleUndone();
      }
    }

    // ----- Routing -----

    /** A message with a handler: run it, settle once, and keep extending until settled. */
    method RunHandler()
      requires log == [] && !removed
      modifies this
      ensures SettledAs(Count(log), given.end, capture, deliveryCount, given) && Accurate()
      ensures Handled(given.end) in log
      ensures extending ==> ExtensionOn == log[0] && ExtensionOff == log[|log|-1]
      ensures reported == Some(if given.end.Threw? then Failed else StatusForContext(given.end.ctx))
    {
      if extending {
        Note(ExtensionOn);
      }
      Note(Handled(given.end));
      assert log[|log|-1] == Handled(given.end);
      SettleEnd(given.end);
      reported := Some(if given.end.Threw? then Failed else StatusForContext(given.end.ctx));
      if extending {
        Note(ExtensionOff);
      }
    }

    /** A term made outside `settleQuietly`: one that throws ends in the resolver's own catch. */
    method TermUnrouted()
      requires log == [] && !removed
      modifies this`log, this`removed
      ensures log == if given.callsThrow then [Settled(Term), Settled(Term)] else [Settled(Term)]
      ensures Count(log).released && Count(log).handlerRuns == 0 && NoCapture(Count(log)) && Accurate()
    {
      var throws := Settle(Term);
      if throws {
        throws := Settle(Term);
      }
    }

    /** The pipeline for one delivery. */
    method Route(resolution: Resolution)
      requires log == [] && !removed && reported == None
      modifies this
      ensures Accurate() && Bounded(Count(log))
      ensures resolution == Resolved ==>
                SettledAs(Count(log), given.end, capture, deliveryCount, given) && Handled(given.end) in log
      ensures resolution != Resolved ==> Count(log).handlerRuns == 0 && reported == None
      ensures resolution in {NoHandler, Undecodable} && capture.Some? ==>
                CapturedAs(Count(log), capture.value, given, 0)
      ensures resolution in {NoHandler, Undecodable} && capture.None? ==>
                log == if given.callsThrow then [Settled(Term), Settled(Term)] else [Settled(Term)]
      ensures resolution == RegistryThrew ==> log == [Settled(Term)]
    {
      match resolution
      case Resolved =>
        RunHandler();
      case RegistryThrew =>
        SettleQuietly(Term);
      case _ =>
        if capture.Some? {
          Capture();
        } else {
          TermUnrouted();
        }
    }
  }

  // ----- The life of a message -----

  /** One delivery as it goes; `death`: how many entries were written when the process died. */
  datatype Turn = Turn(resolution: Resolution, given: Circumstances, death: Option<nat>)

  /** What is left of a delivery whose process may die after any entry. */
  method Deliver(count: nat, capture: Option<CaptureConfig>, extending: bool, turn: Turn)
    returns (log: Log, removed: bool)
    ensures removed == (turn.given.callsArrive && Count(log).released)
    ensures capture.Some? && turn.resolution != RegistryThrew ==> Count(log).Sound()
    ensures Count(log).handlerRuns <= 1 && Bounded(Count(log))
    ensures (turn.resolution == Resolved && capture.Some? && capture.value.maxDeliver.Some?
             && count < capture.value.maxDeliver.value) ==>
              Count(log).dlqAttempts == Count(log).callbackRuns == 0
    ensures turn.death.None? && turn.resolution == Resolved ==>
              SettledAs(Count(log), turn.given.end, capture, count, turn.given)
  {
    var delivery := new Delivery(count, capture, extending, turn.given);
    delivery.Route(turn.resolution);
    log, removed := delivery.log, delivery.removed;
    if turn.death.Some? && turn.death.value < |log| {
      PrefixIsBefore(log, turn.death.value);
      log := log[..turn.death.value];
      removed := turn.given.callsArrive && Count(log).released;
    }
  }

  /** The limit the capture knows is the consumer's, and every delivery finds its handler. */
  predicate Consistent(limit: int, capture: Option<CaptureConfig>, script: seq<Turn>) {
    && limit > 0 && capture.Some? && capture.value.maxDeliver == Some(limit)
    && forall t :: t in script ==> t.resolution == Resolved
  }

  /** A message that finds its handler is captured by its last delivery only. */
  predicate CapturedOnlyLast(t: Tally, count: nat, limit: int) {
    Bounded(t) && (count < limit ==> t.dlqAttempts == t.callbackRuns == 0)
  }

  /** A delivery that does all that is asked of it, with calls that arrive. */
  predicate Completes(t: Turn) {
    && t.resolution == Resolved && t.death.None? && t.given.callsArrive
    && (t.given.end == Returned(RpcContext(false, false)) || (t.given.end.Returned? && t.given.end.ctx.shouldTerminate))
  }

  /** The entries of two deliveries happen in any order. */
  method Overlap(a: Log, b: Log) returns (both: Log)
    ensures Interleaving(a, b, both)
  {
    both := [];
    var i, j := 0, 0;
    while i < |a| || j < |b|
      invariant 0 <= i <= |a| && 0 <= j <= |b|
      invariant Interleaving(a[..i], b[..j], both)
      decreases |a| + |b| - i - j
    {
      var first := *;
      if j == |b| || (first && i < |a|) {
        assert a[..i+1][..i] == a[..i] && (both + [a[i]])[..|both|] == both;
        both, i := both + [a[i]], i + 1;
      } else {
        assert b[..j+1][..j] == b[..j] && (both + [b[j]])[..|both|] == both;
        both, j := both + [b[j]], j + 1;
      }
    }
    assert a[..|a|] == a && b[..|b|] == b;
  }

  predicate NoLookupThrows(script: seq<Turn>) {
    forall t :: t in script ==> t.resolution != RegistryThrew
  }

  /** How many deliveries a message gets that is never released. */
  function Deliveries(limit: int, script: seq<Turn>): nat {
    if 0 < limit < |script| then limit else |script|
  }

  /** The message was dealt with, in terms of what happened. */
  ghost predicate DealtWith(run: Log) {
    || Handled(Returned(RpcContext(false, false))) in run
    || Handled(Returned(RpcContext(false, true))) in run || Handled(Returned(RpcContext(true, true))) in run
    || DlqAttempt(true) in run || CallbackRun(true) in run
  }

  /**
   The work queue delivers a stored message at most `limit` times (for a positive limit), whatever
   each delivery meets. Deliveries may overlap, as after an ack_wait that lapsed, and one that began
   before another took the message off the queue still runs. With capture configured and a registry
   that does not throw, the message leaves the queue only once it was dealt with; and it does leave
   when a delivery completes.
   */
  method Serve(limit: int, capture: Option<CaptureConfig>, extending: bool, script: seq<Turn>)
    returns (stored: bool, run: Log)
    ensures capture.Some? && NoLookupThrows(script) ==>
              Count(run).Sound() && (stored || DealtWith(run))
    ensures Count(run).handlerRuns <= |script| && (limit > 0 ==> Count(run).handlerRuns <= limit)
    ensures Consistent(limit, capture, script) ==> Bounded(Count(run))
    ensures forall i :: 0 <= i < |script| && (limit > 0 ==> i < limit) && Completes(script[i]) ==> !stored
  {
    stored, run := true, [];
    for count := 0 to Deliveries(limit, script)
      invariant Count(run).handlerRuns <= count
      invariant !stored ==> Count(run).released
      invariant capture.Some? && NoLookupThrows(script) ==> Count(run).Sound()
      invariant Consistent(limit, capture, script) ==> CapturedOnlyLast(Count(run), count, limit)
      invariant forall i :: 0 <= i < count && Completes(script[i]) ==> !stored
    {
      assert script[count] in script;
      var log, removed := Deliver(count + 1, capture, extending, script[count]);
      var both := Overlap(run, log);
      InterleavingAddsUp(run, log, both);
      run := both;
      stored := stored && !removed;
    }
    if capture.Some? && NoLookupThrows(script) && !stored {
      ReleasedMeansDealtWith(run);
      SucceededMeans(run);
      TerminatedMeans(run);
      CapturedMeans(run);
    }
  }
}
