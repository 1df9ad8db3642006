/**
 One RPC command on the server (src/server/routing/rpc.router.ts): resolved, run, and then ended by
 whichever comes first of the handler's result, the handler's error and the deadline.

 What handlers, settlement calls and reply publishes do is given, in any way at all.
 */
module RpcRouter {
  import opened Options

  datatype Settlement = Ack | Term

  datatype ReplyKind = Value | Error

  datatype Entry =
    | ExtensionOn | ExtensionOff
    | Called(call: Settlement)                // it may throw; that is logged and swallowed
    | Reply(kind: ReplyKind, sent: bool)      // an attempt to publish; one that throws sends nothing

  type Log = seq<Entry>

  // ----- What a command can lead to -----

  datatype Ending = Answered | Failed | TimedOut

  function Started(extending: bool): Log {
    if extending then [ExtensionOn] else []
  }

  function Stopped(extending: bool): Log {
    if extending then [ExtensionOn, ExtensionOff] else []
  }

  /** Whether a value and an error can be published, and whether settlement calls throw. */
  datatype Circumstances = Circumstances(valueSent: bool, errorSent: bool, callsThrow: bool)

  /** What is called and published at the end. */
  function EndLog(ending: Ending, given: Circumstances): Log {
    match ending
    case Answered =>
      if given.valueSent then [Called(Ack), Reply(Value, true)]
      else [Called(Ack), Reply(Value, false), Reply(Error, given.errorSent)]
    case Failed => [Reply(Error, given.errorSent), Called(Term)]
    case TimedOut => [Called(Term)]
  }

  /** The log of a command that ended this way. */
  predicate EndedBy(log: Log, extending: bool, ending: Ending, given: Circumstances) {
    log == Stopped(extending) + EndLog(ending, given)
  }

  function Calls(log: Log, call: Settlement): nat {
    multiset(log)[Called(call)]
  }

  function Published(log: Log): nat {
    multiset(log)[Reply(Value, true)] + multiset(log)[Reply(Error, true)]
  }

  lemma CountsOfEnd(ending: Ending, given: Circumstances)
    ensures var end := EndLog(ending, given);
            && Calls(end, Ack) == (if ending == Answered then 1 else 0)
            && Calls(end, Term) == (if ending == Answered then 0 else 1)
            && Published(end) <= 1 && (ending == TimedOut ==> Published(end) == 0)
  {
  }

  lemma CountJoined(extending: bool, end: Log, e: Entry)
    requires e.Called? || e.Reply?
    ensures multiset(Stopped(extending) + end)[e] == multiset(end)[e]
  {
  }

  /** Whatever ended it: exactly one settlement call, at most one reply, none after a timeout. */
  lemma OneCallOneReply(log: Log, extending: bool, ending: Ending, given: Circumstances)
    requires EndedBy(log, extending, ending, given)
    ensures Calls(log, Ack) == if ending == Answered then 1 else 0
    ensures Calls(log, Term) == if ending == Answered then 0 else 1
    ensures Published(log) <= 1 && (ending == TimedOut ==> Published(log) == 0)
  {
    var end := EndLog(ending, given);
    CountsOfEnd(ending, given);
    CountJoined(extending, end, Called(Ack));
    CountJoined(extending, end, Called(Term));
    CountJoined(extending, end, Reply(Value, true));
    CountJoined(extending, end, Reply(Error, true));
  }

  lemma PublishedOfEnd(ending: Ending, given: Circumstances)
    requires ending != TimedOut
    ensures Published(EndLog(ending, given)) ==
            if given.errorSent || (ending == Answered && given.valueSent) then 1 else 0
  {
  }

  /** A value, or else an error, is attempted for every answered command, and an error for every failed
      one: a caller waits in vain only if no publish can work. */
  lemma EveryEndIsTold(log: Log, extending: bool, ending: Ending, given: Circumstances)
    requires EndedBy(log, extending, ending, given) && ending != TimedOut
    ensures Published(log) == if given.errorSent || (ending == Answered && given.valueSent) then 1 else 0
    ensures ending == Answered && given.valueSent ==> Reply(Value, true) in log
  {
    var end := EndLog(ending, given);
    PublishedOfEnd(ending, given);
    CountJoined(extending, end, Reply(Value, true));
    CountJoined(extending, end, Reply(Error, true));
    assert ending == Answered && given.valueSent ==> log[|Stopped(extending)| + 1] == Reply(Value, true);
  }

  /** `first` was written before every `later`. */
  predicate Precedes(log: Log, first: Entry, later: Entry) {
    forall i :: 0 <= i < |log| && log[i] == later ==> first in log[..i]
  }

  /** A value is only sent after the ack, and the extension stops before anything is called. */
  lemma AckThenReply(log: Log, extending: bool, ending: Ending, given: Circumstances, sent: bool)
    requires EndedBy(log, extending, ending, given)
    ensures Precedes(log, Called(Ack), Reply(Value, sent))
  {
    var n := |Stopped(extending)|;
    forall i | 0 <= i < |log| && log[i] == Reply(Value, sent)
      ensures Called(Ack) in log[..i]
    {
      assert ending == Answered && i > n;
      assert log[..i][n] == Called(Ack);
    }
  }

  lemma ExtensionStopsFirst(log: Log, ending: Ending, given: Circumstances, e: Entry)
    requires EndedBy(log, true, ending, given)
    requires e.Called? || e.Reply?
    ensures Precedes(log, ExtensionOff, e) && ExtensionOff in log
  {
    assert log[1] == ExtensionOff;
    forall i | 0 <= i < |log| && log[i] == e
      ensures ExtensionOff in log[..i]
    {
      assert log[..i][1] == ExtensionOff;
    }
  }

  // ----- The command -----

  /** What the resolver makes of a message. */
  datatype Resolution = Resolved | NoHandler | MissingHeaders | Undecodable | ResolverThrew

  /** What calling the handler gives at once. */
  datatype Start = Returned | Threw | Pending

  /** What can happen to a command whose handler is still running. */
  datatype Event = HandlerResolves | HandlerRejects | DeadlineFires

  class Command {
    const extending: bool
    const given: Circumstances
    var log: Log
    var settled: bool
    var deadlineArmed: bool
    var handlerPending: bool

    /** A command nothing has ended yet is still extended, watched by its deadline, and running. */
    ghost predicate Valid()
      reads this
    {
      && settled == !deadlineArmed
      && (!settled ==> handlerPending && log == Started(extending))
    }

    constructor (extending: bool, given: Circumstances)
      ensures this.extending == extending && this.given == given
      ensures log == [] && !settled && !deadlineArmed && !handlerPending
    {
      this.extending, this.given := extending, given;
      log, settled, deadlineArmed, handlerPending := [], false, false, false;
    }

    method SettleQuietly(call: Settlement)
      modifies this`log
      ensures log == old(log) + [Called(call)]
    {
      log := log + [Called(call)];
    }

    method StopAckExtension()
      modifies this`log
      ensures log == old(log) + if extending then [ExtensionOff] else []
    {
      if extending {
        log := log + [ExtensionOff];
      }
    }

    method PublishErrorReply()
      modifies this`log
      ensures log == old(log) + [Reply(Error, given.errorSent)]
    {
      log := log + [Reply(Error, given.errorSent)];
    }

    /** A value that cannot be sent is replaced by an error, so the caller need not wait it out. */
    method PublishReply()
      modifies this`log
      ensures log == old(log) + if given.valueSent then [Reply(Value, true)]
                                else [Reply(Value, false), Reply(Error, given.errorSent)]
    {
      log := log + [Reply(Value, given.valueSent)];
      if !given.valueSent {
        PublishErrorReply();
      }
    }

    method ReportHandlerError()
      modifies this`log
      ensures log == old(log) + [Reply(Error, given.errorSent), Called(Term)]
    {
      PublishErrorReply();
      SettleQuietly(Term);
    }

    method Answer()
      requires log == Started(extending)
      modifies this`log
      ensures EndedBy(log, extending, Answered, given)
    {
      StopAckExtension();
      SettleQuietly(Ack);
      PublishReply();
    }

    method Fail()
      requires log == Started(extending)
      modifies this`log
      ensures EndedBy(log, extending, Failed, given)
    {
      StopAckExtension();
      ReportHandlerError();
    }

    /** A message that cannot be routed is terminated; a throwing term is tried once more. */
    method ResolveCommand(resolution: Resolution) returns (routed: bool)
      requires log == []
      modifies this`log
      ensures routed <==> resolution == Resolved
      ensures routed ==> log == []
      ensures !routed ==>
                log == if given.callsThrow && resolution != ResolverThrew then [Called(Term), Called(Term)]
                       else [Called(Term)]
    {
      routed := resolution == Resolved;
      if !routed {
        SettleQuietly(Term);
        if given.callsThrow && resolution != ResolverThrew {
          SettleQuietly(Term);
        }
      }
    }

    /** The pipeline up to the point where the handler has been called. */
    method HandleSafe(resolution: Resolution, start: Start)
      requires log == [] && !settled && !deadlineArmed && !handlerPending
      modifies this
      ensures deadlineArmed == handlerPending == (resolution == Resolved && start == Pending)
      ensures resolution == Resolved && start == Pending ==> Valid() && !settled
      ensures resolution == Resolved && start == Returned ==> EndedBy(log, extending, Answered, given)
      ensures resolution == Resolved && start == Threw ==> EndedBy(log, extending, Failed, given)
      ensures resolution != Resolved ==>
                log == if given.callsThrow && resolution != ResolverThrew then [Called(Term), Called(Term)]
                       else [Called(Term)]
    {
      var routed := ResolveCommand(resolution);
      if !routed {
        return;
      }
      if extending {
        log := log + [ExtensionOn];
      }
      match start
      case Threw => Fail();
      case Returned => Answer();
      case Pending => deadlineArmed, handlerPending := true, true;
    }

    /** The handler's promise resolves, once: only a command that is still open is answered. */
    method OnResolve()
      requires Valid() && handlerPending
      modifies this
      ensures Valid() && settled && !handlerPending
      ensures if old(settled) then log == old(log) else EndedBy(log, extending, Answered, given)
    {
      handlerPending := false;
      if settled {
        return;
      }
      settled, deadlineArmed := true, false;
      Answer();
    }

    method OnReject()
      requires Valid() && handlerPending
      modifies this
      ensures Valid() && settled && !handlerPending
      ensures if old(settled) then log == old(log) else EndedBy(log, extending, Failed, given)
    {
      handlerPending := false;
      if settled {
        return;
      }
      settled, deadlineArmed := true, false;
      Fail();
    }

    /** The deadline fires, unless it was cleared. It sends no reply. */
    method OnDeadline()
      requires Valid() && deadlineArmed
      modifies this
      ensures Valid() && settled && handlerPending == old(handlerPending)
      ensures EndedBy(log, extending, TimedOut, given)
    {
      deadlineArmed := false;
      if settled {
        return;
      }
      settled := true;
      StopAckExtension();
      SettleQuietly(Term);
    }
  }

  function EndingOf(e: Event): Ending {
    match e
    case HandlerResolves => Answered
    case HandlerRejects => Failed
    case DeadlineFires => TimedOut
  }

  /** How a routed command ends: at once, or by the first thing that happens to it. */
  function Decided(start: Start, events: seq<Event>): Option<Ending> {
    match start
    case Returned => Some(Answered)
    case Threw => Some(Failed)
    case Pending => if events == [] then None else Some(EndingOf(events[0]))
  }

  /** What the caller and the server see of a command that ended in its first event. */
  predicate Seen(log: Log, first: Event, given: Circumstances) {
    match first
    case HandlerResolves =>
      && Called(Ack) in log && Called(Term) !in log
      && Reply(Value, given.valueSent) in log && (!given.valueSent ==> Reply(Error, given.errorSent) in log)
    case HandlerRejects =>
      && Called(Term) in log && Called(Ack) !in log
      && Reply(Error, given.errorSent) in log && Reply(Value, true) !in log
    case DeadlineFires =>
      && Called(Term) in log && Called(Ack) !in log
      && forall e :: e in log ==> !e.Reply?
  }

  lemma EndingIsSeen(log: Log, extending: bool, first: Event, given: Circumstances)
    requires EndedBy(log, extending, EndingOf(first), given)
    ensures Seen(log, first, given)
  {
    var n := |Stopped(extending)|;
    var end := EndLog(EndingOf(first), given);
    assert log == Stopped(extending) + end;
    assert forall e :: e in log <==> e in Stopped(extending) || e in end;
    assert end[0] in end && (|end| > 1 ==> end[1] in end) && (|end| > 2 ==> end[2] in end);
  }

  /**
   Every order of result, error and deadline, in any number: the first one alone decides what is
   called and sent, and until then nothing is.
   */
  method Run(extending: bool, given: Circumstances, start: Start, events: seq<Event>) returns (log: Log)
    ensures var ending := Decided(start, events);
            if ending.Some? then EndedBy(log, extending, ending.value, given) else log == Started(extending)
    ensures start == Returned ==> Seen(log, HandlerResolves, given)
    ensures start == Threw ==> Seen(log, HandlerRejects, given)
    ensures start == Pending && events != [] ==> Seen(log, events[0], given)
    ensures extending ==> ExtensionOn in log && (ExtensionOff in log <==> start != Pending || events != [])
  {
    var command := new Command(extending, given);
    command.HandleSafe(Resolved, start);
    log := command.log;
    if start != Pending {
      EndingIsSeen(log, extending, if start == Returned then HandlerResolves else HandlerRejects, given);
      assert extending ==> log[0] == ExtensionOn && log[1] == ExtensionOff;
      return;
    }
    var i := 0;
    while i < |events|
      invariant 0 <= i <= |events| && command.Valid()
      invariant command.extending == extending && command.given == given && command.settled == (i > 0)
      invariant i > 0 ==> EndedBy(command.log, extending, EndingOf(events[0]), given)
      modifies command
    {
      HandleEvent(command, events[i]);
      i := i + 1;
    }
    log := command.log;
    if events != [] {
      EndingIsSeen(log, extending, events[0], given);
      assert extending ==> log[0] == ExtensionOn && log[1] == ExtensionOff;
    }
  }

  /** A cleared deadline does not fire, and a promise settles once. */
  method HandleEvent(command: Command, e: Event)
    requires command.Valid()
    modifies command
    ensures command.Valid() && command.settled
    ensures if old(command.settled) then command.log == old(command.log)
            else EndedBy(command.log, command.extending, EndingOf(e), command.given)
  {
    match e
    case HandlerResolves => if command.handlerPending { command.OnResolve(); }
    case HandlerRejects => if command.handlerPending { command.OnReject(); }
    case DeadlineFires => if command.deadlineArmed { command.OnDeadline(); }
  }
}
