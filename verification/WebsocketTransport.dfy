/**
 The calls of the websocket transport: deferreds and an output stream, settled by events that arrive in any
 order. The payloads of events are numbered, so that it can be told whose outcome a deferred has.
 */
module WebsocketTransport {
  import opened Options

  datatype Deferred = Pending | Resolved(value: nat) | Rejected(error: nat)

  /** `resolvePending` and `rejectPending`: a settled deferred stays as it is. */
  function Settle(d: Deferred, outcome: Deferred): Deferred { if d.Pending? then outcome else d }

  datatype Event =
    | Headers(ok: bool, payload: nat)
    | Message(payload: nat)
    | End(ok: bool, payload: nat)
    | Abort(payload: nat)

  /** What a single event has to say about each deferred; `Pending` if nothing. */
  function HeaderOutcome(e: Event): Deferred {
    match e
    case Headers(ok, p) => if ok then Resolved(p) else Rejected(p)
    case Message(_) => Pending
    case End(ok, p) => if ok then Pending else Rejected(p)
    case Abort(p) => Rejected(p)
  }

  function MessageOutcome(e: Event): Deferred {
    match e
    case Headers(_, _) => Pending
    case Message(p) => Resolved(p)
    case End(ok, p) => if ok then Pending else Rejected(p)
    case Abort(p) => Rejected(p)
  }

  function EndOutcome(e: Event): Deferred {
    match e
    case Headers(_, _) => Pending
    case Message(_) => Pending
    case End(ok, p) => if ok then Resolved(p) else Rejected(p)
    case Abort(p) => Rejected(p)
  }

  /** The first outcome among the events. */
  function First(es: seq<Event>, outcome: Event -> Deferred): Deferred {
    if es == [] then Pending
    else if outcome(es[0]).Pending? then First(es[1..], outcome)
    else outcome(es[0])
  }

  lemma {:induction false} FirstAppend(es: seq<Event>, e: Event, outcome: Event -> Deferred)
    ensures First(es + [e], outcome) == Settle(First(es, outcome), outcome(e))
    decreases |es|
  {
    if es != [] {
      assert (es + [e])[1..] == es[1..] + [e];
      FirstAppend(es[1..], e, outcome);
    }
  }

  // ---- Client streaming ----

  class ClientStreamingCall {
    var defHeader: Deferred
    var defMessage: Deferred
    var defStatus: Deferred
    var defTrailer: Deferred
    ghost var events: seq<Event>

    /** Every deferred has the first outcome that any event so far had for it. */
    ghost predicate Valid()
      reads this
    {
      && defHeader == First(events, HeaderOutcome)
      && defMessage == First(events, MessageOutcome)
      && defStatus == First(events, EndOutcome)
      && defTrailer == First(events, EndOutcome)
    }

    constructor ()
      ensures Valid() && events == []
    {
      defHeader, defMessage, defStatus, defTrailer := Pending, Pending, Pending, Pending;
      events := [];
    }

    ghost method Record(e: Event)
      modifies this`events
      ensures events == old(events) + [e]
      ensures First(events, HeaderOutcome) == Settle(First(old(events), HeaderOutcome), HeaderOutcome(e))
      ensures First(events, MessageOutcome) == Settle(First(old(events), MessageOutcome), MessageOutcome(e))
      ensures First(events, EndOutcome) == Settle(First(old(events), EndOutcome), EndOutcome(e))
    {
      FirstAppend(events, e, HeaderOutcome);
      FirstAppend(events, e, MessageOutcome);
      FirstAppend(events, e, EndOutcome);
      events := events + [e];
    }

    method EmitError(error: nat)
      modifies this`defHeader, this`defMessage, this`defStatus, this`defTrailer
      ensures defHeader == Settle(old(defHeader), Rejected(error))
      ensures defMessage == Settle(old(defMessage), Rejected(error))
      ensures defStatus == Settle(old(defStatus), Rejected(error))
      ensures defTrailer == Settle(old(defTrailer), Rejected(error))
    {
      defHeader := Settle(defHeader, Rejected(error));
      defMessage := Settle(defMessage, Rejected(error));
      defStatus := Settle(defStatus, Rejected(error));
      defTrailer := Settle(defTrailer, Rejected(error));
    }

    method OnHeaders(ok: bool, payload: nat)
      requires Valid()
      modifies this
      ensures Valid() && events == old(events) + [Headers(ok, payload)]
      ensures defHeader == Settle(old(defHeader), if ok then Resolved(payload) else Rejected(payload))
      ensures defMessage == old(defMessage) && defStatus == old(defStatus) && defTrailer == old(defTrailer)
    {
      Record(Headers(ok, payload));
      if !ok {
        defHeader := Settle(defHeader, Rejected(payload));
        return;
      }
      defHeader := Settle(defHeader, Resolved(payload));
    }

    method OnMessage(payload: nat)
      requires Valid()
      modifies this
      ensures Valid() && events == old(events) + [Message(payload)]
      ensures defMessage == Settle(old(defMessage), Resolved(payload))
      ensures defHeader == old(defHeader) && defStatus == old(defStatus) && defTrailer == old(defTrailer)
    {
      Record(Message(payload));
      defMessage := Settle(defMessage, Resolved(payload));
    }

    method OnEnd(ok: bool, payload: nat)
      requires Valid()
      modifies this
      ensures Valid() && events == old(events) + [End(ok, payload)]
      ensures defHeader == if ok then old(defHeader) else Settle(old(defHeader), Rejected(payload))
      ensures defMessage == if ok then old(defMessage) else Settle(old(defMessage), Rejected(payload))
      ensures defStatus == Settle(old(defStatus), if ok then Resolved(payload) else Rejected(payload))
      ensures defTrailer == Settle(old(defTrailer), if ok then Resolved(payload) else Rejected(payload))
    {
      Record(End(ok, payload));
      if !ok {
        EmitError(payload);
        return;
      }
      defStatus := Settle(defStatus, Resolved(payload));
      defTrailer := Settle(defTrailer, Resolved(payload));
    }

    method OnAbort(payload: nat)
      requires Valid()
      modifies this
      ensures Valid() && events == old(events) + [Abort(payload)]
      ensures defHeader == Settle(old(defHeader), Rejected(payload))
      ensures defMessage == Settle(old(defMessage), Rejected(payload))
      ensures defStatus == Settle(old(defStatus), Rejected(payload))
      ensures defTrailer == Settle(old(defTrailer), Rejected(payload))
    {
      Record(Abort(payload));
      EmitError(payload);
    }
  }

  predicate Fails(e: Event) { e.Abort? || (e.End? && !e.ok) }

  /** An outcome once there stays, whatever comes after it. */
  lemma {:induction false} FirstWins(es: seq<Event>, later: seq<Event>, outcome: Event -> Deferred)
    ensures !First(es, outcome).Pending? ==> First(es + later, outcome) == First(es, outcome)
    decreases |es|
  {
    if es != [] {
      assert (es + later)[1..] == es[1..] + later;
      FirstWins(es[1..], later, outcome);
    }
  }

  lemma {:induction false} FirstPendingIff(es: seq<Event>, outcome: Event -> Deferred)
    ensures First(es, outcome).Pending? <==> forall e | e in es :: outcome(e).Pending?
    decreases |es|
  {
    if es != [] {
      FirstPendingIff(es[1..], outcome);
      assert es == [es[0]] + es[1..];
    }
  }

  /**
   When a call is left hanging: a deferred of a call that is `Valid` after the events `es` is pending exactly if
   none of them was of its kind and none failed the call. So nothing is pending after a failure, while an end with
   an OK status leaves the header and the message of a call that got none pending for good.
   */
  lemma {:induction false} PendingIff(es: seq<Event>)
    ensures First(es, HeaderOutcome).Pending? <==> forall e | e in es :: !e.Headers? && !Fails(e)
    ensures First(es, MessageOutcome).Pending? <==> forall e | e in es :: !e.Message? && !Fails(e)
    ensures First(es, EndOutcome).Pending? <==> forall e | e in es :: !e.End? && !e.Abort?
  {
    FirstPendingIff(es, HeaderOutcome);
    FirstPendingIff(es, MessageOutcome);
    FirstPendingIff(es, EndOutcome);
  }

  /** So a call that ends well, without headers and message, leaves both pending. */
  lemma GoodEndLeavesPending(payload: nat)
    ensures var es := [End(true, payload)];
      && First(es, HeaderOutcome).Pending? && First(es, MessageOutcome).Pending?
      && First(es, EndOutcome) == Resolved(payload)
  {
    PendingIff([End(true, payload)]);
  }

  // ---- Duplex ----

  datatype Notification = Next(payload: nat) | Complete | Error(error: nat)

  /** What the output stream is told: the messages up to the first end or abort, and then which it was. */
  function Notifications(es: seq<Event>): seq<Notification> {
    if es == [] then []
    else match es[0]
      case Headers(_, _) => Notifications(es[1..])
      case Message(p) => [Next(p)] + Notifications(es[1..])
      case End(ok, p) => [if ok then Complete else Error(p)]
      case Abort(p) => [Error(p)]
  }

  predicate Over(es: seq<Event>) { exists i | 0 <= i < |es| :: es[i].End? || es[i].Abort? }

  function Told(ns: seq<Notification>, over: bool, e: Event): seq<Notification> {
    if over then ns
    else match e
      case Headers(_, _) => ns
      case Message(p) => ns + [Next(p)]
      case End(ok, p) => ns + [if ok then Complete else Error(p)]
      case Abort(p) => ns + [Error(p)]
  }

  lemma {:induction false} NotificationsAppend(es: seq<Event>, e: Event)
    ensures Notifications(es + [e]) == Told(Notifications(es), Over(es), e)
    ensures Over(es + [e]) <==> Over(es) || e.End? || e.Abort?
    decreases |es|
  {
    var all := es + [e];
    assert all[|es|] == e;
    assert forall i | 0 <= i < |es| :: all[i] == es[i];
    if es != [] {
      assert all[1..] == es[1..] + [e];
      NotificationsAppend(es[1..], e);
      OverTail(es);
    }
  }

  lemma OverTail(es: seq<Event>)
    requires es != []
    ensures Over(es) <==> es[0].End? || es[0].Abort? || Over(es[1..])
  {
    if Over(es) && !es[0].End? && !es[0].Abort? {
      var i :| 0 <= i < |es| && (es[i].End? || es[i].Abort?);
      assert es[1..][i - 1] == es[i];
    }
    if Over(es[1..]) {
      var i :| 0 <= i < |es[1..]| && (es[1..][i].End? || es[1..][i].Abort?);
      assert es[i + 1] == es[1..][i];
    }
  }

  /** Exactly one terminal notification once the call ended or was aborted, as the last one; before that, none. */
  lemma {:induction false} OneTerminal(es: seq<Event>)
    ensures var ns := Notifications(es);
      && (Over(es) ==> ns != [] && !ns[|ns| - 1].Next? && forall i | 0 <= i < |ns| - 1 :: ns[i].Next?)
      && (!Over(es) ==> forall i | 0 <= i < |ns| :: ns[i].Next?)
    decreases |es|
  {
    if es != [] {
      OneTerminal(es[1..]);
      OverTail(es);
    }
  }

  class DuplexCall {
    var defHeader: Deferred
    var defStatus: Deferred
    var defTrailer: Deferred
    var closed: bool
    var notified: seq<Notification>
    var finishedSends: nat
    ghost var events: seq<Event>

    ghost predicate Valid()
      reads this
    {
      && defHeader == First(events, HeaderOutcome)
      && defStatus == First(events, EndOutcome)
      && defTrailer == First(events, EndOutcome)
      && notified == Notifications(events)
      && closed == Over(events)
    }

    constructor ()
      ensures Valid() && events == [] && finishedSends == 0
    {
      defHeader, defStatus, defTrailer := Pending, Pending, Pending;
      closed, notified, finishedSends, events := false, [], 0, [];
    }

    ghost method Record(e: Event)
      modifies this`events
      ensures events == old(events) + [e]
      ensures First(events, HeaderOutcome) == Settle(First(old(events), HeaderOutcome), HeaderOutcome(e))
      ensures First(events, EndOutcome) == Settle(First(old(events), EndOutcome), EndOutcome(e))
      ensures Notifications(events) == Told(Notifications(old(events)), Over(old(events)), e)
      ensures Over(events) <==> Over(old(events)) || e.End? || e.Abort?
    {
      FirstAppend(events, e, HeaderOutcome);
      FirstAppend(events, e, EndOutcome);
      NotificationsAppend(events, e);
      events := events + [e];
    }

    method EmitError(error: nat)
      modifies this`defHeader, this`defStatus, this`defTrailer, this`closed, this`notified
      ensures defHeader == Settle(old(defHeader), Rejected(error))
      ensures defStatus == Settle(old(defStatus), Rejected(error))
      ensures defTrailer == Settle(old(defTrailer), Rejected(error))
      ensures closed && notified == if old(closed) then old(notified) else old(notified) + [Error(error)]
    {
      defHeader := Settle(defHeader, Rejected(error));
      defStatus := Settle(defStatus, Rejected(error));
      defTrailer := Settle(defTrailer, Rejected(error));
      if !closed {
        closed, notified := true, notified + [Error(error)];
      }
    }

    method OnHeaders(ok: bool, payload: nat)
      requires Valid()
      modifies this
      ensures Valid() && events == old(events) + [Headers(ok, payload)] && finishedSends == old(finishedSends)
      ensures defHeader == Settle(old(defHeader), if ok then Resolved(payload) else Rejected(payload))
      ensures defStatus == old(defStatus) && defTrailer == old(defTrailer) && notified == old(notified)
    {
      Record(Headers(ok, payload));
      if !ok {
        defHeader := Settle(defHeader, Rejected(payload));
        return;
      }
      defHeader := Settle(defHeader, Resolved(payload));
    }

    /** A closed stream refuses further messages; `accepted` is false where its controller throws. */
    method OnMessage(payload: nat) returns (accepted: bool)
      requires Valid()
      modifies this
      ensures Valid() && events == old(events) + [Message(payload)] && finishedSends == old(finishedSends)
      ensures accepted == !old(closed)
      ensures notified == if old(closed) then old(notified) else old(notified) + [Next(payload)]
      ensures closed == old(closed) && defHeader == old(defHeader)
      ensures defStatus == old(defStatus) && defTrailer == old(defTrailer)
    {
      Record(Message(payload));
      accepted := !closed;
      if accepted {
        notified := notified + [Next(payload)];
      }
    }

    method OnEnd(ok: bool, payload: nat)
      requires Valid()
      modifies this
      ensures Valid() && events == old(events) + [End(ok, payload)] && finishedSends == old(finishedSends)
      ensures defHeader == if ok then old(defHeader) else Settle(old(defHeader), Rejected(payload))
      ensures defStatus == Settle(old(defStatus), if ok then Resolved(payload) else Rejected(payload))
      ensures defTrailer == Settle(old(defTrailer), if ok then Resolved(payload) else Rejected(payload))
      ensures closed
      ensures notified ==
        if old(closed) then old(notified) else old(notified) + [if ok then Complete else Error(payload)]
    {
      Record(End(ok, payload));
      if !ok {
        EmitError(payload);
        return;
      }
      defStatus := Settle(defStatus, Resolved(payload));
      defTrailer := Settle(defTrailer, Resolved(payload));
      if !closed {
        closed, notified := true, notified + [Complete];
      }
    }

    method OnAbort(payload: nat)
      requires Valid()
      modifies this
      ensures Valid() && events == old(events) + [Abort(payload)] && finishedSends == old(finishedSends)
      ensures defHeader == Settle(old(defHeader), Rejected(payload))
      ensures defStatus == Settle(old(defStatus), Rejected(payload))
      ensures defTrailer == Settle(old(defTrailer), Rejected(payload))
      ensures closed && notified == if old(closed) then old(notified) else old(notified) + [Error(payload)]
    {
      Record(Abort(payload));
      EmitError(payload);
    }

    /** `complete()` of the input stream does nothing once the call is over. */
    method CompleteInput()
      requires Valid()
      modifies this`finishedSends
      ensures Valid() && finishedSends == old(finishedSends) + if Over(events) then 0 else 1
    {
      PendingIff(events);
      assert forall i | 0 <= i < |events| :: events[i] in events;
      if defStatus.Pending? {
        finishedSends := finishedSends + 1;
      }
    }
  }

  // ---- Unary ----

  /** The promise of a unary call settles with the output or the abort, whichever is first. */
  datatype Settlement = Output(ok: bool, message: Option<nat>, payload: nat) | Aborted(error: nat, primitive: bool)

  class UnaryCall {
    var defHeader: Deferred
    var defMessage: Deferred
    var defStatus: Deferred
    var defTrailer: Deferred

    constructor ()
      ensures defHeader == defMessage == defStatus == defTrailer == Pending
    {
      defHeader, defMessage, defStatus, defTrailer := Pending, Pending, Pending, Pending;
    }

    /**
     The `then` and `catch` of the request: a failed output still resolves all but the message. An abort whose reason
     is a primitive value leaves everything pending: it takes no property, so that the handler itself throws before
     it has rejected anything.
     */
    method OnSettled(s: Settlement)
      requires defHeader == defMessage == defStatus == defTrailer == Pending
      modifies this
      ensures defHeader.Pending? <==> s.Aborted? && s.primitive
      ensures defStatus.Pending? <==> s.Aborted? && s.primitive
      ensures defTrailer.Pending? <==> s.Aborted? && s.primitive
      ensures defMessage.Pending? <==> (s.Aborted? && s.primitive) || (s.Output? && s.ok && s.message == None)
      ensures s.Output? ==> defHeader == defTrailer == defStatus == Resolved(s.payload)
      ensures s.Output? && !s.ok ==> defMessage == Rejected(s.payload)
      ensures s.Output? && s.ok && s.message.Some? ==> defMessage == Resolved(s.message.value)
      ensures s.Aborted? && !s.primitive ==> defHeader == defMessage == defStatus == defTrailer == Rejected(s.error)
    {
      var thrown := None;
      match s {
        case Output(ok, message, payload) =>
          defHeader := Settle(defHeader, Resolved(payload));
          defTrailer := Settle(defTrailer, Resolved(payload));
          defStatus := Settle(defStatus, Resolved(payload));
          if !ok {
            thrown := Some(payload);
          } else if message.Some? {
            defMessage := Settle(defMessage, Resolved(message.value));
          }
        case Aborted(error, primitive) =>
          if primitive {
            return;
          }
          thrown := Some(error);
      }
      if thrown.Some? {
        defHeader := Settle(defHeader, Rejected(thrown.value));
        defMessage := Settle(defMessage, Rejected(thrown.value));
        defStatus := Settle(defStatus, Rejected(thrown.value));
        defTrailer := Settle(defTrailer, Rejected(thrown.value));
      }
    }
  }
}
