/** The client's real-time service (src/services/signalr.service.ts): one hub connection, the
    presentation it has joined, the subscriber table, and the connection state machine.
    Awaited outcomes of the hub library (whether `start`, an `invoke` or `LeavePresentation`
    succeeds) are parameters; the library's connection callbacks are methods the hub calls. */
module SignalR {
  import opened Wrappers
  import opened Seqs
  import opened Hub
  import opened Registry
  import opened Intents

  /** The service's own view of the connection. */
  datatype ConnectionState = Disconnected | Connecting | Connected | Error

  /** The hub library's state of the connection object. */
  datatype HubState = HubDisconnected | HubConnecting | HubConnected | HubDisconnecting | HubReconnecting

  /** The memoised connect promise: none, still pending, or resolved. A rejected one is
      cleared at once, so it never stays. */
  datatype PendingConnect = NoPromise | InFlight | Settled

  datatype ServiceError =
    | ConnectionFailed     // the awaited connect rejected
    | NotEstablished       // join: still not connected after connecting
    | NotInPresentation    // addSlide before a join
    | NoHub                // invoke with no connection object
    | HubNotConnected      // the hub library refuses to send on a connection that is not open
    | InvocationFailed     // the hub rejected the invocation

  /** What a service call returned, and the invocation that left the client, if one did. */
  datatype CallResult = CallResult(outcome: Outcome<ServiceError>, sent: Option<HubInvocation>)

  /** `if (this.presentationId)`: JavaScript truthiness, so id 0 counts as "not joined". */
  predicate InPresentation(pid: Option<int>)
  {
    pid.Some? && pid.value != 0
  }

  class SignalRService {
    var hubConnection: Option<HubState>
    var presentationId: Option<int>
    var eventHandlers: HandlerTable
    var connectionState: ConnectionState
    var connectionPromise: PendingConnect
    /** The hub-message forwarders of `registerClientMethods` are installed on the current hub. */
    var forwarding: bool

    /** A memoised promise belongs to an existing connection object, and forwarders are only
        installed on one. */
    predicate Valid()
      reads this
    {
      (connectionPromise != NoPromise ==> hubConnection.Some?) &&
      (forwarding ==> hubConnection.Some?)
    }

    constructor()
      ensures Valid()
      ensures hubConnection == None && presentationId == None && eventHandlers == map[]
      ensures connectionState == Disconnected && connectionPromise == NoPromise && !forwarding
    {
      hubConnection := None;
      presentationId := None;
      eventHandlers := map[];
      connectionState := Disconnected;
      connectionPromise := NoPromise;
      forwarding := false;
    }

    /** `isConnected`: both the service and the hub library say the connection is open. */
    function IsConnected(): (b: bool)
      reads this
      ensures b ==> hubConnection == Some(HubConnected) && connectionState == Connected
      ensures hubConnection == Some(HubConnected) && connectionState == Connected ==> b
    {
      connectionState == Connected && hubConnection == Some(HubConnected)
    }

    /** `connect`, up to the awaited `start`: single-flight (a memoised promise is returned
        untouched), a no-op when already connected, otherwise a new connection object is
        built and starts connecting. */
    method Connect() returns (started: bool)
      requires Valid()
      modifies this`connectionState, this`hubConnection, this`connectionPromise, this`forwarding
      ensures Valid()
      ensures started <==> old(connectionPromise) == NoPromise && !old(IsConnected())
      ensures !started ==> unchanged(this)
      ensures started ==> connectionState == Connecting && hubConnection == Some(HubConnecting)
      ensures started ==> connectionPromise == InFlight && !forwarding
    {
      if connectionPromise != NoPromise {
        return false;
      }
      if IsConnected() {
        return false;
      }
      connectionState := Connecting;
      hubConnection := Some(HubConnecting);
      forwarding := false;
      connectionPromise := InFlight;
      started := true;
    }

    /** The awaited `start` settles. On success the forwarders are installed and the state
        becomes connected, the promise staying memoised; on failure the state becomes an
        error and the promise is cleared, the failed connection object staying in place. */
    method OnStartOutcome(ok: bool)
      requires Valid()
      modifies this`connectionState, this`hubConnection, this`connectionPromise, this`forwarding
      ensures Valid()
      ensures ok ==> connectionState == Connected && forwarding == old(hubConnection).Some?
      ensures ok ==> hubConnection == (if old(hubConnection).Some? then Some(HubConnected) else None)
      ensures ok ==> connectionPromise == (if old(connectionPromise) == InFlight then Settled else old(connectionPromise))
      ensures !ok ==> connectionState == Error && connectionPromise == NoPromise && forwarding == old(forwarding)
      ensures !ok ==> hubConnection == (if old(hubConnection).Some? then Some(HubDisconnected) else None)
    {
      if ok {
        if hubConnection.Some? {
          hubConnection := Some(HubConnected);
          forwarding := true;
        }
        connectionState := Connected;
        if connectionPromise == InFlight {
          connectionPromise := Settled;
        }
      } else {
        if hubConnection.Some? {
          hubConnection := Some(HubDisconnected);
        }
        connectionState := Error;
        connectionPromise := NoPromise;
      }
    }

    /** The library lost the connection and retries it. */
    method OnReconnecting()
      requires Valid()
      modifies this`connectionState, this`hubConnection
      ensures Valid()
      ensures connectionState == Connecting && !IsConnected()
      ensures hubConnection == (if old(hubConnection).Some? then Some(HubReconnecting) else None)
    {
      connectionState := Connecting;
      if hubConnection.Some? {
        hubConnection := Some(HubReconnecting);
      }
    }

    /** The library got the connection back. When a presentation had been joined, exactly one
        re-join is requested, as a non-creator, under the stored nickname or "User". */
    method OnReconnected(st: Storage) returns (rejoin: Option<HubInvocation>)
      requires Valid()
      modifies this`connectionState, this`hubConnection
      ensures Valid()
      ensures connectionState == Connected
      ensures hubConnection == (if old(hubConnection).Some? then Some(HubConnected) else None)
      ensures rejoin.Some? <==> InPresentation(presentationId)
      ensures rejoin.Some? ==> rejoin.value.JoinPresentation? && rejoin.value.presentationId == presentationId.value
      ensures rejoin.Some? ==> !rejoin.value.isCreator && rejoin.value.nickname != ""
      ensures rejoin.Some? ==> rejoin.value.nickname == OrElse(Lookup(st, NicknameKey), "User")
    {
      connectionState := Connected;
      if hubConnection.Some? {
        hubConnection := Some(HubConnected);
      }
      if InPresentation(presentationId) {
        rejoin := Some(HubInvocation.JoinPresentation(presentationId.value, OrElse(Lookup(st, NicknameKey), "User"), false));
      } else {
        rejoin := None;
      }
    }

    /** The connection closed for good: the next connect builds a new connection object. */
    method OnClose()
      requires Valid()
      modifies this`connectionState, this`hubConnection, this`connectionPromise
      ensures Valid()
      ensures connectionState == Disconnected && connectionPromise == NoPromise && !IsConnected()
      ensures hubConnection == (if old(hubConnection).Some? then Some(HubDisconnected) else None)
    {
      connectionState := Disconnected;
      connectionPromise := NoPromise;
      if hubConnection.Some? {
        hubConnection := Some(HubDisconnected);
      }
    }

    /** `ensureConnected`: connect unless connected, and wait for the promise. A memoised
        resolved promise counts as success even when the connection is reconnecting; a pending
        one (new or inherited) settles with `startOk`. */
    method EnsureConnected(startOk: bool) returns (ok: bool)
      requires Valid()
      modifies this`connectionState, this`hubConnection, this`connectionPromise, this`forwarding
      ensures Valid()
      ensures old(IsConnected()) || old(connectionPromise) == Settled ==> ok && unchanged(this)
      ensures !old(IsConnected()) && old(connectionPromise) != Settled ==> ok == startOk
      ensures ok && !old(IsConnected()) && old(connectionPromise) != Settled ==>
                IsConnected() && connectionPromise == Settled && forwarding && hubConnection == Some(HubConnected)
      ensures !ok ==> connectionState == Error && connectionPromise == NoPromise && !IsConnected()
      ensures !ok ==> hubConnection == Some(HubDisconnected)
    {
      ok := true;
      if !IsConnected() {
        var started := Connect();
        if connectionPromise == InFlight {
          OnStartOutcome(startOk);
          ok := startOk;
        }
      }
    }

    /** The hub invocation for a request, as the current state sends it: `addSlide` refuses
        before a join, and nothing leaves unless the hub library's connection is open. */
    function Invoke(request: Request, invokeOk: bool): (r: CallResult)
      reads this
      ensures r.sent.Some? <==> hubConnection == Some(HubConnected) && (request.AddSlide? ==> InPresentation(presentationId))
      ensures r.outcome.Pass? <==> r.sent.Some? && invokeOk
      ensures request.AddSlide? && !InPresentation(presentationId) ==> r == CallResult(Fail(NotInPresentation), None)
      ensures r.sent.Some? && request.AddSlide? ==> r.sent.value == AddSlideTo(presentationId.value, request.order)
      ensures r.sent.Some? && !request.AddSlide? ==> r.sent.value == Forward(request)
    {
      if request.AddSlide? && !InPresentation(presentationId) then
        CallResult(Fail(NotInPresentation), None)
      else
        InvokeHub(if request.AddSlide? then AddSlideTo(presentationId.value, request.order) else Forward(request), invokeOk)
    }

    /** `hubConnection!.invoke(...)`. */
    function InvokeHub(inv: HubInvocation, invokeOk: bool): (r: CallResult)
      reads this
      ensures r.sent.Some? <==> hubConnection == Some(HubConnected)
      ensures r.sent.Some? ==> r.sent.value == inv
      ensures r.outcome.Pass? <==> r.sent.Some? && invokeOk
    {
      if hubConnection.None? then CallResult(Fail(NoHub), None)
      else if hubConnection.value != HubConnected then CallResult(Fail(HubNotConnected), None)
      else CallResult(if invokeOk then Pass else Fail(InvocationFailed), Some(inv))
    }

    /** Every outbound method other than `joinPresentation`: ensure a connection, then invoke. */
    method Call(request: Request, startOk: bool, invokeOk: bool) returns (r: CallResult)
      requires Valid()
      modifies this`connectionState, this`hubConnection, this`connectionPromise, this`forwarding
      ensures Valid()
      ensures r.outcome == Fail(ConnectionFailed) <==> !old(IsConnected()) && old(connectionPromise) != Settled && !startOk
      ensures r.outcome != Fail(ConnectionFailed) ==> r == Invoke(request, invokeOk)
      ensures r.sent.Some? ==> IsConnected() || old(connectionPromise) == Settled
      ensures old(IsConnected()) ==> unchanged(this) && r == Invoke(request, invokeOk)
      ensures r.outcome != Fail(ConnectionFailed) && !old(IsConnected()) && old(connectionPromise) != Settled ==>
                connectionPromise == Settled && forwarding && hubConnection == Some(HubConnected)
      ensures r.outcome == Fail(ConnectionFailed) ==> connectionPromise == NoPromise && hubConnection == Some(HubDisconnected)
    {
      var ok := EnsureConnected(startOk);
      if !ok {
        return CallResult(Fail(ConnectionFailed), None);
      }
      r := Invoke(request, invokeOk);
    }

    /** `joinPresentation`: ensure a connection, refuse unless it is open, remember the
        presentation (before the invocation, so a refused join is still re-joined after a
        reconnect), then invoke the join. */
    method JoinPresentation(pid: int, nickname: string, isCreator: bool, startOk: bool, invokeOk: bool) returns (r: CallResult)
      requires Valid()
      modifies this`connectionState, this`hubConnection, this`connectionPromise, this`forwarding, this`presentationId
      ensures Valid()
      ensures r.outcome == Fail(ConnectionFailed) <==> !old(IsConnected()) && old(connectionPromise) != Settled && !startOk
      ensures r.sent.Some? <==> IsConnected()
      ensures r.sent.Some? ==> r.sent.value == HubInvocation.JoinPresentation(pid, nickname, isCreator) && (r.outcome.Pass? <==> invokeOk)
      ensures r.sent.None? ==> r.outcome.Fail? && (r.outcome.error == ConnectionFailed || r.outcome.error == NotEstablished)
      ensures presentationId == (if r.sent.Some? then Some(pid) else old(presentationId))
      ensures r.outcome != Fail(ConnectionFailed) && !old(IsConnected()) && old(connectionPromise) != Settled ==>
                connectionPromise == Settled && forwarding && hubConnection == Some(HubConnected)
      ensures r.outcome == Fail(ConnectionFailed) ==> connectionPromise == NoPromise && hubConnection == Some(HubDisconnected)
    {
      var ok := EnsureConnected(startOk);
      if !ok {
        return CallResult(Fail(ConnectionFailed), None);
      }
      if !IsConnected() {
        return CallResult(Fail(NotEstablished), None);
      }
      presentationId := Some(pid);
      r := InvokeHub(HubInvocation.JoinPresentation(pid, nickname, isCreator), invokeOk);
    }

    /** `disconnect`: with a connection object, leave the presentation if connected, stop the
        connection unless leaving failed, and in every case forget the connection, the
        presentation and the promise. Without one, nothing happens. */
    method Disconnect(leaveOk: bool) returns (sent: Option<HubInvocation>, stopped: bool)
      requires Valid()
      modifies this`connectionState, this`hubConnection, this`connectionPromise, this`forwarding, this`presentationId
      ensures Valid()
      ensures old(hubConnection).None? ==> unchanged(this) && sent.None? && !stopped
      ensures old(hubConnection).Some? ==> hubConnection.None? && presentationId.None? && !forwarding
      ensures old(hubConnection).Some? ==> connectionState == Disconnected && connectionPromise == NoPromise
      ensures sent == (if old(IsConnected()) then Some(LeavePresentation) else None)
      ensures stopped <==> old(hubConnection).Some? && (old(IsConnected()) ==> leaveOk)
    {
      sent := None;
      stopped := false;
      if hubConnection.Some? {
        var leaveFailed := false;
        if IsConnected() {
          sent := Some(LeavePresentation);
          leaveFailed := !leaveOk;
        }
        if !leaveFailed {
          stopped := true;
        }
        hubConnection := None;
        presentationId := None;
        connectionState := Disconnected;
        connectionPromise := NoPromise;
        forwarding := false;
      }
    }

    /** `on`: subscribe a callback. */
    method On(event: string, callback: HandlerId)
      modifies this`eventHandlers
      ensures eventHandlers == Register(old(eventHandlers), event, callback)
    {
      eventHandlers := Register(eventHandlers, event, callback);
    }

    /** `off`: unsubscribe every entry identical to the callback. */
    method Off(event: string, callback: HandlerId)
      modifies this`eventHandlers
      ensures eventHandlers == Unregister(old(eventHandlers), event, callback)
    {
      eventHandlers := Unregister(eventHandlers, event, callback);
    }

    /** `triggerEvent`: call every subscriber of the event in subscription order; a subscriber
        that throws (as `throws` says) is logged and the rest still run. Returns the callbacks
        called and those that threw. */
    method TriggerEvent(event: string, throws: HandlerId -> bool) returns (ran: seq<HandlerId>, failed: seq<HandlerId>)
      ensures ran == Handlers(eventHandlers, event)
      ensures failed == Filter(ran, throws)
    {
      ran := [];
      failed := [];
      if event in eventHandlers {
        var hs := eventHandlers[event];
        var i := 0;
        while i < |hs|
          invariant 0 <= i <= |hs|
          invariant ran == hs[..i]
          invariant failed == Filter(hs[..i], throws)
        {
          var h := hs[i];
          ran := ran + [h];
          if throws(h) {
            failed := failed + [h];
          }
          assert hs[..i + 1] == hs[..i] + [h];
          FilterConcat(hs[..i], [h], throws);
          i := i + 1;
        }
        assert hs[..|hs|] == hs;
      }
    }

    /** A message from the hub: the forwarders of `registerClientMethods` re-publish the eleven
        hub events to the subscribers, and only once they are installed on a connection. */
    method OnHubMessage(name: string, throws: HandlerId -> bool) returns (ran: seq<HandlerId>, failed: seq<HandlerId>)
      ensures hubConnection.Some? && forwarding && name in HubEvents ==> ran == Handlers(eventHandlers, name)
      ensures !(hubConnection.Some? && forwarding && name in HubEvents) ==> ran == []
      ensures failed == Filter(ran, throws)
    {
      if hubConnection.Some? && forwarding && name in HubEvents {
        ran, failed := TriggerEvent(name, throws);
      } else {
        ran, failed := [], [];
      }
    }
  }
}
