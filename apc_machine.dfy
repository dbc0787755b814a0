/**
 * The APC state machine object: the current state (ApcStates), the state variables
 * (ApcStateVariables), the HTTP/APP phase flag of the event object (ApcStateEvents), and
 * the trace of actions issued (standing in for the calls on ApcStateActions).
 * Every method is proved against the pure definitions of module Apc.
 */
module ApcMachine {
  import opened Wrappers
  import opened Eui
  import opened AppMessages
  import opened Apc

  class ApcStateMachine {
    var state: State
    var vars: Variables
    var inHttp: bool
    var trace: seq<Action>
    /** The NOP keep-alive interval in seconds. */
    const nopInterval: Uint32

    /**
     * A machine in BEGIN whose HTTP request is for `path`. The keep-alive interval must be
     * positive: NOPs are due at strictly later times, and with an interval of 0 a closed
     * connection is never noticed in WAITING (see Apc.NopLivelock).
     */
    constructor (path: string, nopInterval: Uint32)
      requires 0 < nopInterval
      ensures state == Begin && vars == Variables.Cleared().(request := path) && inHttp
      ensures trace == [] && this.nopInterval == nopInterval
    {
      state := Begin;
      vars := Variables.Cleared().(request := path);
      inHttp := true;
      trace := [];
      this.nopInterval := nopInterval;
    }

    method ClearVariables()
      modifies this
      ensures vars == Variables.Cleared()
      ensures state == old(state) && inHttp == old(inHttp) && trace == old(trace)
    {
      vars := Variables.Cleared();
    }

    /** Clears every variable and puts the machine back in its initial state, BEGIN. */
    method ClearStates()
      modifies this
      ensures state == Begin && vars == Variables.Cleared()
      ensures inHttp == old(inHttp) && trace == old(trace)
    {
      ClearVariables();
      state := Begin;
    }

    method ClearEvents()
      modifies this
      ensures inHttp
      ensures state == old(state) && vars == old(vars) && trace == old(trace)
    {
      inHttp := true;
    }

    /** Back to BEGIN with every variable cleared and the byte router in its HTTP phase. */
    method Clear()
      modifies this
      ensures state == Begin && vars == Variables.Cleared() && inHttp
      ensures trace == old(trace)
    {
      ClearVariables();
      ClearStates();
      ClearEvents();
    }

    method SetPrimaryMac(mac: Eui48)
      modifies this
      ensures vars == old(vars).(primaryMac := mac)
      ensures state == old(state) && inHttp == old(inHttp) && trace == old(trace)
    {
      vars := vars.(primaryMac := mac);
    }

    method SetEntityId(entityId: Eui64)
      modifies this
      ensures vars == old(vars).(entityId := entityId)
      ensures state == old(state) && inHttp == old(inHttp) && trace == old(trace)
    {
      vars := vars.(entityId := entityId);
    }

    method SetApsAddress(addr: string)
      modifies this
      ensures vars == old(vars).(addr := addr)
      ensures state == old(state) && inHttp == old(inHttp) && trace == old(trace)
    {
      vars := vars.(addr := addr);
    }

    /** The HTTP request is modelled by its path, which CONNECTED sends to the proxy. */
    method SetPath(path: string)
      modifies this
      ensures vars == old(vars).(request := path)
      ensures state == old(state) && inHttp == old(inHttp) && trace == old(trace)
    {
      vars := vars.(request := path);
    }

    function GetEntityId(): Eui64
      reads this
    {
      vars.entityId
    }

    /**
     * The machine has entered `t` from variables `v0` and trace `trace0`: `t` is current,
     * its entry actions were applied and issued, and nothing else changed.
     */
    ghost predicate Entered(t: State, v0: Variables, trace0: seq<Action>, inHttp0: bool)
      reads this
    {
      var e := Enter(t, v0, nopInterval);
      state == t && vars == e.vars && trace == trace0 + e.actions && inHttp == inHttp0
    }

    method GoToInitialize()
      modifies this
      ensures Entered(Initialize, old(vars), old(trace), old(inHttp))
    {
      vars := SessionReset(vars);
      trace := trace + [InitializeAction];
      state := Initialize;
    }

    method GoToWaitForConnect()
      modifies this
      ensures Entered(WaitForConnect, old(vars), old(trace), old(inHttp))
    {
      trace := trace + [ConnectToProxy(vars.addr)];
      state := WaitForConnect;
    }

    method GoToConnected()
      modifies this
      ensures Entered(Connected, old(vars), old(trace), old(inHttp))
    {
      trace := trace + [SendHttpRequest(vars.request)];
      state := Connected;
    }

    method GoToStartTransfer()
      modifies this
      ensures Entered(StartTransfer, old(vars), old(trace), old(inHttp))
    {
      trace := trace + [SendIdRequest(vars.primaryMac, vars.entityId)];
      state := StartTransfer;
    }

    method GoToWaiting()
      modifies this
      ensures Entered(Waiting, old(vars), old(trace), old(inHttp))
    {
      state := Waiting;
    }

    method GoToReceiveMsg()
      modifies this
      ensures Entered(ReceiveMsg, old(vars), old(trace), old(inHttp))
    {
      var msg := vars.apsMsg;
      var id := vars.newId;
      if msg.messageType == EntityIdResponse.Code() {
        id := msg.GetEntityIdResponseEntityId();
      } else if msg.messageType == AvdeccFromAps.Code() {
        trace := trace + [ProcessMsg(msg)];
      }
      vars := vars.(apsMsgIn := false, newId := id);
      state := ReceiveMsg;
    }

    method GoToSendMsg()
      modifies this
      ensures Entered(SendMsg, old(vars), old(trace), old(inHttp))
    {
      trace := trace + [SendMsgToAps(vars.apcMsg)];
      vars := vars.(apcMsgOut := false);
      state := SendMsg;
    }

    method GoToLinkStatus()
      modifies this
      ensures Entered(LinkStatus, old(vars), old(trace), old(inHttp))
    {
      trace := trace + [NotifyLinkStatus(vars.linkMsg)];
      vars := vars.(linkStatusMsg := false);
      state := LinkStatus;
    }

    method GoToEntityIdAssigned()
      modifies this
      ensures Entered(EntityIdAssigned, old(vars), old(trace), old(inHttp))
    {
      vars := vars.(entityId := vars.newId, idAssigned := true);
      trace := trace + [NotifyNewEntityId(vars.entityId)];
      state := EntityIdAssigned;
    }

    method GoToSendNop()
      modifies this
      ensures Entered(SendNop, old(vars), old(trace), old(inHttp))
    {
      trace := trace + [SendNopToAps];
      vars := vars.(nopTimeout := (vars.currentTime + nopInterval) % 0x1_0000_0000);
      state := SendNop;
    }

    method GoToClosed()
      modifies this
      ensures Entered(Closed, old(vars), old(trace), old(inHttp))
    {
      trace := trace + [CloseTcpConnection, NotifyProxyUnavailable];
      state := Closed;
    }

    method GoToFinish()
      modifies this
      ensures Entered(Finish, old(vars), old(trace), old(inHttp))
    {
      vars := vars.(finished := true);
      state := Finish;
    }

    /**
     * run(): the current state's do procedure checks its exit guards and goes to the next
     * state; false once the machine has finished.
     */
    method Run() returns (more: bool)
      modifies this
      ensures var r := Step(old(state), old(vars), nopInterval);
              state == r.state && vars == r.vars && trace == old(trace) + r.actions && more == r.more
      ensures inHttp == old(inHttp)
    {
      more := state != Finish;
      match state {
        case Begin => GoToInitialize();
        case Initialize => GoToWaitForConnect();
        case WaitForConnect =>
          if vars.tcpConnected {
            GoToConnected();
          } else if vars.incomingTcpClosed {
            GoToClosed();
          }
        case Connected =>
          if vars.responseReceived && vars.responseValid {
            GoToStartTransfer();
          } else if (vars.responseReceived && !vars.responseValid) || vars.incomingTcpClosed {
            GoToClosed();
          }
        case StartTransfer => GoToWaiting();
        case Waiting =>
          if vars.apsMsgIn {
            GoToReceiveMsg();
          } else if vars.linkStatusMsg {
            GoToLinkStatus();
          } else if vars.apcMsgOut {
            GoToSendMsg();
          } else if vars.currentTime >= vars.nopTimeout {
            GoToSendNop();
          } else if vars.incomingTcpClosed {
            GoToClosed();
          }
        case ReceiveMsg =>
          if vars.apsMsg.messageType == EntityIdResponse.Code() {
            GoToEntityIdAssigned();
          } else {
            GoToWaiting();
          }
        case SendMsg => GoToWaiting();
        case LinkStatus => GoToWaiting();
        case EntityIdAssigned => GoToWaiting();
        case SendNop => GoToWaiting();
        case Closed => GoToFinish();
        case Finish =>
      }
    }

    // -------------------------------------------------------------------------
    // Events
    // -------------------------------------------------------------------------

    method OnIncomingTcpConnection()
      modifies this
      ensures vars == Apc.OnIncomingTcpConnection(old(vars))
      ensures state == old(state) && inHttp == old(inHttp) && trace == old(trace)
    {
      vars := vars.(tcpConnected := true);
    }

    method OnTcpConnectionClosed()
      modifies this
      ensures vars == Apc.OnTcpConnectionClosed(old(vars))
      ensures state == old(state) && inHttp == old(inHttp) && trace == old(trace)
    {
      vars := vars.(incomingTcpClosed := true);
    }

    method OnTimeTick(timeInSeconds: Uint32)
      modifies this
      ensures vars == Apc.OnTimeTick(old(vars), timeInSeconds)
      ensures state == old(state) && inHttp == old(inHttp) && trace == old(trace)
    {
      vars := vars.(currentTime := timeInSeconds);
    }

    method OnNetAvdeccMessageReceived(frame: Frame)
      modifies this
      ensures vars == Apc.OnNetAvdeccMessageReceived(old(vars), frame)
      ensures state == old(state) && inHttp == old(inHttp) && trace == old(trace)
    {
      vars := vars.(apcMsg := vars.apcMsg.SetAvdeccFromApc(frame), apcMsgOut := true);
    }

    /** Hands octets to the TCP connection. */
    method SendTcpData(data: seq<Octet>)
      modifies this
      ensures trace == old(trace) + [Action.SendTcpData(data)]
      ensures state == old(state) && vars == old(vars) && inHttp == old(inHttp)
    {
      trace := trace + [Action.SendTcpData(data)];
    }

    method OnIncomingHttpResponse(valid: bool)
      modifies this
      ensures vars == Apc.OnIncomingHttpResponse(old(vars), valid)
      ensures state == old(state) && inHttp == old(inHttp) && trace == old(trace)
    {
      vars := vars.(responseReceived := true, responseValid := valid);
    }

    /**
     * HTTP-phase octets go to the HTTP client parser, whose verdict is `http`; a complete
     * response is recorded and ends the HTTP phase.
     */
    method OnIncomingTcpHttpData(data: seq<Octet>, http: HttpOutcome) returns (consumed: nat)
      requires http.consumed <= |data|
      modifies this
      ensures consumed == http.consumed
      ensures http.complete ==> vars == Apc.OnIncomingHttpResponse(old(vars), http.valid) && !inHttp
      ensures !http.complete ==> vars == old(vars) && inHttp == old(inHttp)
      ensures state == old(state) && trace == old(trace)
    {
      consumed := http.consumed;
      if http.complete {
        OnIncomingHttpResponse(http.valid);
        inHttp := false;
      }
    }

    /** The byte router: HTTP phase first, then the rest of the delivery to the APP parser. */
    method OnIncomingTcpData(data: seq<Octet>, http: HttpOutcome) returns (consumed: nat)
      requires http.consumed <= |data|
      modifies this
      ensures var r := RouteTcpData(old(inHttp), old(vars), data, http);
              inHttp == r.inHttp && vars == r.vars && consumed == r.consumed
      ensures state == old(state) && trace == old(trace)
    {
      consumed := 0;
      if inHttp {
        consumed := OnIncomingTcpHttpData(data, http);
      }
      if !inHttp {
        var appConsumed := OnIncomingTcpAppData(data[consumed..]);
        consumed := consumed + appConsumed;
      }
    }

    /** APP-phase octets: each whole APPDU at the front is decoded and dispatched in turn. */
    method OnIncomingTcpAppData(data: seq<Octet>) returns (consumed: nat)
      modifies this
      ensures consumed == ParseStream(data).consumed
      ensures vars == DeliverAll(old(vars), ParseStream(data).messages)
      ensures state == old(state) && inHttp == old(inHttp) && trace == old(trace)
    {
      consumed := 0;
      ghost var delivered: seq<AppMessage> := [];
      ghost var v0 := vars;
      ParsedUpToStart(data);
      while true
        invariant ParsedUpTo(data, delivered, consumed)
        invariant vars == DeliverAll(v0, delivered)
        invariant state == old(state) && inHttp == old(inHttp) && trace == old(trace)
        decreases |data| - consumed
      {
        var size, m := DispatchAt(data, consumed, v0, delivered);
        if size == 0 {
          break;
        }
        delivered, consumed := delivered + [m], consumed + size;
      }
    }

    /**
     * One pass of the APP parser's loop: when a whole APPDU starts at `consumed` it is decoded
     * and dispatched and its size returned; otherwise nothing happens and 0 is returned.
     */
    method DispatchAt(data: seq<Octet>, consumed: nat, ghost v0: Variables, ghost delivered: seq<AppMessage>)
      returns (size: nat, ghost m: AppMessage)
      requires ParsedUpTo(data, delivered, consumed) && vars == DeliverAll(v0, delivered)
      modifies this
      ensures size == 0 ==> ParseStream(data) == Parsed(delivered, consumed) && vars == old(vars)
      ensures size > 0 ==> ParsedUpTo(data, delivered + [m], consumed + size)
                           && vars == DeliverAll(v0, delivered + [m])
      ensures state == old(state) && inHttp == old(inHttp) && trace == old(trace)
    {
      var d := DecodeFrame(data[consumed..]);
      if !d.Decoded? {
        AppDataDone(data, delivered, consumed);
        return 0, AppMessage.Create();
      }
      var msg := d.msg;
      size, m := d.size, msg;
      AppDataStep(v0, data, delivered, consumed, vars, m, size);
      OnAppMessage(msg);
    }

    /** The APP message parser's dispatch to the handler for the message's kind. */
    method OnAppMessage(msg: AppMessage)
      modifies this
      ensures vars == Deliver(old(vars), msg)
      ensures state == old(state) && inHttp == old(inHttp) && trace == old(trace)
    {
      match msg.Kind() {
        case None => OnAppUnknown(msg);
        case Some(Nop) => OnAppNop(msg);
        case Some(EntityIdRequest) => OnAppEntityIdRequest(msg);
        case Some(EntityIdResponse) => OnAppEntityIdResponse(msg);
        case Some(LinkUp) => OnAppLinkUp(msg);
        case Some(LinkDown) => OnAppLinkDown(msg);
        case Some(AvdeccFromAps) => OnAppAvdeccFromAps(msg);
        case Some(AvdeccFromApc) => OnAppAvdeccFromApc(msg);
        case Some(Vendor) => OnAppVendor(msg);
      }
    }

    /** Puts a message from the proxy in the inbound mailbox. */
    method PostApsMsg(msg: AppMessage)
      modifies this
      ensures vars == old(vars).(apsMsg := msg, apsMsgIn := true)
      ensures state == old(state) && inHttp == old(inHttp) && trace == old(trace)
    {
      vars := vars.(apsMsg := msg, apsMsgIn := true);
    }

    /** Puts a link event in the link mailbox. */
    method PostLinkMsg(msg: AppMessage)
      modifies this
      ensures vars == old(vars).(linkMsg := msg, linkStatusMsg := true)
      ensures state == old(state) && inHttp == old(inHttp) && trace == old(trace)
    {
      vars := vars.(linkMsg := msg, linkStatusMsg := true);
    }

    method OnAppNop(msg: AppMessage)
      modifies this
      ensures vars == old(vars).(apsMsg := msg, apsMsgIn := true)
      ensures state == old(state) && inHttp == old(inHttp) && trace == old(trace)
    {
      PostApsMsg(msg);
    }

    method OnAppEntityIdRequest(msg: AppMessage)
      modifies this
      ensures vars == old(vars).(apsMsg := msg, apsMsgIn := true)
      ensures state == old(state) && inHttp == old(inHttp) && trace == old(trace)
    {
      PostApsMsg(msg);
    }

    /** Also records the entity id the proxy assigned, for ENTITY_ID_ASSIGNED to adopt. */
    method OnAppEntityIdResponse(msg: AppMessage)
      modifies this
      ensures vars == old(vars).(apsMsg := msg, apsMsgIn := true, newId := msg.GetEntityIdResponseEntityId())
      ensures state == old(state) && inHttp == old(inHttp) && trace == old(trace)
    {
      PostApsMsg(msg);
      vars := vars.(newId := msg.GetEntityIdResponseEntityId());
    }

    method OnAppLinkUp(msg: AppMessage)
      modifies this
      ensures vars == old(vars).(linkMsg := msg, linkStatusMsg := true)
      ensures state == old(state) && inHttp == old(inHttp) && trace == old(trace)
    {
      PostLinkMsg(msg);
    }

    method OnAppLinkDown(msg: AppMessage)
      modifies this
      ensures vars == old(vars).(linkMsg := msg, linkStatusMsg := true)
      ensures state == old(state) && inHttp == old(inHttp) && trace == old(trace)
    {
      PostLinkMsg(msg);
    }

    method OnAppAvdeccFromAps(msg: AppMessage)
      modifies this
      ensures vars == old(vars).(apsMsg := msg, apsMsgIn := true)
      ensures state == old(state) && inHttp == old(inHttp) && trace == old(trace)
    {
      PostApsMsg(msg);
    }

    method OnAppAvdeccFromApc(msg: AppMessage)
      modifies this
      ensures vars == old(vars).(apsMsg := msg, apsMsgIn := true)
      ensures state == old(state) && inHttp == old(inHttp) && trace == old(trace)
    {
      PostApsMsg(msg);
    }

    method OnAppVendor(msg: AppMessage)
      modifies this
      ensures vars == old(vars).(apsMsg := msg, apsMsgIn := true)
      ensures state == old(state) && inHttp == old(inHttp) && trace == old(trace)
    {
      PostApsMsg(msg);
    }

    /** A message of unknown kind is ignored. */
    method OnAppUnknown(msg: AppMessage)
      modifies this
      ensures vars == old(vars)
      ensures state == old(state) && inHttp == old(inHttp) && trace == old(trace)
    {
    }
  }
}
