/**
 * The AVDECC Proxy Client state machine of IEEE Std 1722.1-2013 Annex C, Figure C.3,
 * as pure functions: the state variables (Annex C.5.3.1), the actions it issues
 * (Annex C.5.3.2), the exit guards and entry actions of each state, one `run()` step,
 * and the event entry points that update the variables.
 */
module Apc {
  import opened Wrappers
  import opened Eui
  import opened AppMessages

  type Uint32 = x: int | 0 <= x < 0x1_0000_0000

  /** The thirteen states of Figure C.3. */
  datatype State =
    | Begin
    | Initialize
    | WaitForConnect
    | Connected
    | StartTransfer
    | Waiting
    | ReceiveMsg
    | SendMsg
    | LinkStatus
    | EntityIdAssigned
    | SendNop
    | Closed
    | Finish

  /** The calls the state machine and its event object make on the outside world. */
  datatype Action =
    | InitializeAction
    | ConnectToProxy(addr: string)
    | CloseTcpConnection
    | NotifyProxyAvailable
    | NotifyProxyUnavailable
    | NotifyLinkStatus(linkMsg: AppMessage)
    | ProcessMsg(apsMsg: AppMessage)
    | NotifyNewEntityId(entityId: Eui64)
    | SendIdRequest(primaryMac: Eui48, entityId: Eui64)
    | SendHttpRequest(request: string)
    | SendMsgToAps(apcMsg: AppMessage)
    | SendNopToAps
    | SendTcpData(data: seq<Octet>)

  /** The state variables of Annex C.5.3.1 (and Cor 1's responseReceived). */
  datatype Variables = Variables(
    addr: string,
    request: string,
    apcMsg: AppMessage,
    apcMsgOut: bool,
    apsMsg: AppMessage,
    apsMsgIn: bool,
    currentTime: Uint32,
    finished: bool,
    entityId: Eui64,
    idAssigned: bool,
    incomingTcpClosed: bool,
    linkMsg: AppMessage,
    linkStatusMsg: bool,
    newId: Eui64,
    nopTimeout: Uint32,
    primaryMac: Eui48,
    responseReceived: bool,
    responseValid: bool,
    tcpConnected: bool)
  {
    /** Every variable at its default: empty strings, NOP messages, false flags, zero times, unset ids. */
    static function Cleared(): (v: Variables)
      ensures !v.apcMsgOut && !v.apsMsgIn && !v.linkStatusMsg && !v.finished && !v.idAssigned
      ensures !v.incomingTcpClosed && !v.responseReceived && !v.responseValid && !v.tcpConnected
      ensures v.entityId == Eui64.Default() && v.newId == Eui64.Default() && v.primaryMac == Eui48.Default()
      ensures v.currentTime == 0 && v.nopTimeout == 0 && v.addr == [] && v.request == []
    {
      Variables([], [], AppMessage.Create(), false, AppMessage.Create(), false, 0, false,
                Eui64.Default(), false, false, AppMessage.Create(), false, Eui64.Default(), 0,
                Eui48.Default(), false, false, false)
    }

    /** A session's flags and mailboxes have nothing pending. */
    predicate Idle()
    {
      !apsMsgIn && !linkStatusMsg && !apcMsgOut && !incomingTcpClosed
    }
  }

  /**
   * The variables as INITIALIZE leaves them: the session is reset, while the
   * configuration (proxy address, HTTP request, primary MAC, entity id) and the clock are kept.
   */
  function SessionReset(v: Variables): (r: Variables)
    ensures r.Idle() && !r.tcpConnected && !r.responseReceived && !r.finished && !r.idAssigned
    ensures r.addr == v.addr && r.request == v.request && r.primaryMac == v.primaryMac
    ensures r.entityId == v.entityId && r.currentTime == v.currentTime
    ensures r.nopTimeout == 0 && !r.responseValid && r.newId == Eui64.Default()
    ensures r.apcMsg == AppMessage.Create() && r.apsMsg == AppMessage.Create() && r.linkMsg == AppMessage.Create()
  {
    Variables.Cleared().(addr := v.addr, request := v.request, primaryMac := v.primaryMac,
                         entityId := v.entityId, currentTime := v.currentTime)
  }

  /** The NOP keep-alive falls due once the clock reaches nopTimeout. */
  predicate NopDue(v: Variables)
  {
    v.currentTime >= v.nopTimeout
  }

  /** The exit guards of each state of Figure C.3: the state to go to, or None to stay. */
  function Next(s: State, v: Variables): (t: Option<State>)
    ensures s == Finish ==> t.None?
    ensures t.None? ==> s == WaitForConnect || s == Connected || s == Waiting || s == Finish
    ensures v.incomingTcpClosed && s != Finish ==> t.Some?
  {
    match s
    case Begin => Some(Initialize)
    case Initialize => Some(WaitForConnect)
    case WaitForConnect =>
      if v.tcpConnected then Some(Connected)
      else if v.incomingTcpClosed then Some(Closed)
      else None
    case Connected =>
      if v.responseReceived && v.responseValid then Some(StartTransfer)
      else if (v.responseReceived && !v.responseValid) || v.incomingTcpClosed then Some(Closed)
      else None
    case StartTransfer => Some(Waiting)
    case Waiting =>
      if v.apsMsgIn then Some(ReceiveMsg)
      else if v.linkStatusMsg then Some(LinkStatus)
      else if v.apcMsgOut then Some(SendMsg)
      else if NopDue(v) then Some(SendNop)
      else if v.incomingTcpClosed then Some(Closed)
      else None
    case ReceiveMsg =>
      if v.apsMsg.messageType == EntityIdResponse.Code() then Some(EntityIdAssigned) else Some(Waiting)
    case SendMsg => Some(Waiting)
    case LinkStatus => Some(Waiting)
    case EntityIdAssigned => Some(Waiting)
    case SendNop => Some(Waiting)
    case Closed => Some(Finish)
    case Finish => None
  }

  /** The entity id an inbound message carries to RECEIVE_MSG: the response's id, else `current`. */
  function ReceivedId(msg: AppMessage, current: Eui64): Eui64
  {
    if msg.messageType == EntityIdResponse.Code() then msg.GetEntityIdResponseEntityId() else current
  }

  /** RECEIVE_MSG hands an AVDECC_FROM_APS message's frame to processMsg. */
  function Processed(msg: AppMessage): seq<Action>
  {
    if msg.messageType == AvdeccFromAps.Code() then [ProcessMsg(msg)] else []
  }

  /** What entering a state does: the new variables and the actions issued, in order. */
  datatype Entry = Entry(vars: Variables, actions: seq<Action>)

  /** The entry actions of each state of Figure C.3; `interval` is the NOP keep-alive interval. */
  function Enter(t: State, v: Variables, interval: Uint32): Entry
  {
    match t
    case Begin => Entry(v, [])
    case Initialize => Entry(SessionReset(v), [InitializeAction])
    case WaitForConnect => Entry(v, [ConnectToProxy(v.addr)])
    case Connected => Entry(v, [SendHttpRequest(v.request)])
    case StartTransfer => Entry(v, [SendIdRequest(v.primaryMac, v.entityId)])
    case Waiting => Entry(v, [])
    case ReceiveMsg =>
      Entry(v.(apsMsgIn := false, newId := ReceivedId(v.apsMsg, v.newId)), Processed(v.apsMsg))
    case SendMsg => Entry(v.(apcMsgOut := false), [SendMsgToAps(v.apcMsg)])
    case LinkStatus => Entry(v.(linkStatusMsg := false), [NotifyLinkStatus(v.linkMsg)])
    case EntityIdAssigned =>
      Entry(v.(entityId := v.newId, idAssigned := true), [NotifyNewEntityId(v.newId)])
    case SendNop =>
      Entry(v.(nopTimeout := (v.currentTime + interval) % 0x1_0000_0000), [SendNopToAps])
    case Closed => Entry(v, [CloseTcpConnection, NotifyProxyUnavailable])
    case Finish => Entry(v.(finished := true), [])
  }

  /** Entering any state but INITIALIZE leaves the close flag, the clock and the MAC alone. */
  lemma EnterKeeps(t: State, v: Variables, interval: Uint32)
    requires t != Initialize
    ensures var e := Enter(t, v, interval);
            e.vars.incomingTcpClosed == v.incomingTcpClosed
            && e.vars.currentTime == v.currentTime
            && e.vars.primaryMac == v.primaryMac
  {
    match t
    case Begin =>
    case WaitForConnect =>
    case Connected =>
    case StartTransfer =>
    case Waiting =>
    case ReceiveMsg =>
    case SendMsg =>
    case LinkStatus =>
    case EntityIdAssigned =>
    case SendNop =>
    case Closed =>
    case Finish =>
  }

  /** Only CLOSED's entry closes the connection and reports the proxy unavailable. */
  lemma EnterClosingActions(t: State, v: Variables, interval: Uint32)
    ensures var e := Enter(t, v, interval);
            (t == Closed ==> e.actions == [CloseTcpConnection, NotifyProxyUnavailable])
            && (t != Closed ==> CloseTcpConnection !in e.actions && NotifyProxyUnavailable !in e.actions)
  {
    match t
    case Begin =>
    case Initialize =>
    case WaitForConnect =>
    case Connected =>
    case StartTransfer =>
    case Waiting =>
    case ReceiveMsg =>
    case SendMsg =>
    case LinkStatus =>
    case EntityIdAssigned =>
    case SendNop =>
    case Closed =>
    case Finish =>
  }

  /** The outcome of one `run()`: the new state, variables, the actions issued, and run()'s result. */
  datatype StepResult = StepResult(state: State, vars: Variables, actions: seq<Action>, more: bool)

  /** One `run()`: the current state's handler evaluates its exit guards and enters the next state. */
  function Step(s: State, v: Variables, interval: Uint32): (r: StepResult)
    ensures r.more <==> s != Finish
    ensures s == Finish ==> r.state == Finish && r.vars == v && r.actions == []
    ensures Next(s, v).None? ==> r.state == s && r.vars == v && r.actions == []
  {
    match Next(s, v)
    case None => StepResult(s, v, [], s != Finish)
    case Some(t) =>
      var e := Enter(t, v, interval);
      StepResult(t, e.vars, e.actions, s != Finish)
  }

  /** The accumulated outcome of several `run()` calls with no event in between. */
  datatype Outcome = Outcome(state: State, vars: Variables, actions: seq<Action>)

  function Steps(n: nat, s: State, v: Variables, interval: Uint32): Outcome
  {
    if n == 0 then Outcome(s, v, [])
    else
      var r := Step(s, v, interval);
      var rest := Steps(n - 1, r.state, r.vars, interval);
      Outcome(rest.state, rest.vars, r.actions + rest.actions)
  }

  lemma StepsCons(n: nat, s: State, v: Variables, interval: Uint32)
    requires n > 0
    ensures var r := Step(s, v, interval);
            var rest := Steps(n - 1, r.state, r.vars, interval);
            Steps(n, s, v, interval) == Outcome(rest.state, rest.vars, r.actions + rest.actions)
  {
  }

  lemma StepsOne(s: State, v: Variables, interval: Uint32)
    ensures var r := Step(s, v, interval);
            Steps(1, s, v, interval) == Outcome(r.state, r.vars, r.actions)
  {
    var r := Step(s, v, interval);
    assert r.actions + [] == r.actions;
  }

  function Count(a: Action, actions: seq<Action>): nat
  {
    if actions == [] then 0
    else (if actions[0] == a then 1 else 0) + Count(a, actions[1..])
  }

  lemma {:induction false} CountAppend(a: Action, xs: seq<Action>, ys: seq<Action>)
    ensures Count(a, xs + ys) == Count(a, xs) + Count(a, ys)
  {
    if xs != [] {
      assert (xs + ys)[0] == xs[0];
      assert (xs + ys)[1..] == xs[1..] + ys;
      CountAppend(a, xs[1..], ys);
    } else {
      assert xs + ys == ys;
    }
  }

  lemma CountAbsent(a: Action, xs: seq<Action>)
    requires a !in xs
    ensures Count(a, xs) == 0
  {
  }

  // ---------------------------------------------------------------------------
  // Properties of the transition procedure
  // ---------------------------------------------------------------------------

  /** FINISH is terminal: further runs change nothing and issue nothing. */
  lemma {:induction false} FinishIsTerminal(n: nat, v: Variables, interval: Uint32)
    ensures Steps(n, Finish, v, interval) == Outcome(Finish, v, [])
  {
    if n > 0 {
      FinishIsTerminal(n - 1, v, interval);
    }
  }

  /** A state that has nothing to do stays put, whatever the number of runs. */
  lemma {:induction false} Quiescent(n: nat, s: State, v: Variables, interval: Uint32)
    requires Next(s, v).None?
    ensures Steps(n, s, v, interval) == Outcome(s, v, [])
  {
    if n > 0 {
      Quiescent(n - 1, s, v, interval);
    }
  }

  /**
   * From BEGIN, two runs issue initialize() and connectToProxy(addr) and reach WAIT_FOR_CONNECT
   * with a reset session; until the connection is reported, every further run does nothing.
   */
  lemma Startup(k: nat, v: Variables, interval: Uint32)
    ensures var o := Steps(2 + k, Begin, v, interval);
            o.state == WaitForConnect && o.vars == SessionReset(v)
            && o.actions == [InitializeAction, ConnectToProxy(v.addr)]
  {
    var w := SessionReset(v);
    assert Step(Begin, v, interval) == StepResult(Initialize, w, [InitializeAction], true);
    assert Step(Initialize, w, interval) == StepResult(WaitForConnect, w, [ConnectToProxy(v.addr)], true);
    Quiescent(k, WaitForConnect, w, interval);
    assert Steps(2 + k, Begin, v, interval) == Outcome(WaitForConnect, w, [InitializeAction] + ([ConnectToProxy(v.addr)] + []));
  }

  /**
   * A close recorded while in BEGIN is lost: INITIALIZE's reset clears incomingTcpClosed, so
   * the machine waits in WAIT_FOR_CONNECT for ever and never closes the connection or reports
   * the proxy unavailable.
   */
  lemma CloseLostInBegin(k: nat, v: Variables, interval: Uint32)
    requires v.incomingTcpClosed
    ensures var o := Steps(2 + k, Begin, v, interval);
            o.state == WaitForConnect && !o.vars.incomingTcpClosed
            && Count(CloseTcpConnection, o.actions) == 0 && Count(NotifyProxyUnavailable, o.actions) == 0
  {
    Startup(k, v, interval);
    var o := Steps(2 + k, Begin, v, interval);
    CountAbsent(CloseTcpConnection, o.actions);
    CountAbsent(NotifyProxyUnavailable, o.actions);
  }

  /**
   * The handshake: in WAIT_FOR_CONNECT, once the connection is reported the machine sends the
   * HTTP request; once a valid response is reported it sends exactly one id request with the
   * primary MAC and entity id, and settles in WAITING, whose next run sends a NOP exactly
   * when one is already due.
   */
  lemma Handshake(v: Variables, interval: Uint32)
    requires v.Idle() && !v.tcpConnected && !v.responseReceived
    ensures var c := OnIncomingTcpConnection(v);
            Steps(1, WaitForConnect, c, interval) == Outcome(Connected, c, [SendHttpRequest(v.request)])
    ensures var r := OnIncomingHttpResponse(OnIncomingTcpConnection(v), true);
            var o := Steps(2, Connected, r, interval);
            o.state == Waiting && o.vars == r && o.actions == [SendIdRequest(v.primaryMac, v.entityId)]
            && Next(o.state, o.vars) == (if NopDue(v) then Some(SendNop) else None)
  {
    var c := OnIncomingTcpConnection(v);
    assert Step(WaitForConnect, c, interval) == StepResult(Connected, c, [SendHttpRequest(v.request)], true);
    StepsOne(WaitForConnect, c, interval);
    var r := OnIncomingHttpResponse(c, true);
    assert Step(Connected, r, interval) == StepResult(StartTransfer, r, [SendIdRequest(v.primaryMac, v.entityId)], true);
    assert Step(StartTransfer, r, interval) == StepResult(Waiting, r, [], true);
    StepsOne(StartTransfer, r, interval);
    StepsCons(2, Connected, r, interval);
    assert [SendIdRequest(v.primaryMac, v.entityId)] + [] == [SendIdRequest(v.primaryMac, v.entityId)];
  }

  /**
   * A whole session start from BEGIN: two runs reach WAIT_FOR_CONNECT; after the connection,
   * one run sends the HTTP request; after a valid response, two runs send one id request and
   * reach WAITING. INITIALIZE left nopTimeout at 0, so the next run sends the first NOP.
   */
  lemma SessionStart(v: Variables, interval: Uint32)
    ensures var w := SessionReset(v);
            Steps(2, Begin, v, interval) == Outcome(WaitForConnect, w, [InitializeAction, ConnectToProxy(v.addr)])
    ensures var c := OnIncomingTcpConnection(SessionReset(v));
            Steps(1, WaitForConnect, c, interval) == Outcome(Connected, c, [SendHttpRequest(v.request)])
    ensures var r := OnIncomingHttpResponse(OnIncomingTcpConnection(SessionReset(v)), true);
            var o := Steps(2, Connected, r, interval);
            var nop := Step(o.state, o.vars, interval);
            o.state == Waiting && o.actions == [SendIdRequest(v.primaryMac, v.entityId)]
            && nop.state == SendNop && nop.actions == [SendNopToAps]
  {
    var w := SessionReset(v);
    Startup(0, v, interval);
    Handshake(w, interval);
    var r := OnIncomingHttpResponse(OnIncomingTcpConnection(w), true);
    assert NopDue(r);
  }

  /**
   * In an idle WAITING, delivering ENTITY_ID_RESPONSE(mac, id) makes three runs go through
   * RECEIVE_MSG and ENTITY_ID_ASSIGNED back to WAITING, assigning the id and notifying it once.
   * The inbound mailbox is served before the NOP deadline, so this holds whatever the clock;
   * the next run then sends a NOP exactly when one is due.
   */
  lemma EntityIdAssignment(v: Variables, mac: Eui48, id: Eui64, interval: Uint32)
    requires v.Idle()
    ensures var d := Deliver(v, AppMessage.Create().SetEntityIdResponse(mac, id));
            var o := Steps(3, Waiting, d, interval);
            o.state == Waiting && o.vars.entityId == id && o.vars.idAssigned
            && o.actions == [NotifyNewEntityId(id)]
            && Next(o.state, o.vars) == (if NopDue(v) then Some(SendNop) else None)
  {
    var m := AppMessage.Create().SetEntityIdResponse(mac, id);
    CodesAreFixed(EntityIdResponse, EntityIdResponse);
    var d := Deliver(v, m);
    assert d.apsMsgIn && d.apsMsg == m && m.GetEntityIdResponseEntityId() == id;
    RunEntityIdResponse(d, interval);
  }

  /**
   * The three runs of EntityIdAssignment, from a WAITING whose inbound mailbox holds an
   * ENTITY_ID_RESPONSE: its priority over every other pending event means that nothing else
   * is served meanwhile, and only the mailbox flag, newId, entityId and idAssigned change.
   */
  lemma RunEntityIdResponse(d: Variables, interval: Uint32)
    requires d.apsMsgIn && d.apsMsg.messageType == EntityIdResponse.Code()
    ensures var id := d.apsMsg.GetEntityIdResponseEntityId();
            var o := Steps(3, Waiting, d, interval);
            o.state == Waiting && o.actions == [NotifyNewEntityId(id)]
            && o.vars == d.(apsMsgIn := false, newId := id, entityId := id, idAssigned := true)
  {
    var id := d.apsMsg.GetEntityIdResponseEntityId();
    var r1 := Step(Waiting, d, interval);
    assert r1.state == ReceiveMsg && r1.actions == [];
    assert r1.vars == d.(apsMsgIn := false, newId := id);
    var r2 := Step(ReceiveMsg, r1.vars, interval);
    assert r2.state == EntityIdAssigned && r2.actions == [NotifyNewEntityId(id)];
    assert r2.vars == r1.vars.(entityId := id, idAssigned := true);
    var r3 := Step(EntityIdAssigned, r2.vars, interval);
    assert r3.state == Waiting && r3.vars == r2.vars && r3.actions == [];
    StepsOne(EntityIdAssigned, r2.vars, interval);
    StepsCons(2, ReceiveMsg, r1.vars, interval);
    StepsCons(3, Waiting, d, interval);
    assert [] + ([NotifyNewEntityId(id)] + []) == [NotifyNewEntityId(id)];
  }

  /**
   * In an idle WAITING whose clock has reached nopTimeout, two runs send exactly one NOP,
   * move nopTimeout strictly past the clock, and leave the machine in WAITING with nothing to do.
   */
  lemma NopKeepAlive(v: Variables, interval: Uint32)
    requires v.Idle() && NopDue(v)
    requires 0 < interval && v.currentTime + interval < 0x1_0000_0000
    ensures var o := Steps(2, Waiting, v, interval);
            o.state == Waiting && o.actions == [SendNopToAps]
            && o.vars.nopTimeout > v.currentTime && o.vars == v.(nopTimeout := o.vars.nopTimeout)
            && Next(o.state, o.vars).None?
  {
    var r1 := Step(Waiting, v, interval);
    assert r1 == StepResult(SendNop, v.(nopTimeout := v.currentTime + interval), [SendNopToAps], true);
    var r2 := Step(SendNop, r1.vars, interval);
    assert r2 == StepResult(Waiting, r1.vars, [], true);
    StepsOne(SendNop, r1.vars, interval);
    StepsCons(2, Waiting, v, interval);
    assert [SendNopToAps] + [] == [SendNopToAps];
  }

  /**
   * When a NOP's new timeout is not after the clock (an interval of 0, or a sum that wraps
   * past 2^32), the NOP is due again as soon as it is sent: with no mail and no clock tick,
   * WAITING and SEND_NOP alternate for ever and a recorded close is never acted on.
   */
  lemma {:induction false} NopLivelock(n: nat, s: State, v: Variables, interval: Uint32)
    requires s == Waiting || s == SendNop
    requires !v.apsMsgIn && !v.linkStatusMsg && !v.apcMsgOut && NopDue(v)
    requires (v.currentTime + interval) % 0x1_0000_0000 <= v.currentTime
    ensures var o := Steps(n, s, v, interval);
            (o.state == Waiting || o.state == SendNop) && o.vars.incomingTcpClosed == v.incomingTcpClosed
            && Count(CloseTcpConnection, o.actions) == 0 && Count(NotifyProxyUnavailable, o.actions) == 0
  {
    if n > 0 {
      var r := Step(s, v, interval);
      assert r.state == Waiting || r.state == SendNop;
      assert r.actions == [] || r.actions == [SendNopToAps];
      assert r.vars == v || r.vars == v.(nopTimeout := (v.currentTime + interval) % 0x1_0000_0000);
      NopLivelock(n - 1, r.state, r.vars, interval);
      var rest := Steps(n - 1, r.state, r.vars, interval);
      StepsCons(n, s, v, interval);
      CountAppend(CloseTcpConnection, r.actions, rest.actions);
      CountAppend(NotifyProxyUnavailable, r.actions, rest.actions);
    }
  }

  /** A measure that every run decreases once the connection has been closed. */
  function Pending(v: Variables): nat
  {
    (if v.apsMsgIn then 1 else 0) + (if v.linkStatusMsg then 1 else 0)
    + (if v.apcMsgOut then 1 else 0) + (if NopDue(v) then 1 else 0)
  }

  function Rank(s: State, v: Variables): nat
  {
    var w := 3 * Pending(v);
    match s
    case Finish => 0
    case Closed => 1
    case Waiting => w + 2
    case SendMsg => w + 3
    case LinkStatus => w + 3
    case SendNop => w + 3
    case EntityIdAssigned => w + 3
    case StartTransfer => w + 3
    case ReceiveMsg => w + 4
    case Connected => w + 4
    case WaitForConnect => w + 5
    case Initialize => w + 6
    case Begin => w + 7
  }

  /** After a close, each run from a state other than BEGIN and FINISH lowers the rank and keeps the close recorded. */
  lemma RankDecreases(s: State, v: Variables, interval: Uint32, r: StepResult)
    requires s != Begin && s != Finish && v.incomingTcpClosed
    requires 0 < interval && v.currentTime + interval < 0x1_0000_0000
    requires r == Step(s, v, interval)
    ensures Rank(r.state, r.vars) < Rank(s, v)
            && r.vars.incomingTcpClosed && r.vars.currentTime == v.currentTime
            && r.state != Begin && (r.state == Finish ==> r.vars.finished)
  {
    match s
    case Waiting => RankDecreasesInWaiting(v, interval);
    case Initialize | WaitForConnect | Connected | StartTransfer =>
      RankDecreasesInSetup(s, v, interval, r);
    case ReceiveMsg => RankDecreasesInReceiveMsg(v, interval, r);
    case SendMsg | LinkStatus | EntityIdAssigned | SendNop | Closed =>
      RankDecreasesInSession(s, v, interval, r);
  }

  lemma RankDecreasesInSetup(s: State, v: Variables, interval: Uint32, r: StepResult)
    requires s == Initialize || s == WaitForConnect || s == Connected || s == StartTransfer
    requires v.incomingTcpClosed && r == Step(s, v, interval)
    ensures Rank(r.state, r.vars) < Rank(s, v)
            && r.vars.incomingTcpClosed && r.vars.currentTime == v.currentTime
            && r.state != Begin && r.state != Finish
  {
    match s
    case Initialize =>
    case WaitForConnect =>
    case Connected =>
    case StartTransfer =>
  }

  lemma RankDecreasesInReceiveMsg(v: Variables, interval: Uint32, r: StepResult)
    requires v.incomingTcpClosed && r == Step(ReceiveMsg, v, interval)
    ensures Rank(r.state, r.vars) < Rank(ReceiveMsg, v)
            && r.vars.incomingTcpClosed && r.vars.currentTime == v.currentTime
            && r.state != Begin && r.state != Finish
  {
    if v.apsMsg.messageType == EntityIdResponse.Code() {
      assert r.state == EntityIdAssigned;
      assert r.vars == v.(entityId := v.newId, idAssigned := true);
    } else {
      assert r.state == Waiting && r.vars == v;
    }
  }

  lemma RankDecreasesInSession(s: State, v: Variables, interval: Uint32, r: StepResult)
    requires s == SendMsg || s == LinkStatus || s == EntityIdAssigned || s == SendNop || s == Closed
    requires v.incomingTcpClosed && r == Step(s, v, interval)
    ensures Rank(r.state, r.vars) < Rank(s, v)
            && r.vars.incomingTcpClosed && r.vars.currentTime == v.currentTime
            && r.state != Begin && (r.state == Finish ==> r.vars.finished)
  {
    match s
    case SendMsg =>
    case LinkStatus =>
    case EntityIdAssigned =>
    case SendNop =>
    case Closed =>
  }

  lemma RankDecreasesInWaiting(v: Variables, interval: Uint32)
    requires v.incomingTcpClosed
    requires 0 < interval && v.currentTime + interval < 0x1_0000_0000
    ensures var r := Step(Waiting, v, interval);
            Rank(r.state, r.vars) < Rank(Waiting, v)
            && r.vars.incomingTcpClosed && r.vars.currentTime == v.currentTime
            && r.state != Begin && r.state != Finish
  {
    var r := Step(Waiting, v, interval);
    EnterKeeps(r.state, v, interval);
    if v.apsMsgIn {
      assert r.state == ReceiveMsg;
      assert !r.vars.apsMsgIn && r.vars.linkStatusMsg == v.linkStatusMsg && r.vars.apcMsgOut == v.apcMsgOut
             && r.vars.nopTimeout == v.nopTimeout;
    } else if v.linkStatusMsg {
      assert r.state == LinkStatus;
      assert !r.vars.linkStatusMsg && r.vars.apcMsgOut == v.apcMsgOut && r.vars.nopTimeout == v.nopTimeout;
    } else if v.apcMsgOut {
      assert r.state == SendMsg;
      assert !r.vars.apcMsgOut && r.vars.nopTimeout == v.nopTimeout;
    } else if NopDue(v) {
      assert r.state == SendNop;
      assert r.vars.nopTimeout == v.currentTime + interval;
    } else {
      assert r.state == Closed;
    }
  }

  /**
   * Once the connection is reported closed, whatever state the machine is in (past BEGIN),
   * running it Rank times reaches FINISH with finished set, and on the way it issues
   * closeTcpConnection() and notifyProxyUnavailable() exactly once each (none if it was
   * already past CLOSED's entry).
   */
  lemma {:induction false} CloseLeadsToFinish(n: nat, s: State, v: Variables, interval: Uint32)
    requires s != Begin && v.incomingTcpClosed
    requires s == Finish ==> v.finished
    requires 0 < interval && v.currentTime + interval < 0x1_0000_0000
    requires n >= Rank(s, v)
    ensures var o := Steps(n, s, v, interval);
            var once := if s == Closed || s == Finish then 0 else 1;
            o.state == Finish && o.vars.finished
            && Count(CloseTcpConnection, o.actions) == once
            && Count(NotifyProxyUnavailable, o.actions) == once
    decreases Rank(s, v), 1
  {
    if s == Finish {
      FinishIsTerminal(n, v, interval);
    } else {
      CloseLeadsToFinishStep(n, s, v, interval);
    }
  }

  /** The inductive case of CloseLeadsToFinish: one run, then the remaining runs by induction. */
  lemma {:induction false} CloseLeadsToFinishStep(n: nat, s: State, v: Variables, interval: Uint32)
    requires s != Begin && s != Finish && v.incomingTcpClosed
    requires 0 < interval && v.currentTime + interval < 0x1_0000_0000
    requires n >= Rank(s, v)
    ensures var o := Steps(n, s, v, interval);
            var once := if s == Closed || s == Finish then 0 else 1;
            o.state == Finish && o.vars.finished
            && Count(CloseTcpConnection, o.actions) == once
            && Count(NotifyProxyUnavailable, o.actions) == once
    decreases Rank(s, v), 0
  {
    var r := Step(s, v, interval);
    RankDecreases(s, v, interval, r);
    CloseLeadsToFinish(n - 1, r.state, r.vars, interval);
    var rest := Steps(n - 1, r.state, r.vars, interval);
    CloseStepCombine(n, s, v, interval, r, rest, if r.state == Closed || r.state == Finish then 0 else 1);
  }

  /** The inductive step of CloseLeadsToFinish: one run followed by the runs that finish. */
  lemma CloseStepCombine(n: nat, s: State, v: Variables, interval: Uint32, r: StepResult, rest: Outcome, once: nat)
    requires n > 0 && s != Finish && v.incomingTcpClosed
    requires r == Step(s, v, interval) && rest == Steps(n - 1, r.state, r.vars, interval)
    requires once == if r.state == Closed || r.state == Finish then 0 else 1
    requires rest.state == Finish && rest.vars.finished
    requires Count(CloseTcpConnection, rest.actions) == once && Count(NotifyProxyUnavailable, rest.actions) == once
    ensures var o := Steps(n, s, v, interval);
            var once := if s == Closed || s == Finish then 0 else 1;
            o.state == Finish && o.vars.finished
            && Count(CloseTcpConnection, o.actions) == once
            && Count(NotifyProxyUnavailable, o.actions) == once
  {
    StepClosingActions(s, v, interval);
    StepsCons(n, s, v, interval);
    CountAppend(CloseTcpConnection, r.actions, rest.actions);
    CountAppend(NotifyProxyUnavailable, r.actions, rest.actions);
  }

  /** One run issues the two closing actions exactly when it enters CLOSED; only CLOSED leads to FINISH. */
  lemma StepClosingActions(s: State, v: Variables, interval: Uint32)
    requires s != Finish && v.incomingTcpClosed
    ensures var r := Step(s, v, interval);
            var entered := if r.state == Closed then 1 else 0;
            Count(CloseTcpConnection, r.actions) == entered
            && Count(NotifyProxyUnavailable, r.actions) == entered
            && (r.state == Finish <==> s == Closed)
            && (r.state == Closed ==> s != Closed)
  {
    var r := Step(s, v, interval);
    if r.state == Closed {
      assert r.actions == [CloseTcpConnection, NotifyProxyUnavailable];
    } else {
      CountAbsent(CloseTcpConnection, r.actions);
      CountAbsent(NotifyProxyUnavailable, r.actions);
    }
  }

  // ---------------------------------------------------------------------------
  // Events: how the entry points update the variables
  // ---------------------------------------------------------------------------

  function OnIncomingTcpConnection(v: Variables): (r: Variables)
    ensures r.tcpConnected && r == v.(tcpConnected := r.tcpConnected)
  {
    v.(tcpConnected := true)
  }

  function OnTcpConnectionClosed(v: Variables): (r: Variables)
    ensures r.incomingTcpClosed && r == v.(incomingTcpClosed := r.incomingTcpClosed)
  {
    v.(incomingTcpClosed := true)
  }

  function OnTimeTick(v: Variables, timeInSeconds: Uint32): (r: Variables)
    ensures r.currentTime == timeInSeconds && r == v.(currentTime := r.currentTime)
  {
    v.(currentTime := timeInSeconds)
  }

  /** A local AVDECC frame for the proxy is wrapped as AVDECC_FROM_APC and queued in the outbound mailbox. */
  function OnNetAvdeccMessageReceived(v: Variables, frame: Frame): (r: Variables)
    ensures r.apcMsgOut && r.apcMsg.Kind() == Some(AvdeccFromApc)
    ensures r.apcMsg.address == frame.sa && r.apcMsg.payload == frame.payload
    ensures r == v.(apcMsg := r.apcMsg, apcMsgOut := true)
  {
    v.(apcMsg := v.apcMsg.SetAvdeccFromApc(frame), apcMsgOut := true)
  }

  function OnIncomingHttpResponse(v: Variables, valid: bool): (r: Variables)
    ensures r.responseReceived && (r.responseValid <==> valid)
    ensures r == v.(responseReceived := true, responseValid := r.responseValid)
  {
    v.(responseReceived := true, responseValid := valid)
  }

  /**
   * One decoded APPDU from the proxy: LINK_UP and LINK_DOWN go to the link mailbox, every
   * other known kind to the inbound mailbox (ENTITY_ID_RESPONSE also records the new id),
   * and an unknown kind is ignored.
   */
  predicate IsLinkEvent(m: AppMessage)
  {
    m.Kind() == Some(LinkUp) || m.Kind() == Some(LinkDown)
  }

  function Deliver(v: Variables, m: AppMessage): (r: Variables)
    ensures m.Kind().None? ==> r == v
    ensures IsLinkEvent(m) ==>
              r.linkStatusMsg && r.linkMsg == m && r.apsMsgIn == v.apsMsgIn && r.apsMsg == v.apsMsg
    ensures m.Kind().Some? && !IsLinkEvent(m) ==>
              r.apsMsgIn && r.apsMsg == m && r.linkStatusMsg == v.linkStatusMsg && r.linkMsg == v.linkMsg
    ensures m.Kind() == Some(EntityIdResponse) ==> r.newId == m.GetEntityIdResponseEntityId()
    ensures m.Kind() != Some(EntityIdResponse) ==> r.newId == v.newId
    ensures r.nopTimeout == v.nopTimeout && r.addr == v.addr && r.request == v.request && r.primaryMac == v.primaryMac
    ensures r.finished == v.finished && r.responseReceived == v.responseReceived && r.responseValid == v.responseValid
    ensures r.entityId == v.entityId && r.idAssigned == v.idAssigned && r.currentTime == v.currentTime
    ensures r.incomingTcpClosed == v.incomingTcpClosed && r.tcpConnected == v.tcpConnected
    ensures r.apcMsgOut == v.apcMsgOut && r.apcMsg == v.apcMsg
  {
    match m.Kind()
    case None => v
    case Some(LinkUp) => v.(linkMsg := m, linkStatusMsg := true)
    case Some(LinkDown) => v.(linkMsg := m, linkStatusMsg := true)
    case Some(EntityIdResponse) => v.(apsMsg := m, apsMsgIn := true, newId := m.GetEntityIdResponseEntityId())
    case Some(_) => v.(apsMsg := m, apsMsgIn := true)
  }

  function DeliverAll(v: Variables, ms: seq<AppMessage>): Variables
    decreases |ms|
  {
    if ms == [] then v else DeliverAll(Deliver(v, ms[0]), ms[1..])
  }

  lemma {:induction false} DeliverAllAppend(v: Variables, xs: seq<AppMessage>, ys: seq<AppMessage>)
    ensures DeliverAll(v, xs + ys) == DeliverAll(DeliverAll(v, xs), ys)
    decreases |xs|
  {
    if xs != [] {
      var v1 := Deliver(v, xs[0]);
      assert (xs + ys)[0] == xs[0];
      assert (xs + ys)[1..] == xs[1..] + ys;
      assert DeliverAll(v, xs + ys) == DeliverAll(v1, xs[1..] + ys);
      assert DeliverAll(v, xs) == DeliverAll(v1, xs[1..]);
      DeliverAllAppend(v1, xs[1..], ys);
    } else {
      assert xs + ys == ys;
    }
  }

  /**
   * The APP parser's loop invariant: the first `consumed` octets of `data` have been parsed
   * into `delivered`, and parsing the rest completes the parse of the whole.
   */
  ghost predicate ParsedUpTo(data: seq<Octet>, delivered: seq<AppMessage>, consumed: nat)
  {
    consumed <= |data|
    && ParseOf(data).messages == delivered + ParseOf(data[consumed..]).messages
    && ParseOf(data).consumed == consumed + ParseOf(data[consumed..]).consumed
  }

  /** ParseStream under a non-recursive name, so that the invariant's terms stay as written. */
  ghost function ParseOf(s: seq<Octet>): Parsed
  {
    ParseStream(s)
  }

  lemma ParsedUpToStart(data: seq<Octet>)
    ensures ParsedUpTo(data, [], 0)
  {
    assert data[0..] == data;
  }

  /** One pass of the APP parser's loop: the APPDU `m` of `size` octets found at `consumed` is handed on. */
  lemma AppDataStep(v0: Variables, data: seq<Octet>, delivered: seq<AppMessage>, consumed: nat, cur: Variables,
                    m: AppMessage, size: nat)
    requires ParsedUpTo(data, delivered, consumed)
    requires cur == DeliverAll(v0, delivered)
    requires DecodeFrame(data[consumed..]).Decoded?
    requires m == DecodeFrame(data[consumed..]).msg && size == DecodeFrame(data[consumed..]).size
    ensures ParsedUpTo(data, delivered + [m], consumed + size)
    ensures Deliver(cur, m) == DeliverAll(v0, delivered + [m])
  {
    ParseStreamAt(data, consumed);
    var here := ParseOf(data[consumed..]);
    var tail := ParseOf(data[consumed + size..]);
    assert here == Parsed([m] + tail.messages, size + tail.consumed);
    AppendCons(delivered, m, tail.messages);
    DeliverOne(v0, delivered, cur, m);
  }

  lemma AppendCons<T>(p: seq<T>, x: T, q: seq<T>)
    ensures p + ([x] + q) == (p + [x]) + q
  {
  }

  lemma ParseStreamAt(data: seq<Octet>, consumed: nat)
    requires consumed <= |data| && DecodeFrame(data[consumed..]).Decoded?
    ensures var d := DecodeFrame(data[consumed..]);
            var tail := ParseStream(data[consumed + d.size..]);
            consumed + d.size <= |data|
            && ParseStream(data[consumed..]) == Parsed([d.msg] + tail.messages, d.size + tail.consumed)
  {
    var d := DecodeFrame(data[consumed..]);
    ParseStreamUnfold(data[consumed..]);
    assert data[consumed..][d.size..] == data[consumed + d.size..];
  }

  lemma DeliverOne(v0: Variables, delivered: seq<AppMessage>, cur: Variables, m: AppMessage)
    requires cur == DeliverAll(v0, delivered)
    ensures Deliver(cur, m) == DeliverAll(v0, delivered + [m])
  {
    DeliverAllAppend(v0, delivered, [m]);
    assert DeliverAll(cur, [m]) == DeliverAll(Deliver(cur, m), []);
  }

  /** The APP parser's loop stops where no whole APPDU is left: everything parsed has been handed on. */
  lemma AppDataDone(data: seq<Octet>, delivered: seq<AppMessage>, consumed: nat)
    requires ParsedUpTo(data, delivered, consumed)
    requires !DecodeFrame(data[consumed..]).Decoded?
    ensures ParseStream(data) == Parsed(delivered, consumed)
  {
    assert ParseStream(data[consumed..]) == Parsed([], 0);
    assert delivered + [] == delivered;
  }

  /** What the HTTP client parser reports for the bytes it is offered. */
  datatype HttpOutcome = HttpOutcome(consumed: nat, complete: bool, valid: bool)

  /** The result of routing TCP bytes: the new phase flag and variables, and the count consumed. */
  datatype Routed = Routed(inHttp: bool, vars: Variables, consumed: nat)

  /** APP-phase bytes: every whole APPDU at the front is decoded and handed to its handler. */
  function AppData(v: Variables, data: seq<Octet>): (r: Routed)
    ensures !r.inHttp && r.consumed <= |data|
    ensures r.vars == DeliverAll(v, ParseStream(data).messages)
  {
    var p := ParseStream(data);
    Routed(false, DeliverAll(v, p.messages), p.consumed)
  }

  /**
   * The two-phase byte router: while in the HTTP phase the bytes go to the HTTP parser; when
   * it completes a response the response is recorded, the phase switches to APP, and the
   * rest of the same delivery is routed to the APP parser.
   */
  function RouteTcpData(inHttp: bool, v: Variables, data: seq<Octet>, http: HttpOutcome): (r: Routed)
    requires http.consumed <= |data|
    ensures r.consumed <= |data|
    ensures !inHttp ==> !r.inHttp
    ensures r.inHttp <==> inHttp && !http.complete
    ensures r.inHttp ==> r.vars == v && r.consumed == http.consumed
    ensures !inHttp ==> r == AppData(v, data)
    ensures inHttp && http.complete ==>
              var rest := ParseStream(data[http.consumed..]);
              r == Routed(false, DeliverAll(OnIncomingHttpResponse(v, http.valid), rest.messages), http.consumed + rest.consumed)
  {
    if !inHttp then AppData(v, data)
    else if !http.complete then Routed(true, v, http.consumed)
    else
      var rest := AppData(OnIncomingHttpResponse(v, http.valid), data[http.consumed..]);
      Routed(false, rest.vars, http.consumed + rest.consumed)
  }

  /**
   * A delivery that holds the end of the HTTP response followed by APP bytes is routed as if
   * it had been split at the end of the response: the first part records the response and
   * switches to the APP phase, and the rest is routed in the APP phase.
   */
  lemma ResponseBoundary(v: Variables, data: seq<Octet>, http: HttpOutcome)
    requires http.consumed <= |data| && http.complete
    ensures var c := http.consumed;
            var first := RouteTcpData(true, v, data[..c], http);
            var second := RouteTcpData(first.inHttp, first.vars, data[c..], HttpOutcome(0, false, false));
            first == Routed(false, OnIncomingHttpResponse(v, http.valid), c)
            && RouteTcpData(true, v, data, http) == Routed(false, second.vars, first.consumed + second.consumed)
  {
    var c := http.consumed;
    assert data[..c][c..] == [];
    assert DecodeFrame([]).Incomplete?;
    assert ParseStream([]) == Parsed([], 0);
  }

  /**
   * A delivery that completes the HTTP response can be split anywhere after the end of the
   * response: routing `a`, then resubmitting its unconsumed tail with `b` in the APP phase,
   * gives the same variables and consumed count as routing `a + b` at once.
   */
  lemma RouteSplit(v: Variables, a: seq<Octet>, b: seq<Octet>, http: HttpOutcome)
    requires http.consumed <= |a| && http.complete
    ensures var first := RouteTcpData(true, v, a, http);
            var second := AppData(first.vars, a[first.consumed..] + b);
            RouteTcpData(true, v, a + b, http) == Routed(false, second.vars, first.consumed + second.consumed)
  {
    var c := http.consumed;
    var w := OnIncomingHttpResponse(v, http.valid);
    assert (a + b)[c..] == a[c..] + b;
    var p := AppData(w, a[c..]);
    assert a[c..][p.consumed..] == a[c + p.consumed..];
    ChunkingInvariance(w, a[c..], b);
  }

  /**
   * In the APP phase the chunking of the stream does not matter: delivering `a`, then
   * resubmitting its unconsumed tail together with `b`, hands the handlers the same messages
   * and consumes the same octets as delivering `a + b` at once.
   */
  lemma ChunkingInvariance(v: Variables, a: seq<Octet>, b: seq<Octet>)
    ensures var first := AppData(v, a);
            var second := AppData(first.vars, a[first.consumed..] + b);
            AppData(v, a + b) == Routed(false, second.vars, first.consumed + second.consumed)
  {
    var p := ParseStream(a);
    var q := ParseStream(a[p.consumed..] + b);
    ParseStreamSplit(a, b);
    DeliverAllAppend(v, p.messages, q.messages);
  }
}
