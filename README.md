# jdksavdecc-mcu AVDECC Proxy Client, modelled in Dafny

This project models the core of the AVDECC Proxy Protocol client in jdksavdecc-mcu. The
protocol is defined in IEEE Std 1722.1-2013 Annex C. The core has three layers:

- **`Eui` (eui.dfy).** The `Eui48` (MAC address) and `Eui64` (entity id) value types.
  - Each is a fixed-length octet string, most significant octet first.
  - The default value FF:..:FF is the "unset" sentinel.
  - Each converts to and from a right-justified `uint64_t` and has a numeric three-way
    `compare`. The six relational operators are derived from `compare`.
  - Each has a text form with `:` or `-` separators.
  - `Eui48_set`/`Eui64_set` store a value into a caller's buffer at a position, and
    `Eui48_get`/`Eui64_get` load it back.
- **`AppMessages` (app_message.dfy).** One APPDU of the proxy protocol.
  - The message types and their fixed codes.
  - One setter per message kind.
  - The guarded entity-id extractors.
  - `store`, which serialises the message into a `FixedBuffer` object. The wire layout is
    the 12-octet header of Annex C.4: version, message_type, big-endian payload_length,
    the 6-octet address and 2 reserved octets, then the payload.
  - The decoding side. It reads whole APPDUs back from a byte stream, as the APP parser
    behind `onIncomingTcpAppData` does.
- **`Apc` (apc.dfy) and `ApcMachine` (apc_machine.dfy).** The APC state machine of Figure
  C.3.
  - `Apc` states the machine as pure functions:
    - the state variables of Annex C.5.3.1;
    - the actions of Annex C.5.3.2, as values recorded in a trace;
    - the exit guards (`Next`) and entry actions (`Enter`) of the thirteen states;
    - one `run()` step (`Step`);
    - the event entry points;
    - the two-phase HTTP→APP byte router.
  - `ApcMachine.ApcStateMachine` is the imperative object. Its fields are the current
    state, the variables, the `m_in_http` phase flag and the action trace. Its methods are `clear`, the setters, one `goTo*` method per state, `run` and
    the event handlers. Each method is proved against the functions of `Apc`. The APP
    parsing loop is proved against `ParseStream`, with a loop invariant.

Apc.hpp declares the classes and methods but gives no bodies for them. Each `goTo*`/`do*`
doc comment names the Figure C.3 box that it implements. So the transition relation
follows Figure C.3:

- WAITING checks, in order:
  - `apsMsgIn`;
  - `linkStatusMsg`;
  - `apcMsgOut`;
  - the NOP time-out;
  - `incomingTcpClosed`.
- RECEIVE_MSG records the entity id of an ENTITY_ID_RESPONSE and then goes to
  ENTITY_ID_ASSIGNED. It hands an AVDECC_FROM_APS message to `processMsg`.
- INITIALIZE resets the session flags (including `incomingTcpClosed`) and mailboxes. It keeps the configured proxy
  address, HTTP request, primary MAC and entity id.
- The per-kind `onApp*` handlers put LINK_UP and LINK_DOWN in the link mailbox. Every other
  known kind goes to the inbound mailbox. ENTITY_ID_RESPONSE also records `newId`. Unknown
  kinds are ignored.

Time is a `uint32_t`. Setting the NOP deadline wraps modulo 2^32. The lemmas about the NOP
keep-alive and about closing need a positive interval and a deadline that does not overflow,
and the closing lemmas hold past BEGIN only: INITIALIZE clears a close recorded in BEGIN.

## Model

| member | source | states |
|---|---|---|
| Eui.CompareOctetsIsNumeric | include/JDKSAvdeccMCU_Eui.hpp:131-139 | the octet-wise compare from the most significant octet returns -1, 0 or 1; it is negative iff the big-endian value is smaller, 0 iff the octets are equal, and positive iff the value is larger |
| Eui.BigEndianOfToOctets | include/JDKSAvdeccMCU_Eui.hpp:76-80 | writing the low n octets of v and reading them back gives v mod 256^n |
| Eui.ToOctetsOfBigEndian | include/JDKSAvdeccMCU_Eui.hpp:116-123 | reading an octet string as a number and writing it back gives the same octets |
| Eui.ParseFormatOctets | include/JDKSAvdeccMCU_Eui.hpp:82-103 | with either ':' or '-' as separator, parsing the two-digit hex text of n octets gives those n octets back |
| Eui.Eui48.FromOctets | include/JDKSAvdeccMCU_Eui.hpp:57-65 | the six arguments are the octets in order, the first one most significant: the numeric value is a·256^5 + … + f |
| Eui.Eui48.FromUint64 | include/JDKSAvdeccMCU_Eui.hpp:76-80 | the EUI-48 built from a right-justified uint64_t has numeric value v mod 2^48 (the low 48 bits) |
| Eui.Eui48.Parse | include/JDKSAvdeccMCU_Eui.hpp:82-103 | the text is accepted only in the 17-character form; Eui48TextForms gives its round trip |
| Eui.Eui48.ToUint64 | include/JDKSAvdeccMCU_Eui.hpp:116-123 | the right-justified value is always below 2^48 |
| Eui.Eui48.IsSet | include/JDKSAvdeccMCU_Eui.hpp:125-129 | true exactly when the value is not FF:FF:FF:FF:FF:FF (the default) |
| Eui.Eui48.IsUnset | include/JDKSAvdeccMCU_Eui.hpp:286-289 | true exactly when the value is the default FF:FF:FF:FF:FF:FF |
| Eui.Eui48.Compare | include/JDKSAvdeccMCU_Eui.hpp:136-139 | result in {-1, 0, 1}; negative iff this value is numerically smaller, 0 iff the two are equal, positive iff larger |
| Eui.Eui48.Less | include/JDKSAvdeccMCU_Eui.hpp:141 | `<` holds iff the numeric value is smaller |
| Eui.Eui48.LessOrEqual | include/JDKSAvdeccMCU_Eui.hpp:143-146 | `<=` holds iff the numeric value is not larger |
| Eui.Eui48.Equal | include/JDKSAvdeccMCU_Eui.hpp:148-151 | `==` holds iff the two values are identical |
| Eui.Eui48.GreaterOrEqual | include/JDKSAvdeccMCU_Eui.hpp:153-156 | `>=` holds iff the numeric value is not smaller |
| Eui.Eui48.Greater | include/JDKSAvdeccMCU_Eui.hpp:158 | `>` holds iff the numeric value is larger |
| Eui.Eui48.NotEqual | include/JDKSAvdeccMCU_Eui.hpp:160-163 | `!=` holds iff the two values differ |
| Eui.Eui48Uint64RoundTrip | include/JDKSAvdeccMCU_Eui.hpp:116-123 | converting an EUI-48 to uint64_t and constructing from the result gives the same EUI-48 |
| Eui.Eui48DefaultIsMaximum | include/JDKSAvdeccMCU_Eui.hpp:46-51 | the default (all 0xFF) value converts to 2^48 - 1, every EUI-48 is `<=` it, and it is the only value that converts to 2^48 - 1 |
| Eui.Eui48TextForms | include/JDKSAvdeccMCU_Eui.hpp:82-103 | the "UU:VV:WW:XX:YY:ZZ" and "UU-VV-WW-XX-YY-ZZ" forms of a value both parse back to that value |
| Eui.Eui64.FromOctets | include/JDKSAvdeccMCU_Eui.hpp:171-188 | the eight arguments are the octets in order, the first one most significant |
| Eui.Eui64.FromUint64 | include/JDKSAvdeccMCU_Eui.hpp:195 | the EUI-64 built from a uint64_t converts back to that same number |
| Eui.Eui64.Parse | include/JDKSAvdeccMCU_Eui.hpp:197-202 | the text is accepted only in the 23-character form; Eui64TextForms gives its round trip |
| Eui.Eui64.IsSet | include/JDKSAvdeccMCU_Eui.hpp:215 | true exactly when the value is not the all-0xFF default |
| Eui.Eui64.IsUnset | include/JDKSAvdeccMCU_Eui.hpp:296-299 | true exactly when the value is the all-0xFF default |
| Eui.Eui64.IsZero | include/JDKSAvdeccMCU_Eui.hpp:301-304 | every octet is zero iff the numeric value is 0 |
| Eui.Eui64.Compare | include/JDKSAvdeccMCU_Eui.hpp:217-220 | result in {-1, 0, 1}, with its sign equal to the sign of the numeric difference, and 0 iff the values are identical |
| Eui.Eui64.Less | include/JDKSAvdeccMCU_Eui.hpp:222 | `<` holds iff the numeric value is smaller |
| Eui.Eui64.LessOrEqual | include/JDKSAvdeccMCU_Eui.hpp:224-227 | `<=` holds iff the numeric value is not larger |
| Eui.Eui64.Equal | include/JDKSAvdeccMCU_Eui.hpp:229-232 | `==` holds iff the two values are identical |
| Eui.Eui64.GreaterOrEqual | include/JDKSAvdeccMCU_Eui.hpp:234-237 | `>=` holds iff the numeric value is not smaller |
| Eui.Eui64.Greater | include/JDKSAvdeccMCU_Eui.hpp:239 | `>` holds iff the numeric value is larger |
| Eui.Eui64.NotEqual | include/JDKSAvdeccMCU_Eui.hpp:241-244 | `!=` holds iff the two values differ |
| Eui.Eui64Uint64RoundTrip | include/JDKSAvdeccMCU_Eui.hpp:210-213 | converting an EUI-64 to uint64_t and constructing from the result gives the same EUI-64 |
| Eui.Eui64TextForms | include/JDKSAvdeccMCU_Eui.hpp:197-202 | both separator forms of an EUI-64's text parse back to that value |
| Eui.WriteOctets | include/JDKSAvdeccMCU_Eui.hpp:247-250 | the octets land at buf[pos..pos+n] and every other octet of the buffer is unchanged |
| Eui.Eui48Set | include/JDKSAvdeccMCU_Eui.hpp:247-250 | after storing v at pos, `Eui48_get` at pos returns v; octets outside pos..pos+6 are unchanged |
| Eui.Eui64Set | include/JDKSAvdeccMCU_Eui.hpp:258-261 | after storing v at pos, `Eui64_get` at pos returns v; octets outside pos..pos+8 are unchanged |
| AppMessages.TypeOf | include/JDKSAvdeccMCU/AppMessage.hpp:52-62 | a code names a message type iff it is 0..6 or 0xFF, and the type it names has that code |
| AppMessages.CodesAreFixed | include/JDKSAvdeccMCU/AppMessage.hpp:52-62 | each message type's code names that type back, and distinct types have distinct codes |
| AppMessages.AppMessage.Create | include/JDKSAvdeccMCU/AppMessage.hpp:69-73 | a new message is a NOP (code 0) with an empty payload |
| AppMessages.AppMessage.Clear | include/JDKSAvdeccMCU/AppMessage.hpp:101 | like setNOP: a NOP of version 0 with the zero address and an empty payload |
| AppMessages.AppMessage.SetNop | include/JDKSAvdeccMCU/AppMessage.hpp:109 | the message becomes a NOP of version 0 with the zero address and an empty payload |
| AppMessages.AppMessage.SetEntityIdRequest | include/JDKSAvdeccMCU/AppMessage.hpp:120-123 | the type is ENTITY_ID_REQUEST, the address is the APC's MAC, getEntityIdRequestEntityId returns the requested id, and the response extractor returns the default |
| AppMessages.AppMessage.SetEntityIdResponse | include/JDKSAvdeccMCU/AppMessage.hpp:134-137 | the type is ENTITY_ID_RESPONSE, the address is the APC's MAC, getEntityIdResponseEntityId returns the id, and the request extractor returns the default |
| AppMessages.AppMessage.SetLinkUp | include/JDKSAvdeccMCU/AppMessage.hpp:147 | the type is LINK_UP, the address is the port MAC, and the payload is empty |
| AppMessages.AppMessage.SetLinkDown | include/JDKSAvdeccMCU/AppMessage.hpp:157 | the type is LINK_DOWN, the address is the port MAC, and the payload is empty |
| AppMessages.AppMessage.SetAvdeccFromAps | include/JDKSAvdeccMCU/AppMessage.hpp:168-171 | the type is AVDECC_FROM_APS, and the address and payload are the frame's source address and payload |
| AppMessages.AppMessage.SetAvdeccFromApc | include/JDKSAvdeccMCU/AppMessage.hpp:182-185 | the type is AVDECC_FROM_APC, and the address and payload are the frame's source address and payload |
| AppMessages.AppMessage.SetVendor | include/JDKSAvdeccMCU/AppMessage.hpp:196-199 | the type is VENDOR, the address is the vendor message type, and the payload is the given buffer's contents |
| AppMessages.AppMessage.GetPayloadLength | include/JDKSAvdeccMCU/AppMessage.hpp:235 | the payload length never exceeds the 1500-octet payload buffer |
| AppMessages.AppMessage.GetEntityIdRequestEntityId | include/JDKSAvdeccMCU/AppMessage.hpp:263-271 | the 8 payload octets when the type is ENTITY_ID_REQUEST and payload_length is exactly 8; otherwise the default Eui64 |
| AppMessages.AppMessage.GetEntityIdResponseEntityId | include/JDKSAvdeccMCU/AppMessage.hpp:281-289 | the 8 payload octets when the type is ENTITY_ID_RESPONSE and payload_length is exactly 8; otherwise the default Eui64 |
| AppMessages.AppMessage.Encode | include/JDKSAvdeccMCU/AppMessage.hpp:302 | the APPDU is 12 header octets followed by exactly the payload: octet 0 is the version, octet 1 the message type, octets 2-3 the big-endian payload length, octets 4-9 the address, octets 10-11 zero; DecodeEncode is its inverse |
| AppMessages.AppMessage.WriteResult | include/JDKSAvdeccMCU/AppMessage.hpp:302 | the writer's result is positive iff the APPDU fits after offset in the buffer, and is then the position just past it |
| AppMessages.AppMessage.Store | include/JDKSAvdeccMCU/AppMessage.hpp:298-308 | returns true iff the writer's result is positive; on success the length is that result, the APPDU lies at offset, and the octets before offset are kept; on failure the buffer is left empty |
| AppMessages.FixedBuffer.Clear | include/JDKSAvdeccMCU/AppMessage.hpp:301 | the buffer's length becomes 0 |
| AppMessages.FixedBuffer.SetLength | include/JDKSAvdeccMCU/AppMessage.hpp:305 | the buffer's length becomes the given count, within capacity |
| AppMessages.DecodeFrame | include/JDKSAvdeccMCU/Apc.hpp:777-786 | a whole APPDU is read exactly when its 12-octet header and payload_length payload octets are all present; the payload is the octets after the header; the result is incomplete iff octets are missing, and oversized iff the header's payload_length exceeds the 1500-octet payload buffer |
| AppMessages.DecodeEncode | include/JDKSAvdeccMCU/AppMessage.hpp:298-308 | reading back what store writes gives the same message and its full size, whatever octets follow |
| AppMessages.DecodeFrameStable | include/JDKSAvdeccMCU/Apc.hpp:777-786 | once the front of the stream decodes or is rejected, more arriving octets do not change that result |
| AppMessages.ParseStream | include/JDKSAvdeccMCU/Apc.hpp:777-786 | the octets consumed never exceed the octets offered, and they are zero exactly when no message is produced |
| AppMessages.ParseStreamSplit | include/JDKSAvdeccMCU/Apc.hpp:777-786 | parsing a, then resubmitting its unconsumed tail with b, gives the same messages in the same order and the same consumed count as parsing a + b at once |
| AppMessages.ParseEncodeAll | include/JDKSAvdeccMCU/Apc.hpp:777-786 | a stream of encoded APPDUs parses back to exactly those messages and is consumed entirely |
| Apc.Variables.Cleared | include/JDKSAvdeccMCU/Apc.hpp:108-111 | every flag false, times zero, strings empty, and entity ids and MAC at their unset defaults |
| Apc.SessionReset | include/JDKSAvdeccMCU/Apc.hpp:411-419 | INITIALIZE clears every session flag, sets nopTimeout to 0, clears responseValid and newId, empties the three mailboxes, and keeps the proxy address, the HTTP request, the primary MAC, the entity id and the clock |
| Apc.Next | include/JDKSAvdeccMCU/Apc.hpp:401-639 | FINISH has no exit; only WAIT_FOR_CONNECT, CONNECTED, WAITING and FINISH can wait; once the close is recorded, every other state leaves |
| Apc.Step | include/JDKSAvdeccMCU/Apc.hpp:394-399 | run() returns false iff the machine is in FINISH, where it changes nothing; a state whose guards all fail stays put with no actions |
| Apc.EnterKeeps | include/JDKSAvdeccMCU/Apc.hpp:409-639 | entering any state except INITIALIZE keeps the close flag, the clock and the primary MAC |
| Apc.EnterClosingActions | include/JDKSAvdeccMCU/Apc.hpp:511-519 | entering CLOSED issues closeTcpConnection then notifyProxyUnavailable, and entering no other state issues either one |
| Apc.FinishIsTerminal | include/JDKSAvdeccMCU/Apc.hpp:633-639 | any number of runs from FINISH leave the state and variables unchanged and issue no action |
| Apc.Quiescent | include/JDKSAvdeccMCU/Apc.hpp:394-399 | a state with no enabled exit stays unchanged over any number of runs |
| Apc.Startup | include/JDKSAvdeccMCU/Apc.hpp:401-449 | from BEGIN, runs issue initialize() then connectToProxy(addr) and stay in WAIT_FOR_CONNECT with the session reset |
| Apc.Handshake | include/JDKSAvdeccMCU/Apc.hpp:451-509 | after the connection is reported, one run sends the HTTP request; after a valid response, two runs send exactly one id request with the primary MAC and entity id and reach WAITING, whose next run sends a NOP exactly when one is due |
| Apc.SessionStart | include/JDKSAvdeccMCU/Apc.hpp:401-509 | from BEGIN: two runs issue initialize() and connectToProxy(addr); after the connection, one run sends the HTTP request; after a valid response, two runs send one id request and reach WAITING; the next run sends the first NOP, since INITIALIZE left nopTimeout at 0 |
| Apc.EntityIdAssignment | include/JDKSAvdeccMCU/Apc.hpp:587-603 | an ENTITY_ID_RESPONSE(mac, id) delivered in an idle WAITING leads in three runs back to WAITING, with entityId = id, idAssigned set, and exactly one notifyNewEntityId(id), whatever the clock; the next run sends a NOP exactly when one is due |
| Apc.RunEntityIdResponse | include/JDKSAvdeccMCU/Apc.hpp:551-567 | with an ENTITY_ID_RESPONSE in the inbound mailbox, whatever else is pending, RECEIVE_MSG takes its entity id and ENTITY_ID_ASSIGNED adopts it and notifies it once; only the mailbox flag, newId, entityId and idAssigned change |
| Apc.NopLivelock | include/JDKSAvdeccMCU/Apc.hpp:605-621 | when a NOP's new timeout is not after the clock (interval 0, or a wrapped sum), WAITING and SEND_NOP alternate for any number of runs and never close the connection or report the proxy unavailable, even after a close |
| Apc.NopKeepAlive | include/JDKSAvdeccMCU/Apc.hpp:605-621 | once the clock reaches nopTimeout in an idle WAITING, two runs send exactly one NOP, move nopTimeout past the clock, change nothing else and come back to WAITING |
| Apc.RankDecreases | include/JDKSAvdeccMCU/Apc.hpp:394-399 | after a close recorded past BEGIN, each run lowers a well-founded rank and keeps the close recorded |
| Apc.StepClosingActions | include/JDKSAvdeccMCU/Apc.hpp:511-529 | after a close, a run issues the two closing actions exactly when it enters CLOSED, and reaches FINISH exactly from CLOSED |
| Apc.CloseLostInBegin | include/JDKSAvdeccMCU/Apc.hpp:401-449 | a close recorded in BEGIN is cleared by INITIALIZE: the machine stays in WAIT_FOR_CONNECT and never issues closeTcpConnection or notifyProxyUnavailable |
| Apc.CloseLeadsToFinish | include/JDKSAvdeccMCU/Apc.hpp:511-529 | once incomingTcpClosed is set in any state past BEGIN, enough runs reach FINISH with finished set, issuing closeTcpConnection and notifyProxyUnavailable exactly once each (none if CLOSED was already entered) |
| Apc.OnIncomingTcpConnection | include/JDKSAvdeccMCU/Apc.hpp:697-703 | sets tcpConnected and changes no other variable |
| Apc.OnTcpConnectionClosed | include/JDKSAvdeccMCU/Apc.hpp:705-712 | sets incomingTcpClosed and changes no other variable |
| Apc.OnTimeTick | include/JDKSAvdeccMCU/Apc.hpp:736-744 | sets currentTime to the given time and changes no other variable |
| Apc.OnNetAvdeccMessageReceived | include/JDKSAvdeccMCU/Apc.hpp:726-734 | the frame is wrapped as AVDECC_FROM_APC with its source address and payload, and queued in the outbound mailbox; nothing else changes |
| Apc.OnIncomingHttpResponse | include/JDKSAvdeccMCU/Apc.hpp:769-774 | records that a response was received, and whether it was valid; nothing else changes |
| Apc.Deliver | include/JDKSAvdeccMCU/Apc.hpp:788-868 | an unknown kind changes nothing; LINK_UP/LINK_DOWN fill the link mailbox; every other kind fills the inbound mailbox; ENTITY_ID_RESPONSE records newId and every other kind keeps it; ids, clock, nopTimeout, address, request, outbound mailbox and every connection and response flag are kept |
| Apc.DeliverAllAppend | include/JDKSAvdeccMCU/Apc.hpp:788-868 | handing over xs then ys has the same effect as handing over xs + ys |
| Apc.AppDataStep | include/JDKSAvdeccMCU/Apc.hpp:776-786 | one whole APPDU at the parse position extends the parsed prefix by that message and its size, and dispatching it extends the delivered effect |
| Apc.AppDataDone | include/JDKSAvdeccMCU/Apc.hpp:776-786 | when no whole APPDU is left at the parse position, the messages delivered so far are all of the stream's messages |
| Apc.AppData | include/JDKSAvdeccMCU/Apc.hpp:776-786 | APP-phase octets: stays in the APP phase, consumes at most what was offered, and hands on the stream's whole messages in order |
| Apc.RouteTcpData | include/JDKSAvdeccMCU/Apc.hpp:714-724 | consumes at most len octets; the phase leaves HTTP only when a response completes and never returns to it; while in HTTP, nothing but the HTTP parser's count changes; in the APP phase the octets go to the APP parser; when a response completes, it is recorded and the rest of the same delivery is parsed as APPDUs |
| Apc.ResponseBoundary | include/JDKSAvdeccMCU/Apc.hpp:714-724 | a delivery holding the end of the HTTP response and APP octets after it is routed exactly as the same octets split at the end of the response |
| Apc.RouteSplit | include/JDKSAvdeccMCU/Apc.hpp:714-724 | a delivery that completes the HTTP response, split anywhere after the end of the response, routes to the same variables and consumed count as the whole |
| Apc.ChunkingInvariance | include/JDKSAvdeccMCU/Apc.hpp:776-786 | in the APP phase, the split of the stream into TCP deliveries does not change the variables or the octets consumed |
| ApcMachine.ApcStateMachine.constructor | include/JDKSAvdeccMCU/Apc.hpp:333-338 | a new machine is in BEGIN with cleared variables except the request path, in the HTTP phase, with an empty trace and a positive NOP interval |
| ApcMachine.ApcStateMachine.ClearVariables | include/JDKSAvdeccMCU/Apc.hpp:108-111 | every variable is reset to its default, and nothing else changes |
| ApcMachine.ApcStateMachine.ClearStates | include/JDKSAvdeccMCU/Apc.hpp:388-392 | every variable is cleared and the current state returns to BEGIN; the phase and trace are kept |
| ApcMachine.ApcStateMachine.ClearEvents | include/JDKSAvdeccMCU/Apc.hpp:690-695 | the byte router returns to its HTTP phase, and nothing else changes |
| ApcMachine.ApcStateMachine.Clear | include/JDKSAvdeccMCU/Apc.hpp:57 | BEGIN, every variable at its default, HTTP phase; the trace is kept |
| ApcMachine.ApcStateMachine.SetPrimaryMac | include/JDKSAvdeccMCU/Apc.hpp:59 | only primaryMac changes |
| ApcMachine.ApcStateMachine.SetEntityId | include/JDKSAvdeccMCU/Apc.hpp:60 | only entityId changes |
| ApcMachine.ApcStateMachine.SetApsAddress | include/JDKSAvdeccMCU/Apc.hpp:62 | only the proxy address changes |
| ApcMachine.ApcStateMachine.SetPath | include/JDKSAvdeccMCU/Apc.hpp:63 | only the request variable changes, to the path; CONNECTED sends it |
| ApcMachine.ApcStateMachine.GoToInitialize | include/JDKSAvdeccMCU/Apc.hpp:411-419 | INITIALIZE is current, its entry (session reset, initialize()) is applied, nothing else changes |
| ApcMachine.ApcStateMachine.GoToWaitForConnect | include/JDKSAvdeccMCU/Apc.hpp:431-439 | WAIT_FOR_CONNECT is current and connectToProxy(addr) is issued |
| ApcMachine.ApcStateMachine.GoToConnected | include/JDKSAvdeccMCU/Apc.hpp:451-459 | CONNECTED is current and the HTTP request is sent |
| ApcMachine.ApcStateMachine.GoToStartTransfer | include/JDKSAvdeccMCU/Apc.hpp:471-479 | START_TRANSFER is current and sendIdRequest(primaryMac, entityId) is issued |
| ApcMachine.ApcStateMachine.GoToWaiting | include/JDKSAvdeccMCU/Apc.hpp:491-499 | WAITING is current; nothing else changes |
| ApcMachine.ApcStateMachine.GoToReceiveMsg | include/JDKSAvdeccMCU/Apc.hpp:551-559 | RECEIVE_MSG is current, apsMsgIn is cleared, a response's id is recorded, and an AVDECC_FROM_APS message goes to processMsg |
| ApcMachine.ApcStateMachine.GoToSendMsg | include/JDKSAvdeccMCU/Apc.hpp:569-577 | SEND_MSG is current, apcMsg is sent to the proxy, and apcMsgOut is cleared |
| ApcMachine.ApcStateMachine.GoToLinkStatus | include/JDKSAvdeccMCU/Apc.hpp:531-539 | LINK_STATUS is current, linkMsg is notified, and linkStatusMsg is cleared |
| ApcMachine.ApcStateMachine.GoToEntityIdAssigned | include/JDKSAvdeccMCU/Apc.hpp:587-595 | ENTITY_ID_ASSIGNED is current, entityId := newId, idAssigned is set, and the new id is notified |
| ApcMachine.ApcStateMachine.GoToSendNop | include/JDKSAvdeccMCU/Apc.hpp:605-613 | SEND_NOP is current, a NOP is sent, and nopTimeout becomes currentTime + interval (mod 2^32) |
| ApcMachine.ApcStateMachine.GoToClosed | include/JDKSAvdeccMCU/Apc.hpp:511-519 | CLOSED is current, and closeTcpConnection and notifyProxyUnavailable are issued |
| ApcMachine.ApcStateMachine.GoToFinish | include/JDKSAvdeccMCU/Apc.hpp:623-631 | FINISH is current and finished is set |
| ApcMachine.ApcStateMachine.Run | include/JDKSAvdeccMCU/Apc.hpp:394-399 | the new state, variables, issued actions and return value are exactly one Step of the previous state; the phase is kept |
| ApcMachine.ApcStateMachine.OnIncomingTcpConnection | include/JDKSAvdeccMCU/Apc.hpp:697-703 | the variables change as Apc.OnIncomingTcpConnection says; the state does not change |
| ApcMachine.ApcStateMachine.OnTcpConnectionClosed | include/JDKSAvdeccMCU/Apc.hpp:705-712 | the variables change as Apc.OnTcpConnectionClosed says; the state does not change |
| ApcMachine.ApcStateMachine.OnTimeTick | include/JDKSAvdeccMCU/Apc.hpp:736-744 | the variables change as Apc.OnTimeTick says; the state does not change |
| ApcMachine.ApcStateMachine.OnNetAvdeccMessageReceived | include/JDKSAvdeccMCU/Apc.hpp:726-734 | the frame is queued as AVDECC_FROM_APC, as Apc.OnNetAvdeccMessageReceived says; the state does not change |
| ApcMachine.ApcStateMachine.SendTcpData | include/JDKSAvdeccMCU/Apc.hpp:746-754 | the octets are handed to the connection (appended to the trace), and nothing else changes |
| ApcMachine.ApcStateMachine.OnIncomingHttpResponse | include/JDKSAvdeccMCU/Apc.hpp:769-774 | the response and its validity are recorded; the state does not change |
| ApcMachine.ApcStateMachine.OnIncomingTcpHttpData | include/JDKSAvdeccMCU/Apc.hpp:757-767 | returns the HTTP parser's count; a complete response is recorded and ends the HTTP phase; otherwise nothing changes |
| ApcMachine.ApcStateMachine.OnIncomingTcpData | include/JDKSAvdeccMCU/Apc.hpp:714-724 | phase, variables and consumed count are exactly those of RouteTcpData; the state and trace do not change |
| ApcMachine.ApcStateMachine.OnIncomingTcpAppData | include/JDKSAvdeccMCU/Apc.hpp:776-786 | consumes exactly the octets of the whole APPDUs at the front, and dispatches each of them in order |
| ApcMachine.ApcStateMachine.DispatchAt | include/JDKSAvdeccMCU/Apc.hpp:776-786 | one pass of the APP loop: either no whole APPDU is left and everything parsed was delivered, or one more APPDU is parsed and dispatched |
| ApcMachine.ApcStateMachine.OnAppMessage | include/JDKSAvdeccMCU/Apc.hpp:788-868 | dispatching by kind updates the variables as Deliver says |
| ApcMachine.ApcStateMachine.OnAppNop | include/JDKSAvdeccMCU/Apc.hpp:789-796 | the NOP is put in the inbound mailbox |
| ApcMachine.ApcStateMachine.OnAppEntityIdRequest | include/JDKSAvdeccMCU/Apc.hpp:798-805 | the request is put in the inbound mailbox |
| ApcMachine.ApcStateMachine.OnAppEntityIdResponse | include/JDKSAvdeccMCU/Apc.hpp:807-814 | the response is put in the inbound mailbox, and its entity id is recorded as newId |
| ApcMachine.ApcStateMachine.OnAppLinkUp | include/JDKSAvdeccMCU/Apc.hpp:816-823 | the message is put in the link mailbox |
| ApcMachine.ApcStateMachine.OnAppLinkDown | include/JDKSAvdeccMCU/Apc.hpp:825-832 | the message is put in the link mailbox |
| ApcMachine.ApcStateMachine.OnAppAvdeccFromAps | include/JDKSAvdeccMCU/Apc.hpp:834-841 | the message is put in the inbound mailbox |
| ApcMachine.ApcStateMachine.OnAppAvdeccFromApc | include/JDKSAvdeccMCU/Apc.hpp:843-850 | the message is put in the inbound mailbox |
| ApcMachine.ApcStateMachine.OnAppVendor | include/JDKSAvdeccMCU/Apc.hpp:852-859 | the message is put in the inbound mailbox |
| ApcMachine.ApcStateMachine.OnAppUnknown | include/JDKSAvdeccMCU/Apc.hpp:861-868 | a message of unknown kind is ignored: nothing changes |

## Left out

- `operator<<` for EUIs (include/JDKSAvdeccMCU_Eui.hpp:307-325) is not modelled, because it is stream output. `Format` gives the text form that the parser reads back.
- Eui.Eui48.Parse, Eui.Eui64.Parse: these model well-formed text only. Two hex digits per octet, in either case, with ':' or '-' between octets. Any other text is rejected with None. The C helper that parses the text is not part of this model, so its handling of malformed text (what it leaves in the value) is not captured.
- The copy constructors and assignment operators of `Eui48`, `Eui64` and `AppMessage` (include/JDKSAvdeccMCU/AppMessage.hpp:81, 89-94) are Dafny value semantics. Every model value is immutable, so a copy never shares its payload with the original.
- The `AppMessage` setters overwrite the message in place in the source. Here they return the new message value. The two readings agree because `AppMessage` has value semantics.
- `getPayload`, `getVersion` and `getMessageType` are the datatype's fields `payload`, `version` and `messageType`. `getAddress` is AppMessages.AppMessage.GetAddress, which returns the `address` field.
- AppMessages.AppMessage.GetAddress, Eui.Eui48Get, Eui.Eui64Get: these accessors have no contract of their own. The setters' ensures state what GetAddress returns, and Eui.Eui48Set and Eui.Eui64Set state that the getter reads back what was stored.
- `FixedBuffer` is modelled only as far as `store` uses it: an octet array of fixed capacity with a current length. FixedBuffer.hpp is not part of this model.
- `Frame` is modelled only as its source address and payload. Frame.hpp is not part of this model.
- The jdksavdecc C helpers are not modelled beyond the APPDU header layout of IEEE Std 1722.1-2013 Annex C.4.
- AppMessages.AppMessage.WriteResult follows the jdksavdecc convention that the writer returns the position just past what it wrote, or -1 when the APPDU does not fit.
- The APP reassembler (`AppMessageParser`) is not part of this model. The model delivers whole decoded APPDUs and consumes exactly their octets. An unfinished APPDU is left for the caller to offer again with more octets.
- A header whose payload_length exceeds the 1500-octet payload buffer (`Oversized`) stops the parse where it stands. What the real parser does with such a header is not captured.
- The HTTP client parser, `HttpRequest` and `HttpResponse` are not part of this model. Their verdict on the offered octets is an input (`HttpOutcome`: octets consumed, response complete, response valid).
- ApcMachine.ApcStateMachine.OnIncomingHttpResponse: the `bool` result of `onIncomingHttpResponse` is not modelled, because its meaning is not stated in the header.
- The bodies of `ApcStateActions` are effects on sockets and on the application. Each call is recorded as an `Action` in the machine's trace instead.
- `notifyProxyAvailable` appears in the `Action` type, but no state's entry issues it in this model. It is an action added by 1722.1 Cor 1, and the header does not say which state issues it.
- The `setOwner`/`getOwner` back-pointers, the `setup()` wiring, the virtual dispatch, and the split of the machine into four cooperating objects are left out. These are plumbing: the one class holds all of their state.
- The seven `ApcStateMachine` forwarding methods to `ApcStateActions` (include/JDKSAvdeccMCU/Apc.hpp:69-75) are left out. These are `closeTcpConnection`, `connectToProxy`, `notifyProxyAvailable`, `notifyProxyUnavailable`, `notifyLinkStatus`, `processMsg` and `notifyNewEntityId`. They appear only as the actions in the trace.
- Apc.RankDecreases, Apc.CloseLeadsToFinish: these hold only past BEGIN. A close recorded while in BEGIN is discarded by INITIALIZE's reset of the variables, and the machine then waits in WAIT_FOR_CONNECT for ever (Apc.CloseLostInBegin). So a closure is not routed to CLOSED from every point: not from BEGIN.
- Apc.NopKeepAlive, Apc.RankDecreases, Apc.CloseLeadsToFinish, Apc.CloseLeadsToFinishStep: these assume that currentTime + interval does not exceed 2^32 - 1. The entry of SEND_NOP itself models the uint32_t wrap-around. Apc.NopLivelock shows what happens otherwise: the new timeout is not after the clock, so a NOP is due again at once and WAITING never reaches its close test until the clock is ticked.
- Apc.NopKeepAlive, Apc.RankDecreases, Apc.CloseLeadsToFinish, Apc.CloseLeadsToFinishStep: these assume a positive NOP interval, and ApcMachine.ApcStateMachine.constructor requires one. With an interval of 0 a NOP is due again as soon as it is sent, and Apc.NopLivelock proves that a recorded close is then never acted on. The header leaves the interval to configuration and does not say it may be 0.
- The HTTP request (`m_request`) is modelled by its request path alone. The constructor and `setPath` store the path in `request`, and CONNECTED sends it. How the full request (method, headers) is composed from the path, and the separate `m_path` copy kept by `ApcStateEvents` (include/JDKSAvdeccMCU/Apc.hpp:649-651), are in code that is not part of this model.
- ApcMachine.ApcStateMachine.Clear, ApcMachine.ApcStateMachine.ClearVariables: clearing resets the request path with every other variable, because `clear()` is documented to clear all variables.
- Apc.Enter has no contract of its own. Its properties are stated by Apc.EnterKeeps and Apc.EnterClosingActions, and through Apc.Step and the `goTo*` methods.
- `Eui48_compare`, `Eui64_compare`, `Eui48_is_set` and `Eui64_is_set` (include/JDKSAvdeccMCU_Eui.hpp:269-294) are the same operations as `Compare` and `IsSet`. They are not modelled separately.
- `getEntityId` (include/JDKSAvdeccMCU/Apc.hpp:61) reads the `entityId` variable. It has no contract beyond that.
