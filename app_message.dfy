/**
 * One APPDU of the AVDECC Proxy Protocol (IEEE Std 1722.1-2013 Annex C.4 and C.5.1).
 *
 * On the wire an APPDU is a 12-octet header followed by the payload:
 *   octet 0      version (0)
 *   octet 1      message_type
 *   octets 2-3   payload_length, big-endian
 *   octets 4-9   address (EUI-48)
 *   octets 10-11 reserved (0)
 *   octets 12-   payload_length octets of payload
 */
module AppMessages {
  import opened Wrappers
  import opened Eui

  const AppduVersion: Octet := 0
  const HeaderLength: nat := 12
  /** Capacity of the payload buffer every message carries. */
  const MaxPayloadLength: nat := 1500

  type Payload = p: seq<Octet> | |p| <= MaxPayloadLength

  const ZeroEui48: Eui48 := Eui48([0, 0, 0, 0, 0, 0])

  /** The message_type values of Annex C.4.2. */
  datatype MessageType =
    | Nop
    | EntityIdRequest
    | EntityIdResponse
    | LinkUp
    | LinkDown
    | AvdeccFromAps
    | AvdeccFromApc
    | Vendor
  {
    function Code(): Octet
    {
      match this
      case Nop => 0
      case EntityIdRequest => 1
      case EntityIdResponse => 2
      case LinkUp => 3
      case LinkDown => 4
      case AvdeccFromAps => 5
      case AvdeccFromApc => 6
      case Vendor => 0xff
    }
  }

  /** The message type a code names, or None for a code with no name. */
  function TypeOf(code: Octet): (t: Option<MessageType>)
    ensures t.Some? <==> code <= 6 || code == 0xff
    ensures t.Some? ==> t.value.Code() == code
  {
    if code == 0 then Some(Nop)
    else if code == 1 then Some(EntityIdRequest)
    else if code == 2 then Some(EntityIdResponse)
    else if code == 3 then Some(LinkUp)
    else if code == 4 then Some(LinkDown)
    else if code == 5 then Some(AvdeccFromAps)
    else if code == 6 then Some(AvdeccFromApc)
    else if code == 0xff then Some(Vendor)
    else None
  }

  /** Every message type has its own code, and the code names it back. */
  lemma {:induction false} CodesAreFixed(t: MessageType, u: MessageType)
    ensures TypeOf(t.Code()) == Some(t)
    ensures t.Code() == u.Code() ==> t == u
  {
    match t
    case Nop =>
    case EntityIdRequest =>
    case EntityIdResponse =>
    case LinkUp =>
    case LinkDown =>
    case AvdeccFromAps =>
    case AvdeccFromApc =>
    case Vendor =>
  }

  /** An Ethernet frame, as far as the encapsulating setters read it: source address and payload. */
  datatype Frame = Frame(sa: Eui48, payload: Payload)

  datatype AppMessage = AppMessage(version: Octet, messageType: Octet, address: Eui48, payload: Payload)
  {
    /** The constructor: a NOP. */
    static function Create(): (m: AppMessage)
      ensures m.Kind() == Some(Nop) && m.messageType == 0
      ensures m.GetPayloadLength() == 0
    {
      AppMessage(AppduVersion, Nop.Code(), ZeroEui48, [])
    }

    function Kind(): Option<MessageType>
    {
      TypeOf(messageType)
    }

    function GetAddress(): Eui48
    {
      address
    }

    function GetPayloadLength(): (n: nat)
      ensures n <= MaxPayloadLength
    {
      |payload|
    }

    /** Alias for SetNop. */
    function Clear(): (m: AppMessage)
      ensures m.Kind() == Some(Nop) && m.version == AppduVersion
      ensures m.GetAddress() == ZeroEui48 && m.GetPayloadLength() == 0
    {
      SetNop()
    }

    /** NOP (Annex C.5.1.1): zero address, empty payload. */
    function SetNop(): (m: AppMessage)
      ensures m.Kind() == Some(Nop) && m.version == AppduVersion
      ensures m.GetAddress() == ZeroEui48 && m.GetPayloadLength() == 0
    {
      AppMessage(AppduVersion, Nop.Code(), ZeroEui48, [])
    }

    /** ENTITY_ID_REQUEST (Annex C.5.1.2): the APC's primary MAC and the entity id it asks for. */
    function SetEntityIdRequest(apcPrimaryMac: Eui48, requestedEntityId: Eui64): (m: AppMessage)
      ensures m.Kind() == Some(EntityIdRequest) && m.version == AppduVersion
      ensures m.GetAddress() == apcPrimaryMac
      ensures m.GetEntityIdRequestEntityId() == requestedEntityId
      ensures m.GetEntityIdResponseEntityId() == Eui64.Default()
    {
      AppMessage(AppduVersion, EntityIdRequest.Code(), apcPrimaryMac, requestedEntityId.value)
    }

    /** ENTITY_ID_RESPONSE (Annex C.5.1.3). */
    function SetEntityIdResponse(apcPrimaryMac: Eui48, requestedEntityId: Eui64): (m: AppMessage)
      ensures m.Kind() == Some(EntityIdResponse) && m.version == AppduVersion
      ensures m.GetAddress() == apcPrimaryMac
      ensures m.GetEntityIdResponseEntityId() == requestedEntityId
      ensures m.GetEntityIdRequestEntityId() == Eui64.Default()
    {
      AppMessage(AppduVersion, EntityIdResponse.Code(), apcPrimaryMac, requestedEntityId.value)
    }

    /** LINK_UP (Annex C.5.1.4): the network port's MAC, no payload. */
    function SetLinkUp(networkPortMac: Eui48): (m: AppMessage)
      ensures m.Kind() == Some(LinkUp) && m.version == AppduVersion
      ensures m.GetAddress() == networkPortMac && m.GetPayloadLength() == 0
    {
      AppMessage(AppduVersion, LinkUp.Code(), networkPortMac, [])
    }

    /** LINK_DOWN (Annex C.5.1.5). */
    function SetLinkDown(networkPortMac: Eui48): (m: AppMessage)
      ensures m.Kind() == Some(LinkDown) && m.version == AppduVersion
      ensures m.GetAddress() == networkPortMac && m.GetPayloadLength() == 0
    {
      AppMessage(AppduVersion, LinkDown.Code(), networkPortMac, [])
    }

    /** AVDECC_FROM_APS (Annex C.5.1.6): the frame's source address and payload. */
    function SetAvdeccFromAps(frame: Frame): (m: AppMessage)
      ensures m.Kind() == Some(AvdeccFromAps) && m.version == AppduVersion
      ensures m.GetAddress() == frame.sa && m.payload == frame.payload
    {
      AppMessage(AppduVersion, AvdeccFromAps.Code(), frame.sa, frame.payload)
    }

    /** AVDECC_FROM_APC (Annex C.5.1.7). */
    function SetAvdeccFromApc(frame: Frame): (m: AppMessage)
      ensures m.Kind() == Some(AvdeccFromApc) && m.version == AppduVersion
      ensures m.GetAddress() == frame.sa && m.payload == frame.payload
    {
      AppMessage(AppduVersion, AvdeccFromApc.Code(), frame.sa, frame.payload)
    }

    /** VENDOR (Annex C.5.1.8): the vendor message type code in the address field. */
    function SetVendor(vendorMessageType: Eui48, vendorPayload: Payload): (m: AppMessage)
      ensures m.Kind() == Some(Vendor) && m.version == AppduVersion
      ensures m.GetAddress() == vendorMessageType && m.payload == vendorPayload
    {
      AppMessage(AppduVersion, Vendor.Code(), vendorMessageType, vendorPayload)
    }

    /** The eight payload octets as an entity id when the message is of kind `t` and exactly that long. */
    function EntityIdOf(t: MessageType): Eui64
    {
      if messageType == t.Code() && |payload| == 8 then Eui64(payload) else Eui64.Default()
    }

    function GetEntityIdRequestEntityId(): (id: Eui64)
      ensures Kind() == Some(EntityIdRequest) && |payload| == 8 ==> id.value == payload
      ensures !(Kind() == Some(EntityIdRequest) && |payload| == 8) ==> id == Eui64.Default()
    {
      EntityIdOf(EntityIdRequest)
    }

    function GetEntityIdResponseEntityId(): (id: Eui64)
      ensures Kind() == Some(EntityIdResponse) && |payload| == 8 ==> id.value == payload
      ensures !(Kind() == Some(EntityIdResponse) && |payload| == 8) ==> id == Eui64.Default()
    {
      EntityIdOf(EntityIdResponse)
    }

    /** The wire form: 12-octet header, then the payload. */
    function Encode(): (bytes: seq<Octet>)
      ensures |bytes| == HeaderLength + GetPayloadLength()
      ensures bytes[0] == version && bytes[1] == messageType
      ensures bytes[2] as nat * 256 + bytes[3] as nat == GetPayloadLength()
      ensures bytes[4..10] == address.value && bytes[10..HeaderLength] == [0, 0]
      ensures bytes[HeaderLength..] == payload
    {
      var n := |payload|;
      [version, messageType, (n / 256) as Octet, (n % 256) as Octet] + address.value + [0, 0] + payload
    }

    /**
     * The APPDU writer's result for a buffer of `maxLength` octets: the position after the
     * written APPDU, or -1 when it does not fit after `offset`.
     */
    function WriteResult(offset: nat, maxLength: nat): (r: int)
      ensures r > 0 <==> offset + |Encode()| <= maxLength
      ensures r > 0 ==> r == offset + |Encode()|
    {
      if offset + |Encode()| <= maxLength then offset + |Encode()| else -1
    }

    /** Serialises into `dest` at `offset`; on failure `dest` is left empty. */
    method Store(dest: FixedBuffer, offset: nat) returns (ok: bool)
      requires dest.Valid() && offset < 0x1_0000
      modifies dest, dest.buf
      ensures dest.Valid()
      ensures ok <==> WriteResult(offset, dest.GetMaxLength()) > 0
      ensures ok ==> dest.length == WriteResult(offset, dest.GetMaxLength())
      ensures ok ==> dest.buf[offset..dest.length] == Encode()
      ensures ok ==> forall k | 0 <= k < offset :: dest.buf[k] == old(dest.buf[k])
      ensures !ok ==> dest.length == 0 && dest.buf[..] == old(dest.buf[..])
    {
      dest.Clear();
      var r := WriteResult(offset, dest.GetMaxLength());
      if r > 0 {
        WriteOctets(dest.buf, offset, Encode());
        dest.SetLength(r);
      }
      ok := r > 0;
    }
  }

  /** A byte buffer of fixed capacity with a current length (the destination of Store). */
  class FixedBuffer {
    const buf: array<Octet>
    var length: nat

    ghost predicate Valid()
      reads this
    {
      length <= buf.Length < 0x1_0000
    }

    constructor (maxLength: nat)
      requires maxLength < 0x1_0000
      ensures Valid() && fresh(buf) && buf.Length == maxLength && length == 0
    {
      buf := new Octet[maxLength];
      length := 0;
    }

    function GetMaxLength(): nat
    {
      buf.Length
    }

    method Clear()
      requires Valid()
      modifies this
      ensures Valid() && length == 0
    {
      length := 0;
    }

    method SetLength(n: nat)
      requires Valid() && n <= buf.Length
      modifies this
      ensures Valid() && length == n
    {
      length := n;
    }
  }

  // ---------------------------------------------------------------------------
  // Reading APPDUs back from a byte stream
  // ---------------------------------------------------------------------------

  datatype Decoded =
    | Incomplete                              // fewer octets than the header announces
    | Oversized                               // payload_length beyond the payload buffer
    | Decoded(msg: AppMessage, size: nat)     // one whole APPDU of `size` octets

  function PayloadLengthField(s: seq<Octet>): nat
    requires |s| >= 4
  {
    s[2] as nat * 256 + s[3] as nat
  }

  /** Reads the APPDU at the front of `s`, if all of it is there. */
  function DecodeFrame(s: seq<Octet>): (r: Decoded)
    ensures r.Decoded? ==> r.size == HeaderLength + |r.msg.payload| <= |s|
    ensures r.Decoded? ==> r.msg.version == s[0] && r.msg.messageType == s[1] && r.msg.address.value == s[4..10]
    ensures r.Decoded? ==> r.msg.payload == s[HeaderLength..r.size] && |r.msg.payload| == PayloadLengthField(s)
    ensures r.Incomplete? <==> |s| < HeaderLength
                                || (PayloadLengthField(s) <= MaxPayloadLength && |s| < HeaderLength + PayloadLengthField(s))
    ensures r.Oversized? <==> |s| >= HeaderLength && PayloadLengthField(s) > MaxPayloadLength
  {
    if |s| < HeaderLength then Incomplete
    else
      var n := PayloadLengthField(s);
      if n > MaxPayloadLength then Oversized
      else if |s| < HeaderLength + n then Incomplete
      else Decoded(AppMessage(s[0], s[1], Eui48(s[4..10]), s[HeaderLength..HeaderLength + n]), HeaderLength + n)
  }

  /** Reading back what Encode wrote gives the same message, whatever follows it. */
  lemma DecodeEncode(m: AppMessage, rest: seq<Octet>)
    ensures DecodeFrame(m.Encode() + rest) == Decoded(m, |m.Encode()|)
  {
    var s := m.Encode() + rest;
    var n := |m.payload|;
    assert PayloadLengthField(s) == n;
    assert s[4..10] == m.address.value;
    assert s[HeaderLength..HeaderLength + n] == m.payload;
  }

  /** A decision on the front of a stream is not changed by more octets arriving. */
  lemma DecodeFrameStable(a: seq<Octet>, b: seq<Octet>)
    requires !DecodeFrame(a).Incomplete?
    ensures DecodeFrame(a + b) == DecodeFrame(a)
  {
    var s := a + b;
    assert s[..|a|] == a;
    if DecodeFrame(a).Decoded? {
      var n := PayloadLengthField(a);
      assert s[4..10] == a[4..10];
      assert s[HeaderLength..HeaderLength + n] == a[HeaderLength..HeaderLength + n];
    }
  }

  /** What the APP reassembler makes of a byte stream: the whole APPDUs at its front, in order. */
  datatype Parsed = Parsed(messages: seq<AppMessage>, consumed: nat)

  function ParseStream(s: seq<Octet>): (r: Parsed)
    ensures r.consumed <= |s|
    ensures r.messages == [] <==> r.consumed == 0
    decreases |s|
  {
    match DecodeFrame(s)
    case Decoded(m, n) =>
      var rest := ParseStream(s[n..]);
      Parsed([m] + rest.messages, n + rest.consumed)
    case _ => Parsed([], 0)
  }

  /**
   * Splitting the stream anywhere and handing the unconsumed tail back with the next
   * chunk yields the same messages, and consumes the same octets, as one delivery.
   */
  lemma {:induction false} ParseStreamSplit(a: seq<Octet>, b: seq<Octet>)
    ensures var first := ParseStream(a);
            var second := ParseStream(a[first.consumed..] + b);
            ParseStream(a + b) == Parsed(first.messages + second.messages, first.consumed + second.consumed)
    decreases |a|, 1
  {
    var d := DecodeFrame(a);
    if d.Decoded? {
      ParseStreamSplitDecoded(a, b);
    } else {
      if d.Oversized? {
        DecodeFrameStable(a, b);
      }
      assert a[0..] == a;
    }
  }

  /** The case of ParseStreamSplit where a whole APPDU starts the first chunk. */
  lemma {:induction false} ParseStreamSplitDecoded(a: seq<Octet>, b: seq<Octet>)
    requires DecodeFrame(a).Decoded?
    ensures var first := ParseStream(a);
            var second := ParseStream(a[first.consumed..] + b);
            ParseStream(a + b) == Parsed(first.messages + second.messages, first.consumed + second.consumed)
    decreases |a|, 0
  {
    var d := DecodeFrame(a);
    var n, m := d.size, d.msg;
    var tailA := a[n..];
    var inner := ParseStream(tailA);
    var second := ParseStream(tailA[inner.consumed..] + b);
    ParseStreamSplit(tailA, b);
    ParseStreamUnfold(a);
    ParseStreamUnfoldAppend(a, b);
    SliceOfSlice(a, n, inner.consumed);
    var first := ParseStream(a);
    assert first.consumed == n + inner.consumed;
    assert ParseStream(a[first.consumed..] + b) == second;
    SplitCombine(m, n, first, inner, second, ParseStream(tailA + b), ParseStream(a + b));
  }

  lemma SliceOfSlice<T>(s: seq<T>, i: nat, j: nat)
    requires i <= |s| && j <= |s| - i
    ensures s[i..][j..] == s[i + j..]
  {
  }

  /** The bookkeeping of ParseStreamSplitDecoded: one message in front of the split of the rest. */
  lemma SplitCombine(m: AppMessage, n: nat, first: Parsed, inner: Parsed, second: Parsed, whole: Parsed, all: Parsed)
    requires first == Parsed([m] + inner.messages, n + inner.consumed)
    requires whole == Parsed(inner.messages + second.messages, inner.consumed + second.consumed)
    requires all == Parsed([m] + whole.messages, n + whole.consumed)
    ensures all == Parsed(first.messages + second.messages, first.consumed + second.consumed)
  {
    assert [m] + (inner.messages + second.messages) == ([m] + inner.messages) + second.messages;
  }

  lemma ParseStreamUnfoldAppend(a: seq<Octet>, b: seq<Octet>)
    requires DecodeFrame(a).Decoded?
    ensures var d := DecodeFrame(a);
            var rest := ParseStream(a[d.size..] + b);
            ParseStream(a + b) == Parsed([d.msg] + rest.messages, d.size + rest.consumed)
  {
    DecodeFrameStable(a, b);
    ParseStreamUnfold(a + b);
    assert (a + b)[DecodeFrame(a).size..] == a[DecodeFrame(a).size..] + b;
  }

  lemma ParseStreamUnfold(s: seq<Octet>)
    requires DecodeFrame(s).Decoded?
    ensures var d := DecodeFrame(s);
            var rest := ParseStream(s[d.size..]);
            ParseStream(s) == Parsed([d.msg] + rest.messages, d.size + rest.consumed)
  {
  }

  function EncodeAll(ms: seq<AppMessage>): seq<Octet>
  {
    if ms == [] then [] else ms[0].Encode() + EncodeAll(ms[1..])
  }

  /** A stream of encoded messages reads back as exactly those messages, consuming all of it. */
  lemma {:induction false} ParseEncodeAll(ms: seq<AppMessage>)
    ensures ParseStream(EncodeAll(ms)) == Parsed(ms, |EncodeAll(ms)|)
  {
    if ms != [] {
      var s := EncodeAll(ms);
      var n := |ms[0].Encode()|;
      DecodeEncode(ms[0], EncodeAll(ms[1..]));
      assert s[n..] == EncodeAll(ms[1..]);
      ParseEncodeAll(ms[1..]);
      assert ms == [ms[0]] + ms[1..];
    }
  }
}
