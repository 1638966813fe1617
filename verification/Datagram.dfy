/**
 QUIC datagrams of version 2 (quic/datagramv2.go, quic/datagram.go): a payload, then a session ID or trace
 identity, then one byte that says which kind it is.
 */
module Datagram {
  import opened Wrappers

  const SESSION_ID_LEN := 16
  const TYPE_ID_LEN := 1
  const IDENTITY_LENGTH := 25

  /** The largest frame, and the largest session payload, of a platform. */
  datatype Params = Params(maxDatagramFrameSize: nat, maxDatagramPayloadSize: nat)

  const UNIX := Params(1350, 1280)
  const WINDOWS := Params(1220, 1220 - 3 - SESSION_ID_LEN - TYPE_ID_LEN)

  const TYPE_UDP: Byte := 0
  const TYPE_IP: Byte := 1
  const TYPE_IP_WITH_TRACE: Byte := 2
  const TYPE_TRACING_SPAN: Byte := 3

  type SessionID = b: Bytes | |b| == SESSION_ID_LEN witness seq(SESSION_ID_LEN, _ => 0)

  datatype Packet =
    | RawPacket(data: Bytes)
    | TracedPacket(packet: Bytes, tracingIdentity: Bytes)
    | TracingSpanPacket(spans: Bytes, tracingIdentity: Bytes)
  {
    function Type(): Byte {
      match this
      case RawPacket(_) => TYPE_IP
      case TracedPacket(_, _) => TYPE_IP_WITH_TRACE
      case TracingSpanPacket(_, _) => TYPE_TRACING_SPAN
    }

    function Payload(): Bytes {
      match this
      case RawPacket(data) => data
      case TracedPacket(packet, _) => packet
      case TracingSpanPacket(spans, _) => spans
    }

    function Metadata(): Bytes {
      if RawPacket? then [] else tracingIdentity
    }

    /** Its identity, where it carries one, has the length that the receiver cuts off. */
    predicate Framable() {
      RawPacket? || |tracingIdentity| == IDENTITY_LENGTH
    }
  }

  /** What is sent and received. */
  datatype Message = SessionDatagram(id: SessionID, payload: Bytes) | PacketDatagram(packet: Packet)

  // ---------- Sending ----------

  function SuffixMetadata(p: Params, payload: Bytes, metadata: Bytes): Option<Bytes> {
    if |payload| + |metadata| > p.maxDatagramFrameSize then None else Some(payload + metadata)
  }

  function SuffixType(p: Params, b: Bytes, datagramType: Byte): Option<Bytes> {
    if |b| + TYPE_ID_LEN > p.maxDatagramFrameSize then None else Some(b + [datagramType])
  }

  function Suffixed(p: Params, payload: Bytes, metadata: Bytes, datagramType: Byte): Option<Bytes> {
    match SuffixMetadata(p, payload, metadata)
    case None => None
    case Some(b) => SuffixType(p, b, datagramType)
  }

  function Send(p: Params, m: Message): Option<Bytes> {
    match m
    case SessionDatagram(id, payload) =>
      if |payload| > p.maxDatagramPayloadSize then None else Suffixed(p, payload, id, TYPE_UDP)
    case PacketDatagram(packet) => Suffixed(p, packet.Payload(), packet.Metadata(), packet.Type())
  }

  // ---------- Receiving ----------

  function ExtractSessionID(b: Bytes): Option<Message> {
    if |b| < SESSION_ID_LEN then None
    else
      var payloadLen := |b| - SESSION_ID_LEN;
      Some(SessionDatagram(b[payloadLen..], b[..payloadLen]))
  }

  /** The identity and what precedes it. */
  function ExtractTracingIdentity(pk: Bytes): Option<(Bytes, Bytes)> {
    if |pk| < IDENTITY_LENGTH then None
    else
      var payloadLen := |pk| - IDENTITY_LENGTH;
      Some((pk[payloadLen..], pk[..payloadLen]))
  }

  function HandlePacket(pk: Bytes, msgType: Byte): Option<Message> {
    if msgType == TYPE_IP then Some(PacketDatagram(RawPacket(pk)))
    else match ExtractTracingIdentity(pk)
      case None => None
      case Some((identity, payload)) =>
        Some(PacketDatagram(
               if msgType == TYPE_IP_WITH_TRACE then TracedPacket(payload, identity)
               else TracingSpanPacket(payload, identity)))
  }

  function Demux(msgWithType: Bytes): Option<Message> {
    if |msgWithType| < TYPE_ID_LEN then None
    else
      var msgType := msgWithType[|msgWithType| - TYPE_ID_LEN];
      var msg := msgWithType[..|msgWithType| - TYPE_ID_LEN];
      if msgType == TYPE_UDP then ExtractSessionID(msg)
      else if msgType == TYPE_IP || msgType == TYPE_IP_WITH_TRACE || msgType == TYPE_TRACING_SPAN
      then HandlePacket(msg, msgType)
      else None
  }

  // ---------- The round trip ----------

  predicate Framable(m: Message) {
    m.PacketDatagram? ==> m.packet.Framable()
  }

  function MetadataOf(m: Message): Bytes {
    if m.SessionDatagram? then m.id else m.packet.Metadata()
  }

  function PayloadOf(m: Message): Bytes {
    if m.SessionDatagram? then m.payload else m.packet.Payload()
  }

  function TypeOf(m: Message): Byte {
    if m.SessionDatagram? then TYPE_UDP else m.packet.Type()
  }

  /** A message goes out exactly when payload, metadata and type fit in a frame, and a session's in the MTU. */
  lemma SendsIffItFits(p: Params, m: Message)
    ensures Send(p, m).Some? <==>
      && |PayloadOf(m)| + |MetadataOf(m)| + TYPE_ID_LEN <= p.maxDatagramFrameSize
      && (m.SessionDatagram? ==> |m.payload| <= p.maxDatagramPayloadSize)
    ensures Send(p, m).Some? ==> Send(p, m).value == PayloadOf(m) + MetadataOf(m) + [TypeOf(m)]
  {
  }

  /** The bytes on the wire. */
  lemma WireFormat(p: Params, m: Message)
    requires Send(p, m).Some?
    ensures var frame := Send(p, m).value;
            match m
            case SessionDatagram(id, payload) => frame == payload + id + [0] && |id| == 16
            case PacketDatagram(RawPacket(data)) => frame == data + [1]
            case PacketDatagram(TracedPacket(packet, identity)) => frame == packet + identity + [2]
            case PacketDatagram(TracingSpanPacket(spans, identity)) => frame == spans + identity + [3]
  {
    SendsIffItFits(p, m);
    match m
    case PacketDatagram(RawPacket(data)) => assert data + [] == data;
    case _ =>
  }

  /** On both platforms a session payload within the MTU always goes out. */
  lemma MTUAlwaysFits(id: SessionID, payload: Bytes)
    ensures Send(UNIX, SessionDatagram(id, payload)).Some? <==> |payload| <= 1280
    ensures Send(WINDOWS, SessionDatagram(id, payload)).Some? <==> |payload| <= 1200
  {
    SendsIffItFits(UNIX, SessionDatagram(id, payload));
    SendsIffItFits(WINDOWS, SessionDatagram(id, payload));
  }

  lemma CutSuffix(payload: Bytes, metadata: Bytes)
    ensures (payload + metadata)[|payload|..] == metadata && (payload + metadata)[..|payload|] == payload
  {
  }

  /**
   What was sent is received with its kind, payload and ID or identity exactly when the identity of a packet
   that carries one has 25 bytes.
   */
  lemma ReceivedIsSentIff(p: Params, m: Message)
    requires Send(p, m).Some?
    ensures Demux(Send(p, m).value) == Some(m) <==>
              (m.PacketDatagram? && !m.packet.RawPacket? ==> |m.packet.tracingIdentity| == 25)
  {
    SendsIffItFits(p, m);
    var b := PayloadOf(m) + MetadataOf(m);
    assert (b + [TypeOf(m)])[..|b|] == b;
    if Framable(m) {
      CutSuffix(PayloadOf(m), MetadataOf(m));
      assert b + [] == b;
    }
  }

  /** No two messages of the right shape share a frame, whatever their kinds. */
  lemma FramesAreDistinct(p: Params, a: Message, b: Message)
    requires Send(p, a).Some? && Send(p, a) == Send(p, b) && Framable(a) && Framable(b)
    ensures a == b
  {
    ReceivedIsSentIff(p, a);
    ReceivedIsSentIff(p, b);
  }

  /** Every frame that is understood is the frame of what it is understood as, and would be sent if it fits. */
  lemma UnderstoodIsFramed(p: Params, frame: Bytes)
    requires Demux(frame).Some?
    ensures Framable(Demux(frame).value)
    ensures var m := Demux(frame).value;
            && frame == PayloadOf(m) + MetadataOf(m) + [TypeOf(m)]
            && (Send(p, m) == Some(frame) <==>
                  |frame| <= p.maxDatagramFrameSize && (m.SessionDatagram? ==> |m.payload| <= p.maxDatagramPayloadSize))
  {
    var m := Demux(frame).value;
    var b := frame[..|frame| - 1];
    assert frame == b + [frame[|frame| - 1]];
    assert b == PayloadOf(m) + MetadataOf(m);
    SendsIffItFits(p, m);
  }

  // ---------- Slices ----------

  /** A Go slice: `length` bytes of an array from `offset` on, with room to grow to `capacity`. */
  datatype Slice = Slice(buf: array<Byte>, offset: nat, length: nat, capacity: nat) {
    ghost predicate Valid() {
      length <= capacity && offset + capacity <= buf.Length
    }

    ghost function Contents(): Bytes
      requires Valid()
      reads buf
    {
      buf[offset..offset + length]
    }
  }

  /**
   `append`: in place when there is room, in a new array otherwise. Either way the bytes of `s` stay as they
   are, and so does everything in its array outside the room that was used.
   */
  method Append(s: Slice, more: Bytes) returns (r: Slice)
    requires s.Valid()
    modifies s.buf
    ensures r.Valid() && r.Contents() == old(s.Contents()) + more
    ensures s.Contents() == old(s.Contents())
    ensures forall i :: 0 <= i < s.buf.Length && !(s.offset + s.length <= i < s.offset + s.length + |more|) ==>
              s.buf[i] == old(s.buf[i])
    ensures (r.buf == s.buf && r.offset == s.offset) || fresh(r.buf)
    ensures r.length == s.length + |more|
  {
    var n := s.length + |more|;
    if n <= s.capacity {
      forall i | 0 <= i < |more| {
        s.buf[s.offset + s.length + i] := more[i];
      }
      r := Slice(s.buf, s.offset, n, s.capacity);
    } else {
      var grown := new Byte[n](i requires 0 <= i < n reads s.buf =>
        if i < s.length then s.buf[s.offset + i] else more[i - s.length]);
      r := Slice(grown, 0, n, n);
    }
  }

  method AppendMetadata(p: Params, payload: Slice, metadata: Bytes) returns (r: Option<Slice>)
    requires payload.Valid()
    modifies payload.buf
    ensures payload.Contents() == old(payload.Contents())
    ensures r.None? <==> SuffixMetadata(p, old(payload.Contents()), metadata).None?
    ensures r.Some? ==>
              r.value.Valid() && SuffixMetadata(p, old(payload.Contents()), metadata) == Some(r.value.Contents())
    ensures r.Some? ==>
      && r.value.length == payload.length + |metadata|
      && ((r.value.buf == payload.buf && r.value.offset == payload.offset) || fresh(r.value.buf))
  {
    if payload.length + |metadata| > p.maxDatagramFrameSize {
      return None;
    }
    var appended := Append(payload, metadata);
    return Some(appended);
  }

  method AppendType(p: Params, b: Slice, datagramType: Byte) returns (r: Option<Slice>)
    requires b.Valid()
    modifies b.buf
    ensures b.Contents() == old(b.Contents())
    ensures forall i :: 0 <= i < b.buf.Length && i != b.offset + b.length ==> b.buf[i] == old(b.buf[i])
    ensures r.None? <==> SuffixType(p, old(b.Contents()), datagramType).None?
    ensures r.Some? ==> r.value.Valid() && SuffixType(p, old(b.Contents()), datagramType) == Some(r.value.Contents())
  {
    if b.length + TYPE_ID_LEN > p.maxDatagramFrameSize {
      return None;
    }
    var appended := Append(b, [datagramType]);
    return Some(appended);
  }

  /** Both suffixes, appended in place where there is room: the frame of the message, and the payload intact. */
  method SendSlice(p: Params, payload: Slice, metadata: Bytes, datagramType: Byte) returns (sent: Option<Bytes>)
    requires payload.Valid()
    modifies payload.buf
    ensures sent == Suffixed(p, old(payload.Contents()), metadata, datagramType)
    ensures payload.Contents() == old(payload.Contents())
  {
    ghost var before := payload.Contents();
    var withMetadata := AppendMetadata(p, payload, metadata);
    if withMetadata.None? {
      return None;
    }
    var withType := AppendType(p, withMetadata.value, datagramType);
    assert payload.Contents() == before;
    if withType.None? {
      return None;
    }
    var frame := withType.value;
    return Some(frame.buf[frame.offset..frame.offset + frame.length]);
  }

  method SendToSession(p: Params, id: SessionID, payload: Slice) returns (sent: Option<Bytes>)
    requires payload.Valid()
    modifies payload.buf
    ensures sent == Send(p, SessionDatagram(id, old(payload.Contents())))
    ensures payload.Contents() == old(payload.Contents())
  {
    if payload.length > p.maxDatagramPayloadSize {
      return None;
    }
    sent := SendSlice(p, payload, id, TYPE_UDP);
  }

  /** `packet` is the packet whose payload lies in the slice. */
  method SendPacket(p: Params, packet: Packet, payload: Slice) returns (sent: Option<Bytes>)
    requires payload.Valid() && payload.Contents() == packet.Payload()
    modifies payload.buf
    ensures sent == Send(p, PacketDatagram(packet))
    ensures payload.Contents() == packet.Payload()
  {
    sent := SendSlice(p, payload, packet.Metadata(), packet.Type());
  }
}
