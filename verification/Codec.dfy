/** The inner header, the control messages and the acknowledgement packet, as bytes. */
module Codec {
  import opened Wrappers
  import opened Bytes

  /** Decoding fails with an error, or runs past the end of the buffer. */
  datatype DecodeError = Invalid | OutOfBounds

  // ---- Inner header ----------------------------------------------------------

  datatype InnerType = Data | Control | Fragment | Ack

  function TypeCode(t: InnerType): nat {
    match t
    case Data => 1
    case Control => 2
    case Fragment => 3
    case Ack => 4
  }

  function TypeFrom(code: nat): Option<InnerType> {
    if code == 1 then Some(Data)
    else if code == 2 then Some(Control)
    else if code == 3 then Some(Fragment)
    else if code == 4 then Some(Ack)
    else None
  }

  datatype InnerHeader = InnerHeader(innerType: InnerType, seqNum: nat)

  function EncodeHeader(h: InnerHeader): seq<byte>
    requires h.seqNum < 0x1_0000
  {
    U16Le(TypeCode(h.innerType)) + U16Le(h.seqNum)
  }

  function DecodeHeader(data: seq<byte>): Result<InnerHeader, DecodeError> {
    if |data| < 4 then Err(Invalid) else
    match TypeFrom(FromLe(data[0], data[1]))
    case None => Err(Invalid)
    case Some(t) => Ok(InnerHeader(t, FromLe(data[2], data[3])))
  }

  /** `build_inner_packet`. */
  function InnerPacket(t: InnerType, seqNum: nat, payload: seq<byte>): seq<byte>
    requires seqNum < 0x1_0000
  {
    EncodeHeader(InnerHeader(t, seqNum)) + payload
  }

  lemma HeaderRoundTrip(t: InnerType, seqNum: nat, payload: seq<byte>)
    requires seqNum < 0x1_0000
    ensures var inner := InnerPacket(t, seqNum, payload);
            DecodeHeader(inner) == Ok(InnerHeader(t, seqNum)) && |inner| == 4 + |payload| && inner[4..] == payload
  {
    U16RoundTrip(TypeCode(t));
    U16RoundTrip(seqNum);
  }

  /** The header's four bytes: type 1 to 4, then sequence number, each low byte first; any other type
      and anything shorter is refused. */
  lemma HeaderLayout(t: InnerType, seqNum: nat, data: seq<byte>)
    requires seqNum < 0x1_0000
    ensures EncodeHeader(InnerHeader(t, seqNum))
         == [if t == Data then 1 else if t == Control then 2 else if t == Fragment then 3 else 4, 0,
             seqNum % 256, seqNum / 256]
    ensures DecodeHeader(data).Ok? <==> |data| >= 4 && 1 <= data[0] <= 4 && data[1] == 0
  {}

  // ---- Control messages ---------------------------------------------------------

  datatype ControlPayload =
    | KeyRotate(newEphPub: seq<byte>)
    | MaskUpdate(maskData: seq<byte>, maskSignature: seq<byte>)
    | Keepalive
    | TelemetryRequest(metricFlags: byte)
    | TelemetryResponse(packetLoss: nat, rttMs: nat, jitterMs: nat, bufferPct: byte)
    | TimeSync(serverTsMs: nat)
    | Shutdown(reason: byte)
    | ControlAck(ackSeq: nat, ackForSubtype: byte)
    | ServerHello(serverEphPub: seq<byte>, signature: seq<byte>)
  {
    /** The field sizes the types of the program fix. */
    predicate Typed() {
      match this
      case KeyRotate(k) => |k| == 32
      case MaskUpdate(_, s) => |s| == 64
      case TelemetryResponse(p, r, j, _) => p < 0x1_0000 && r < 0x1_0000 && j < 0x1_0000
      case TimeSync(ts) => ts < Pow256(8)
      case ControlAck(a, _) => a < 0x1_0000
      case ServerHello(k, s) => |k| == 32 && |s| == 64
      case _ => true
    }
  }

  function Encode(c: ControlPayload): seq<byte>
    requires c.Typed()
  {
    match c
    case KeyRotate(k) => [1, 0] + U16Le(|k|) + k
    case MaskUpdate(m, s) => [2] + U16Le(|m| % 0x1_0000) + m + s
    case Keepalive => [3]
    case TelemetryRequest(f) => [4, f]
    case TelemetryResponse(p, r, j, b) => [5, 0] + U16Le(p) + U16Le(r) + U16Le(j) + [b] + [0, 0, 0]
    case TimeSync(ts) => [6] + ToLe(ts, 8)
    case Shutdown(r) => [7, r]
    case ControlAck(a, f) => [8] + U16Le(a) + [f]
    case ServerHello(k, s) => [9] + k + s
  }

  function Decode(data: seq<byte>): Result<ControlPayload, DecodeError> {
    if |data| == 0 then Err(Invalid)
    else if data[0] == 1 then
      if |data| < 6 || |data| < 4 + FromLe(data[2], data[3]) then Err(Invalid)
      else if |data| < 36 then Err(OutOfBounds)
      else Ok(KeyRotate(data[4..36]))
    else if data[0] == 2 then
      if |data| < 4 then Err(Invalid) else
      var len := FromLe(data[1], data[2]);
      if |data| < 3 + len + 64 then Err(Invalid)
      else Ok(MaskUpdate(data[3..3 + len], data[3 + len..3 + len + 64]))
    else if data[0] == 3 then Ok(Keepalive)
    else if data[0] == 4 then (if |data| < 2 then Err(Invalid) else Ok(TelemetryRequest(data[1])))
    else if data[0] == 5 then
      if |data| < 12 then Err(Invalid)
      else Ok(TelemetryResponse(FromLe(data[2], data[3]), FromLe(data[4], data[5]), FromLe(data[6], data[7]), data[8]))
    else if data[0] == 6 then (if |data| < 9 then Err(Invalid) else Ok(TimeSync(FromLeBytes(data[1..9]))))
    else if data[0] == 7 then (if |data| < 2 then Err(Invalid) else Ok(Shutdown(data[1])))
    else if data[0] == 8 then (if |data| < 4 then Err(Invalid) else Ok(ControlAck(FromLe(data[1], data[2]), data[3])))
    else if data[0] == 9 then
      if |data| < 97 then Err(Invalid) else Ok(ServerHello(data[1..33], data[33..97]))
    else Err(Invalid)
  }

  /** The length field of a mask update is 16 bits wide: that message comes back exactly when its
      mask data is at most 65535 bytes. */
  lemma MaskUpdateRoundTrip(m: seq<byte>, s: seq<byte>)
    requires |s| == 64
    ensures Decode(Encode(MaskUpdate(m, s))) == Ok(MaskUpdate(m, s)) <==> |m| <= 65535
  {
    var data, len := Encode(MaskUpdate(m, s)), |m| % 0x1_0000;
    U16RoundTrip(len);
    assert FromLe(data[1], data[2]) == len;
    if |m| <= 65535 {
      assert data[3..3 + len] == m;
      assert data[3 + len..3 + len + 64] == s;
    }
  }

  lemma TelemetryRoundTrip(p: nat, r: nat, j: nat, b: byte)
    requires p < 0x1_0000 && r < 0x1_0000 && j < 0x1_0000
    ensures Decode(Encode(TelemetryResponse(p, r, j, b))) == Ok(TelemetryResponse(p, r, j, b))
  {
    U16RoundTrip(p);
    U16RoundTrip(r);
    U16RoundTrip(j);
    hide U16Le, FromBe;
    var data := Encode(TelemetryResponse(p, r, j, b));
    assert data[2] == U16Le(p)[0] && data[3] == U16Le(p)[1];
    assert data[4] == U16Le(r)[0] && data[5] == U16Le(r)[1];
    assert data[6] == U16Le(j)[0] && data[7] == U16Le(j)[1];
  }

  /** Every control message survives encoding and decoding, but for an oversized mask update. */
  lemma ControlRoundTrip(c: ControlPayload)
    requires c.Typed()
    ensures Decode(Encode(c)) == Ok(c) <==> !(c.MaskUpdate? && |c.maskData| > 65535)
  {
    var data := Encode(c);
    match c
    case KeyRotate(k) =>
      U16RoundTrip(32);
      assert data[2] == U16Le(32)[0] && data[3] == U16Le(32)[1] && data[4..36] == k;
    case MaskUpdate(m, s) => MaskUpdateRoundTrip(m, s);
    case TelemetryResponse(p, r, j, b) => TelemetryRoundTrip(p, r, j, b);
    case TimeSync(ts) =>
      LeRoundTrip(ts, 8);
      assert data[1..9] == ToLe(ts, 8);
    case ControlAck(a, f) => U16RoundTrip(a);
    case ServerHello(k, s) => assert data[1..33] == k && data[33..97] == s;
    case _ =>
  }

  lemma U16Layout(n: nat)
    requires n < 0x1_0000
    ensures U16Le(n) == [n % 256, n / 256]
  {}

  lemma TelemetryLayout(p: nat, r: nat, j: nat, b: byte)
    requires p < 0x1_0000 && r < 0x1_0000 && j < 0x1_0000
    ensures Encode(TelemetryResponse(p, r, j, b))
         == [5, 0, p % 256, p / 256, r % 256, r / 256, j % 256, j / 256, b, 0, 0, 0]
  {
    U16Layout(p);
    U16Layout(r);
    U16Layout(j);
    hide U16Le;
  }

  lemma TimeSyncLayout(ts: nat, i: nat)
    requires ts < Pow256(8) && i < 8
    ensures var data := Encode(TimeSync(ts)); |data| == 9 && data[0] == 6 && data[1 + i] == ts / Pow256(i) % 256
  {
    LittleEndian(ts, 8, i);
    hide ToLe;
  }

  /** Every byte of each message. */
  lemma ControlLayout(c: ControlPayload, i: nat)
    requires c.Typed() && i < 8
    ensures var data := Encode(c);
            match c
            case KeyRotate(k) => data == [1, 0, 32, 0] + k
            case MaskUpdate(m, s) => data == [2, |m| % 0x1_0000 % 256, |m| % 0x1_0000 / 256] + m + s
            case Keepalive => data == [3]
            case TelemetryRequest(f) => data == [4, f]
            case TelemetryResponse(p, r, j, b) =>
              data == [5, 0, p % 256, p / 256, r % 256, r / 256, j % 256, j / 256, b, 0, 0, 0]
            case TimeSync(ts) => |data| == 9 && data[0] == 6 && data[1 + i] == ts / Pow256(i) % 256
            case Shutdown(r) => data == [7, r]
            case ControlAck(a, f) => data == [8, a % 256, a / 256, f]
            case ServerHello(k, s) => data == [9] + k + s
  {
    match c
    case MaskUpdate(m, s) =>
      U16Layout(|m| % 0x1_0000);
      assert [2] + [|m| % 0x1_0000 % 256, |m| % 0x1_0000 / 256]
          == [2, |m| % 0x1_0000 % 256, |m| % 0x1_0000 / 256];
    case TelemetryResponse(p, r, j, b) => TelemetryLayout(p, r, j, b);
    case TimeSync(ts) => TimeSyncLayout(ts, i);
    case ControlAck(a, f) => U16Layout(a);
    case _ =>
  }

  /** Exactly the bytes that decode: a known first byte and at least its message's length. */
  lemma DecodesExactly(data: seq<byte>)
    ensures Decode(data).Ok? <==>
              && |data| > 0
              && match data[0] as int
                 case 1 => |data| >= 36 && |data| >= 4 + FromLe(data[2], data[3])
                 case 2 => |data| >= 67 && |data| >= 67 + FromLe(data[1], data[2])
                 case 3 => true
                 case 4 => |data| >= 2
                 case 5 => |data| >= 12
                 case 6 => |data| >= 9
                 case 7 => |data| >= 2
                 case 8 => |data| >= 4
                 case 9 => |data| >= 97
                 case _ => false
  {
    hide FromBe;
  }

  // ---- Acknowledgements -------------------------------------------------------------

  datatype AckPacket = AckPacket(ackSeq: nat, ackBase: nat, bitmap: seq<byte>)

  function EncodeAck(a: AckPacket): seq<byte>
    requires a.ackSeq < 0x1_0000 && a.ackBase < 0x1_0000
  {
    U16Le(TypeCode(Ack)) + U16Le(a.ackSeq) + U16Le(a.ackBase) + [Low(|a.bitmap|)] + a.bitmap
  }

  function DecodeAck(data: seq<byte>): Result<AckPacket, DecodeError> {
    if |data| < 5 then Err(Invalid)
    else if |data| < 7 then Err(OutOfBounds) else
    var len: int := data[6];
    if |data| < 7 + len then Err(Invalid)
    else Ok(AckPacket(FromLe(data[2], data[3]), FromLe(data[4], data[5]), data[7..7 + len]))
  }

  /** An acknowledgement starts like any inner packet of its type; exactly those bytes decode that
      hold its seven fixed ones and as many more as the seventh says. */
  lemma AckLayout(a: AckPacket, data: seq<byte>)
    requires a.ackSeq < 0x1_0000 && a.ackBase < 0x1_0000
    ensures EncodeAck(a)
         == [4, 0, a.ackSeq % 256, a.ackSeq / 256, a.ackBase % 256, a.ackBase / 256, |a.bitmap| % 256] + a.bitmap
    ensures DecodeAck(data).Ok? <==> |data| >= 7 && |data| >= 7 + data[6] as int
  {}

  /** An acknowledgement comes back exactly when its bitmap is at most 255 bytes. */
  lemma AckRoundTrip(a: AckPacket)
    requires a.ackSeq < 0x1_0000 && a.ackBase < 0x1_0000
    ensures DecodeAck(EncodeAck(a)) == Ok(a) <==> |a.bitmap| <= 255
  {
    var data := EncodeAck(a);
    U16RoundTrip(a.ackSeq);
    U16RoundTrip(a.ackBase);
    assert data[2] == U16Le(a.ackSeq)[0] && data[3] == U16Le(a.ackSeq)[1];
    assert data[4] == U16Le(a.ackBase)[0] && data[5] == U16Le(a.ackBase)[1];
    if |a.bitmap| <= 255 {
      assert data[7..7 + |a.bitmap|] == a.bitmap;
    }
  }
}
