/** Packets as bytes: sealing by either endpoint, opening by the client and by the server.

    The cipher and the tag function are arguments; `Sound` says what is used of them. */
module Wire {
  import opened Wrappers
  import opened Bytes
  import opened Codec
  import C = Crypto
  import RW = RecvWindow
  import D = Datagram

  const TAG_SIZE: nat := D.TAG_SIZE
  const POLY1305_TAG_SIZE: nat := D.AEAD_LEN
  const SERVER_MDH_LEN: nat := D.MDH_LEN
  const EPH_LEN: nat := D.EPH_LEN
  const SAFE_OUTER_PACKET_BUDGET: nat := 1380
  const MAX_PACKET_SIZE: nat := 1500
  const WAN_SAFE_TUN_MTU: nat := 1346

  type Buf = seq<byte>

  datatype Suite = Suite(
    tag: (C.Key, nat, nat) -> Buf,
    seal: (C.Key, Buf, Buf) -> Buf,
    open: (C.Key, Buf, Buf) -> Option<Buf>)

  /** Tags are 8 bytes; sealing adds 16 bytes, and opening with the same key and nonce undoes it. */
  ghost predicate Sound(cs: Suite) {
    && (forall k, c, t :: |cs.tag(k, c, t)| == TAG_SIZE)
    && (forall k, n, p :: |cs.seal(k, n, p)| == |p| + POLY1305_TAG_SIZE)
    && (forall k, n, p :: cs.open(k, n, cs.seal(k, n, p)) == Some(p))
  }

  function TagFn(cs: Suite, secret: C.Key): (nat, nat) -> Buf {
    (c: nat, t: nat) => cs.tag(secret, c, t)
  }

  // ---- Nonces ------------------------------------------------------------------

  function CounterToNonce(counter: nat): Buf {
    ToLe(counter, 8) + [0, 0, 0, 0]
  }

  /** Different 64-bit counters give different nonces. */
  lemma NoncesDiffer(a: nat, b: nat)
    requires a < Pow256(8) && b < Pow256(8) && a != b
    ensures CounterToNonce(a) != CounterToNonce(b)
  {
    LeRoundTrip(a, 8);
    LeRoundTrip(b, 8);
    assert ToLe(a, 8) == CounterToNonce(a)[..8];
    assert ToLe(b, 8) == CounterToNonce(b)[..8];
  }

  /** A nonce is 12 bytes: the counter's 64 low bits, lowest byte first, then four zeros. */
  lemma NonceLayout(counter: nat, i: nat)
    requires i < 8
    ensures |CounterToNonce(counter)| == 12 && CounterToNonce(counter)[i] == (counter / Pow256(i)) % 256
    ensures CounterToNonce(counter)[8..] == [0, 0, 0, 0]
  {
    LittleEndian(counter, 8, i);
  }

  // ---- Sealing -------------------------------------------------------------------

  function Padded(inner: Buf, pad: Buf): Buf
    requires |pad| < 0x1_0000
  {
    U16Le(|pad|) + inner + pad
  }

  /** TAG | header | ciphertext, the form of every sender. */
  function SealPacket(cs: Suite, keys: C.SessionKeys, counter: nat, header: Buf, inner: Buf, pad: Buf, tw: nat): Buf
    requires |pad| < 0x1_0000
  {
    cs.tag(keys.tagSecret, counter, tw) + header + cs.seal(keys.sessionKey, CounterToNonce(counter), Padded(inner, pad))
  }

  /** Where everything is in a packet: 8 bytes of tag, the header, the ciphertext; and in what it
      hides: two bytes of padding length, the low one first, the inner packet, the padding. */
  lemma SealedLayout(cs: Suite, keys: C.SessionKeys, counter: nat, header: Buf, inner: Buf, pad: Buf, tw: nat)
    requires Sound(cs) && |pad| < 0x1_0000
    ensures var packet := SealPacket(cs, keys, counter, header, inner, pad, tw);
            var plain := [Low(|pad|), Low(|pad| / 256)] + inner + pad;
            && packet[..8] == cs.tag(keys.tagSecret, counter, tw) && packet[8..8 + |header|] == header
            && packet[8 + |header|..] == cs.seal(keys.sessionKey, CounterToNonce(counter), plain)
            && |packet| == 8 + |header| + 2 + |inner| + |pad| + 16
  {
    hide CounterToNonce;
    var tag, sealed := cs.tag(keys.tagSecret, counter, tw),
                       cs.seal(keys.sessionKey, CounterToNonce(counter), Padded(inner, pad));
    ThreeParts(tag, header, sealed);
  }

  lemma ThreeParts(a: Buf, b: Buf, c: Buf)
    ensures var all := a + b + c; all[..|a|] == a && all[|a|..|a| + |b|] == b && all[|a| + |b|..] == c
  {}

  /** Random padding of length `n`. */
  function Noise(n: nat, noise: nat -> byte): (pad: Buf)
    ensures |pad| == n
  {
    seq(n, (i: nat) => noise(i))
  }

  /** `8 + (random as u16) % 16`. */
  function ZeroMdhPadLen(random: nat): nat { 8 + (random % 0x1_0000) % 16 }

  function BuildZeroMdhPacket(cs: Suite, keys: C.SessionKeys, counter: nat, inner: Buf, eph: Option<Buf>,
                              random: nat, noise: nat -> byte, tw: nat): Buf {
    SealPacket(cs, keys, counter, [0, 0, 0, 0] + (if eph.Some? then eph.value else []), inner,
               Noise(ZeroMdhPadLen(random), noise), tw)
  }

  // ---- The traffic-shaping sender ---------------------------------------------------

  datatype Mask = Mask(headerTemplate: Buf, ephPubOffset: nat, ephPubLength: nat)

  function Zeros(n: nat): Buf { seq(n, _ => 0) }

  /** The header template, with the ephemeral key written over it at its offset. */
  function BuildMdh(mask: Mask, eph: Option<Buf>): Buf
    requires eph.Some? ==> |eph.value| == mask.ephPubLength
  {
    if eph.None? then mask.headerTemplate else
    var required := mask.ephPubOffset + mask.ephPubLength;
    var mdh := if |mask.headerTemplate| < required then mask.headerTemplate + Zeros(required - |mask.headerTemplate|)
               else mask.headerTemplate;
    mdh[..mask.ephPubOffset] + eph.value + mdh[required..]
  }

  function BaseOverhead(mdh: Buf, plaintext: Buf): nat {
    TAG_SIZE + |mdh| + 2 + |plaintext| + POLY1305_TAG_SIZE
  }

  /** The padding drawn by the mask, clamped to what the packet budget leaves. */
  function PadLen(overhead: nat, requested: nat): nat {
    var budget := if SAFE_OUTER_PACKET_BUDGET < MAX_PACKET_SIZE then SAFE_OUTER_PACKET_BUDGET else MAX_PACKET_SIZE;
    var room := if budget < overhead then 0 else budget - overhead;
    if requested < room % 0x1_0000 then requested else room % 0x1_0000
  }

  class MimicryEngine {
    var mask: Mask

    constructor (mask: Mask)
      ensures this.mask == mask
    {
      this.mask := mask;
    }

    method UpdateMask(newMask: Mask)
      modifies this
      ensures mask == newMask
    {
      mask := newMask;
    }

    /** Seals one packet, whatever padding the mask draws, and advances the counter. */
    method BuildPacket(cs: Suite, plaintext: Buf, keys: C.SessionKeys, counter: nat, eph: Option<Buf>,
                       requested: nat, noise: nat -> byte, tw: nat) returns (packet: Buf, next: nat)
      requires eph.Some? ==> |eph.value| == mask.ephPubLength
      ensures next == counter + 1
      ensures var mdh := BuildMdh(mask, eph);
              packet == SealPacket(cs, keys, counter, mdh, plaintext,
                                   Noise(PadLen(BaseOverhead(mdh, plaintext), requested), noise), tw)
    {
      var mdh := BuildMdh(mask, eph);
      var padLen := PadLen(BaseOverhead(mdh, plaintext), requested);
      var padded := U16Le(padLen) + plaintext;
      padded := padded + Noise(padLen, noise);
      var ciphertext := cs.seal(keys.sessionKey, CounterToNonce(counter), padded);
      var tag := cs.tag(keys.tagSecret, counter, tw);
      next := counter + 1;
      packet := tag + mdh + ciphertext;
    }
  }

  /** A shaped packet keeps the budget of 1380 bytes, unless it is over without any padding. */
  lemma ShapedSize(cs: Suite, keys: C.SessionKeys, counter: nat, mdh: Buf, plaintext: Buf, requested: nat,
                   noise: nat -> byte, tw: nat)
    requires Sound(cs)
    ensures var base := BaseOverhead(mdh, plaintext);
            var size := |SealPacket(cs, keys, counter, mdh, plaintext, Noise(PadLen(base, requested), noise), tw)|;
            base <= size <= (if base < 1380 then 1380 else base)
  {}

  /** The padding asked for is given when the packet then has at most 1380 bytes; otherwise the packet
      is filled to 1380 bytes, or not padded at all if it has them already. */
  lemma PaddingGiven(cs: Suite, keys: C.SessionKeys, counter: nat, mdh: Buf, plaintext: Buf, requested: nat,
                     noise: nat -> byte, tw: nat)
    requires Sound(cs)
    ensures var bare := 8 + |mdh| + 2 + |plaintext| + 16;
            |SealPacket(cs, keys, counter, mdh, plaintext,
                        Noise(PadLen(BaseOverhead(mdh, plaintext), requested), noise), tw)|
            == if bare + requested <= 1380 then bare + requested else if bare <= 1380 then 1380 else bare
  {}

  /** A packet from the tunnel with the four-byte header fits the budget, for every padding drawn,
      exactly when it is no longer than the tunnel's packet size. */
  lemma TunnelPacketFits(cs: Suite, keys: C.SessionKeys, counter: nat, mdh: Buf, seqNum: nat, payload: Buf,
                         noise: nat -> byte, tw: nat)
    requires Sound(cs) && |mdh| == 4 && seqNum < 0x1_0000
    ensures var inner := InnerPacket(Data, seqNum, payload);
            (forall requested: nat ::
               |SealPacket(cs, keys, counter, mdh, inner, Noise(PadLen(BaseOverhead(mdh, inner), requested), noise),
                           tw)| <= 1380)
            <==> |payload| <= WAN_SAFE_TUN_MTU
  {
    var inner := InnerPacket(Data, seqNum, payload);
    HeaderRoundTrip(Data, seqNum, payload);
    forall requested: nat
      ensures |SealPacket(cs, keys, counter, mdh, inner, Noise(PadLen(BaseOverhead(mdh, inner), requested), noise), tw)|
           == BaseOverhead(mdh, inner) + PadLen(BaseOverhead(mdh, inner), requested)
    {}
    assert PadLen(BaseOverhead(mdh, inner), 0) == 0;
    assert |SealPacket(cs, keys, counter, mdh, inner, Noise(PadLen(BaseOverhead(mdh, inner), 0), noise), tw)|
        == BaseOverhead(mdh, inner);
  }

  // ---- Opening at the client -----------------------------------------------------------

  datatype Decoded = Decoded(counter: nat, header: InnerHeader, payload: Buf)

  /** Everything after decryption: padding length, inner header, payload. */
  function ParsePadded(padded: Buf, counter: nat): Result<Decoded, DecodeError> {
    if |padded| < 2 then Err(Invalid) else
    var padLen := FromLe(padded[0], padded[1]);
    if |padded| < padLen || |padded| - padLen < 2 then Err(Invalid) else
    var inner := padded[2..|padded| - padLen];
    if |inner| < 4 then Err(Invalid) else
    match DecodeHeader(inner)
    case Err(e) => Err(e)
    case Ok(header) => Ok(Decoded(counter, header, inner[4..]))
  }

  function DecodePacket(cs: Suite, packet: Buf, keys: C.SessionKeys, w: RW.Window, mdhLen: nat, now: nat)
    : (RW.Window, Result<Decoded, DecodeError>)
  {
    if |packet| < TAG_SIZE + mdhLen + 16 then (w, Err(Invalid)) else
    var found := w.Find(packet[..TAG_SIZE], TagFn(cs, keys.tagSecret), now);
    if found.None? then (w, Err(Invalid)) else
    var unsealed := cs.open(keys.sessionKey, CounterToNonce(found.value), packet[TAG_SIZE + mdhLen..]);
    if unsealed.None? then (w, Err(Invalid)) else
    (w.Mark(found.value), ParsePadded(unsealed.value, found.value))
  }

  lemma ParsesBack(t: InnerType, seqNum: nat, payload: Buf, pad: Buf, counter: nat)
    requires |pad| < 0x1_0000 && seqNum < 0x1_0000
    ensures ParsePadded(Padded(InnerPacket(t, seqNum, payload), pad), counter)
         == Ok(Decoded(counter, InnerHeader(t, seqNum), payload))
  {
    var inner := InnerPacket(t, seqNum, payload);
    var padded := Padded(inner, pad);
    U16RoundTrip(|pad|);
    HeaderRoundTrip(t, seqNum, payload);
    assert padded[0] == U16Le(|pad|)[0] && padded[1] == U16Le(|pad|)[1];
    assert padded[2..|padded| - |pad|] == inner;
  }

  /** Exactly what parses once decrypted: room for the padding length, the inner header and as much
      padding as it says, and a known type; the payload is what lies between. */
  lemma ParsesExactly(padded: Buf, counter: nat)
    ensures var r := ParsePadded(padded, counter);
            && (r.Ok? <==>
                  && |padded| >= 6 && |padded| >= 6 + FromLe(padded[0], padded[1])
                  && 1 <= padded[2] <= 4 && padded[3] == 0)
            && (r.Ok? ==>
                  && r.value.counter == counter && r.value.header.seqNum == FromLe(padded[4], padded[5])
                  && r.value.payload == padded[6..|padded| - FromLe(padded[0], padded[1])])
  {
    if |padded| >= 6 && |padded| >= 6 + FromLe(padded[0], padded[1]) {
      var inner := padded[2..|padded| - FromLe(padded[0], padded[1])];
      HeaderLayout(Data, 0, inner);
      assert inner[4..] == padded[6..|padded| - FromLe(padded[0], padded[1])];
    }
  }

  ghost predicate InSearchRange(w: RW.Window, counter: nat) {
    w.IsNew(counter) && (if w.highest < 0 then counter < 4096 else counter <= w.highest + 4096)
  }

  /** Seal and open: a packet of any sender, with any padding and header, opens at the client to
      what was sealed, when its counter is new and in range and its time window is near. */
  lemma SealOpen(cs: Suite, keys: C.SessionKeys, counter: nat, header: Buf, t: InnerType, seqNum: nat, payload: Buf,
                 pad: Buf,
                 sentAt: nat, w: RW.Window, now: nat)
    requires Sound(cs) && RW.Unambiguous(w, TagFn(cs, keys.tagSecret), now, counter, sentAt)
    requires |pad| < 0x1_0000 && seqNum < 0x1_0000 && InSearchRange(w, counter) && C.NearWindow(now, sentAt)
    ensures DecodePacket(cs, SealPacket(cs, keys, counter, header, InnerPacket(t, seqNum, payload), pad, sentAt), keys,
                         w, |header|, now)
         == (w.Mark(counter), Ok(Decoded(counter, InnerHeader(t, seqNum), payload)))
  {
    var inner := InnerPacket(t, seqNum, payload);
    var sealed := cs.seal(keys.sessionKey, CounterToNonce(counter), Padded(inner, pad));
    var packet := SealPacket(cs, keys, counter, header, inner, pad, sentAt);
    assert packet[..8] == cs.tag(keys.tagSecret, counter, sentAt) == TagFn(cs, keys.tagSecret)(counter, sentAt);
    assert packet[8 + |header|..] == sealed;
    RW.FindsGenuine(w, TagFn(cs, keys.tagSecret), now, counter, sentAt);
    ParsesBack(t, seqNum, payload, pad, counter);
  }

  /** What the plain sender builds comes back, whatever padding is drawn. */
  lemma ZeroMdhRoundTrip(cs: Suite, keys: C.SessionKeys, counter: nat, t: InnerType, seqNum: nat, payload: Buf,
                         random: nat, noise: nat -> byte, sentAt: nat, w: RW.Window, now: nat)
    requires Sound(cs) && RW.Unambiguous(w, TagFn(cs, keys.tagSecret), now, counter, sentAt)
    requires seqNum < 0x1_0000 && InSearchRange(w, counter) && C.NearWindow(now, sentAt)
    ensures DecodePacket(cs,
                         BuildZeroMdhPacket(cs, keys, counter, InnerPacket(t, seqNum, payload), None, random, noise,
                                            sentAt),
                         keys, w, 4, now)
         == (w.Mark(counter), Ok(Decoded(counter, InnerHeader(t, seqNum), payload)))
  {
    hide SealPacket, DecodePacket, RW.Unambiguous, InSearchRange, InnerPacket, Sound;
    SealOpen(cs, keys, counter, [0, 0, 0, 0], t, seqNum, payload, Noise(ZeroMdhPadLen(random), noise), sentAt, w, now);
    assert [0, 0, 0, 0] + [] == [0, 0, 0, 0];
  }

  /** The plain sender's first packet: tag, four zero bytes, the client's key, the ciphertext, 8 to 23
      bytes of padding inside.  It opens at the server, which finds the key in bytes 12 to 43, for a
      new session and, retransmitted, for one that has not ratcheted. */
  lemma ZeroMdhHandshake(cs: Suite, keys: C.SessionKeys, counter: nat, inner: Buf, eph: Buf, random: nat,
                         noise: nat -> byte, tw: nat, isNew: bool)
    requires Sound(cs) && |eph| == 32
    ensures var packet := BuildZeroMdhPacket(cs, keys, counter, inner, Some(eph), random, noise, tw);
            && packet[..8] == cs.tag(keys.tagSecret, counter, tw)
            && packet[8..12] == [0, 0, 0, 0] && packet[12..44] == eph
            && 70 <= |packet| - |inner| <= 85
            && ServerOpen(cs, packet, keys.sessionKey, counter, isNew, false, false) == Some(inner)
  {
    var header: Buf := [0, 0, 0, 0] + eph;
    var pad := Noise(ZeroMdhPadLen(random), noise);
    var packet := BuildZeroMdhPacket(cs, keys, counter, inner, Some(eph), random, noise, tw);
    SealedLayout(cs, keys, counter, header, inner, pad, tw);
    HandshakeOpensAtServer(cs, keys, counter, [0, 0, 0, 0], eph, inner, pad, tw, isNew);
    hide SealPacket, ServerOpen;
    assert packet[8..12] == packet[8..44][..4] == [0, 0, 0, 0];
    assert packet[12..44] == packet[8..44][4..] == eph;
  }

  /** Its other packets: tag, four zero bytes, the ciphertext, 8 to 23 bytes of padding inside. */
  lemma ZeroMdhLayout(cs: Suite, keys: C.SessionKeys, counter: nat, inner: Buf, random: nat, noise: nat -> byte,
                      tw: nat)
    requires Sound(cs)
    ensures var packet := BuildZeroMdhPacket(cs, keys, counter, inner, None, random, noise, tw);
            && packet[..8] == cs.tag(keys.tagSecret, counter, tw) && packet[8..12] == [0, 0, 0, 0]
            && |packet| == 38 + |inner| + (random % 16)
  {
    var header: Buf := [0, 0, 0, 0];
    assert header + [] == header;
    SealedLayout(cs, keys, counter, header, inner, Noise(ZeroMdhPadLen(random), noise), tw);
    hide SealPacket;
  }

  /** What the shaping sender builds comes back under the mask's header, whatever padding the
      mask asks for. */
  lemma ShapedRoundTrip(cs: Suite, keys: C.SessionKeys, counter: nat, mask: Mask, t: InnerType, seqNum: nat,
                        payload: Buf,
                        requested: nat, noise: nat -> byte, sentAt: nat, w: RW.Window, now: nat)
    requires Sound(cs) && RW.Unambiguous(w, TagFn(cs, keys.tagSecret), now, counter, sentAt)
    requires seqNum < 0x1_0000 && InSearchRange(w, counter) && C.NearWindow(now, sentAt)
    ensures var (mdh, inner) := (BuildMdh(mask, None), InnerPacket(t, seqNum, payload));
            var packet := SealPacket(cs, keys, counter, mdh, inner,
                                     Noise(PadLen(BaseOverhead(mdh, inner), requested), noise), sentAt);
            DecodePacket(cs, packet, keys, w, |mask.headerTemplate|, now)
            == (w.Mark(counter), Ok(Decoded(counter, InnerHeader(t, seqNum), payload)))
  {
    hide SealPacket, DecodePacket, RW.Unambiguous, InSearchRange, InnerPacket, Sound;
    var mdh := mask.headerTemplate;
    var padLen := PadLen(BaseOverhead(mdh, InnerPacket(t, seqNum, payload)), requested);
    SealOpen(cs, keys, counter, mdh, t, seqNum, payload, Noise(padLen, noise), sentAt, w, now);
  }

  /** A control message sent through a whole packet comes back, but for an oversized mask update. */
  lemma ControlThroughPacket(cs: Suite, keys: C.SessionKeys, counter: nat, header: Buf, seqNum: nat, c: ControlPayload,
                             pad: Buf,
                             sentAt: nat, w: RW.Window, now: nat)
    requires Sound(cs) && RW.Unambiguous(w, TagFn(cs, keys.tagSecret), now, counter, sentAt) && c.Typed()
    requires |pad| < 0x1_0000 && seqNum < 0x1_0000 && InSearchRange(w, counter) && C.NearWindow(now, sentAt)
    ensures var packet := SealPacket(cs, keys, counter, header, InnerPacket(Control, seqNum, Encode(c)), pad, sentAt);
            var unsealed := DecodePacket(cs, packet, keys, w, |header|, now).1;
            unsealed.Ok? && (Decode(unsealed.value.payload) == Ok(c) <==> !(c.MaskUpdate? && |c.maskData| > 65535))
  {
    hide SealPacket, DecodePacket, Decode, Encode, RW.Unambiguous, InSearchRange, InnerPacket;
    SealOpen(cs, keys, counter, header, Control, seqNum, Encode(c), pad, sentAt, w, now);
    ControlRoundTrip(c);
  }

  // ---- Opening at the server --------------------------------------------------------------

  /** The inner packet the server extracts with the key and counter its tag check yielded. */
  function ServerOpen(cs: Suite, packet: Buf, key: C.Key, counter: nat, isNew: bool, ratchetedTag: bool,
                      sessionRatcheted: bool): Option<Buf> {
    var offset := D.PayloadOffset(|packet|, isNew, ratchetedTag, sessionRatcheted);
    if |packet| <= offset then None else
    var unsealed := cs.open(key, CounterToNonce(counter), packet[offset..]);
    if unsealed.None? || |unsealed.value| < 2 then None else
    var padded := unsealed.value;
    var padLen := FromLe(padded[0], padded[1]);
    if 2 + padLen > |padded| then None else Some(padded[2..|padded| - padLen])
  }

  /** A ciphertext without its first `n` bytes does not open under its own key and nonce. */
  predicate TruncationFails(cs: Suite, key: C.Key, nonce: Buf, ciphertext: Buf, n: nat)
  {
    |ciphertext| >= n ==> cs.open(key, nonce, ciphertext[n..]).None?
  }

  lemma ServerUnpads(inner: Buf, pad: Buf)
    requires |pad| < 0x1_0000
    ensures var padded := Padded(inner, pad);
            && |padded| >= 2 + |pad| && FromLe(padded[0], padded[1]) == |pad| && padded[2..|padded| - |pad|] == inner
  {
    U16RoundTrip(|pad|);
    var padded := Padded(inner, pad);
    assert padded[0] == U16Le(|pad|)[0] && padded[1] == U16Le(|pad|)[1];
  }

  /** A data packet (four-byte header, no key) opens at the server exactly when it is not taken
      for one that carries a key: the session has ratcheted, or the tag is a ratcheted one, or
      the packet is shorter than 60 bytes; and it is not the first of its session. */
  lemma DataOpensAtServer(cs: Suite, keys: C.SessionKeys, counter: nat, header: Buf, inner: Buf, pad: Buf, tw: nat,
                          isNew: bool, ratchetedTag: bool, sessionRatcheted: bool)
    requires Sound(cs) && |header| == SERVER_MDH_LEN && |pad| < 0x1_0000
    requires TruncationFails(cs, keys.sessionKey, CounterToNonce(counter),
                             cs.seal(keys.sessionKey, CounterToNonce(counter), Padded(inner, pad)), EPH_LEN)
    ensures var packet := SealPacket(cs, keys, counter, header, inner, pad, tw);
            ServerOpen(cs, packet, keys.sessionKey, counter, isNew, ratchetedTag, sessionRatcheted) == Some(inner)
            <==> !isNew && (ratchetedTag || sessionRatcheted || |packet| < 60)
  {
    var nonce := CounterToNonce(counter);
    var sealed := cs.seal(keys.sessionKey, nonce, Padded(inner, pad));
    var packet := SealPacket(cs, keys, counter, header, inner, pad, tw);
    assert packet[12..] == sealed;
    ServerUnpads(inner, pad);
    var offset := D.PayloadOffset(|packet|, isNew, ratchetedTag, sessionRatcheted);
    hide Padded, CounterToNonce, FromBe;
    if offset == 44 && |packet| > 44 {
      assert packet[44..] == sealed[32..];
    }
  }

  /** A packet with the client's key in front opens at the server when it is the first of its
      session, and, retransmitted, until the session ratchets. */
  lemma HandshakeOpensAtServer(cs: Suite, keys: C.SessionKeys, counter: nat, header: Buf, eph: Buf, inner: Buf,
                               pad: Buf, tw: nat, isNew: bool)
    requires Sound(cs) && |header| == SERVER_MDH_LEN && |eph| == EPH_LEN && |pad| < 0x1_0000
    ensures ServerOpen(cs, SealPacket(cs, keys, counter, header + eph, inner, pad, tw), keys.sessionKey, counter, isNew,
                       false, false) == Some(inner)
  {
    var sealed := cs.seal(keys.sessionKey, CounterToNonce(counter), Padded(inner, pad));
    var packet := SealPacket(cs, keys, counter, header + eph, inner, pad, tw);
    assert packet[44..] == sealed;
    ServerUnpads(inner, pad);
  }

  /** The shaped header: the template, lengthened with zeros to reach the key's end, and the key over
      it at its offset; without a key the template. */
  lemma MdhLayout(mask: Mask, eph: Buf, i: nat)
    requires |eph| == mask.ephPubLength
    ensures BuildMdh(mask, None) == mask.headerTemplate
    ensures var (mdh, template, start) := (BuildMdh(mask, Some(eph)), mask.headerTemplate, mask.ephPubOffset);
            && |mdh| == (if |template| < start + |eph| then start + |eph| else |template|)
            && mdh[start..start + |eph|] == eph
            && (i < |mdh| && !(start <= i < start + |eph|) ==> mdh[i] == if i < |template| then template[i] else 0)
  {
    var (mdh, start) := (BuildMdh(mask, Some(eph)), mask.ephPubOffset);
    assert mdh[start..start + |eph|] == eph;
  }

  /** With the usual masks (key right after a four-byte template) the shaped handshake packet has
      that very form. */
  lemma PresetMdh(mask: Mask, eph: Buf)
    requires |mask.headerTemplate| == 4 && mask.ephPubOffset == 4 && mask.ephPubLength == 32 && |eph| == 32
    ensures BuildMdh(mask, Some(eph)) == mask.headerTemplate + eph
  {}
}
