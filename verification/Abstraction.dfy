/** The datagrams of the protocol modules are what the bytes of `Wire` stand for: decoding the one
    and decoding the other give the same window and the same result. */
module Abstraction {
  import opened Wrappers
  import opened Bytes
  import C = Crypto
  import D = Datagram
  import RW = RecvWindow
  import Client
  import Codec
  import Session
  import opened Wire

  /** Counters are 64 bits wide. */
  const COUNTERS: nat := Pow256(8)

  type Reading = (Codec.InnerHeader, Buf) -> D.Content

  // ---- Finding a counter ----------------------------------------------------------------

  lemma {:induction false} FirstMatchAlike<S, T>(w: RW.Window, a: S, f: (nat, nat) -> S, b: T, g: (nat, nat) -> T,
                                                         tw: nat, start: nat, end: nat)
    requires forall c: nat :: start <= c < end ==> (f(c, tw) == a <==> g(c, tw) == b)
    ensures w.FirstMatch(a, f, tw, start, end) == w.FirstMatch(b, g, tw, start, end)
    decreases end - start
  {
    if start < end {
      FirstMatchAlike(w, a, f, b, g, tw, start + 1, end);
    }
  }

  lemma FindAlike<S, T>(w: RW.Window, a: S, f: (nat, nat) -> S, b: T, g: (nat, nat) -> T, now: nat)
    requires forall c: nat, t: nat :: w.SearchStart() <= c < w.SearchEnd() && C.NearWindow(now, t) ==>
               (f(c, t) == a <==> g(c, t) == b)
    ensures w.Find(a, f, now) == w.Find(b, g, now)
  {
    FirstMatchAlike(w, a, f, b, g, now, w.SearchStart(), w.SearchEnd());
    FirstMatchAlike(w, a, f, b, g, C.PrevWindow(now), w.SearchStart(), w.SearchEnd());
    FirstMatchAlike(w, a, f, b, g, C.NextWindow(now), w.SearchStart(), w.SearchEnd());
  }

  // ---- At the client ----------------------------------------------------------------------

  /** The first bytes are the tag: of the tags searched for they match exactly those the term matches. */
  ghost predicate TagStands(cs: Suite, packet: Buf, secret: C.Key, tag: C.Tag, w: RW.Window, now: nat) {
    |packet| >= TAG_SIZE ==>
      forall c: nat, t: nat :: w.SearchStart() <= c < w.SearchEnd() && C.NearWindow(now, t) ==>
        (cs.tag(secret, c, t) == packet[..TAG_SIZE] <==> C.Tag(secret, c, t) == tag)
  }

  /** What opens at `offset` under `key` is what the term says opens there. */
  ghost predicate BodyStands(cs: Suite, packet: Buf, key: C.Key, offset: nat, d: D.Datagram, reading: Reading) {
    |packet| >= offset ==>
      forall c: nat :: c < COUNTERS ==>
        BodyReads(cs.open(key, CounterToNonce(c), packet[offset..]), c, key, offset, d, reading)
  }

  predicate BodyReads(unsealed: Option<Buf>, c: nat, key: C.Key, offset: nat, d: D.Datagram, reading: Reading) {
    match unsealed
    case None => !d.Opens(key, c, offset)
    case Some(padded) =>
      && d.Opens(key, c, offset)
      && (match ParsePadded(padded, c)
          case Err(_) => d.sealed.plain.Malformed?
          case Ok(decoded) => d.sealed.plain == D.Plain(reading(decoded.header, decoded.payload)))
  }

  /** Decoding a packet and decoding the datagram it stands for: the same counter is found, the
      window moves alike, and the same content comes out or none does. */
  lemma DecodeAbstracts(cs: Suite, packet: Buf, keys: C.SessionKeys, w: RW.Window, mdhLen: nat, now: nat, d: D.Datagram,
                        reading: Reading)
    requires d.size == |packet| && w.SearchEnd() <= COUNTERS
    requires TagStands(cs, packet, keys.tagSecret, d.tag, w, now)
    requires BodyStands(cs, packet, keys.sessionKey, TAG_SIZE + mdhLen, d, reading)
    ensures var (w1, bytes) := DecodePacket(cs, packet, keys, w, mdhLen, now);
            var (w2, term) := Client.Decode(d, keys, w, mdhLen, now);
            && w1 == w2
            && (match bytes
                case Err(_) => term == None
                case Ok(decoded) => term == Some((decoded.counter, reading(decoded.header, decoded.payload))))
  {
    hide ParsePadded, CounterToNonce, RW.Window.Mark, Pow256;
    if |packet| >= TAG_SIZE + mdhLen + D.AEAD_LEN {
      FindAlike(w, packet[..TAG_SIZE], TagFn(cs, keys.tagSecret), d.tag, Client.TagOf(keys.tagSecret), now);
      var found := w.Find(d.tag, Client.TagOf(keys.tagSecret), now);
      if found.Some? {
        ParsedCounter(packet, cs, keys, found.value, TAG_SIZE + mdhLen);
        RW.FindIsExact(w, d.tag, Client.TagOf(keys.tagSecret), now);
        assert found.value < COUNTERS;
        assert BodyReads(cs.open(keys.sessionKey, CounterToNonce(found.value), packet[TAG_SIZE + mdhLen..]),
                         found.value, keys.sessionKey, TAG_SIZE + mdhLen, d, reading);
      }
    }
  }

  lemma ParsedCounter(packet: Buf, cs: Suite, keys: C.SessionKeys, c: nat, offset: nat)
    requires offset <= |packet|
    ensures var unsealed := cs.open(keys.sessionKey, CounterToNonce(c), packet[offset..]);
            unsealed.Some? && ParsePadded(unsealed.value, c).Ok? ==> ParsePadded(unsealed.value, c).value.counter == c
  {}

  /** A ciphertext opens under the nonce of its own counter only. */
  ghost predicate NonceBinds(cs: Suite, key: C.Key, counter: nat, plain: Buf) {
    forall c: nat :: c < COUNTERS && c != counter ==>
      cs.open(key, CounterToNonce(c), cs.seal(key, CounterToNonce(counter), plain)).None?
  }

  /** Of the tags searched for, none but its own is the tag of this counter and time window. */
  ghost predicate TagTells(cs: Suite, secret: C.Key, w: RW.Window, now: nat, counter: nat, tw: nat) {
    forall c: nat, t: nat ::
      && w.SearchStart() <= c < w.SearchEnd() && C.NearWindow(now, t)
      && cs.tag(secret, c, t) == cs.tag(secret, counter, tw) ==>
      c == counter && t == tw
  }

  /** What the senders build stands for the datagram the protocol modules put on the network. */
  lemma SealedStands(cs: Suite, keys: C.SessionKeys, counter: nat, header: Buf, t: Codec.InnerType, seqNum: nat,
                     payload: Buf, pad: Buf,
                     tw: nat, eph: C.Pub, reading: Reading, w: RW.Window, now: nat)
    requires Sound(cs) && TagTells(cs, keys.tagSecret, w, now, counter, tw) && counter < COUNTERS && |pad| < 0x1_0000
    requires seqNum < 0x1_0000
    requires NonceBinds(cs, keys.sessionKey, counter, Padded(Codec.InnerPacket(t, seqNum, payload), pad))
    ensures var packet := SealPacket(cs, keys, counter, header, Codec.InnerPacket(t, seqNum, payload), pad, tw);
            var d := D.Datagram(C.Tag(keys.tagSecret, counter, tw), |packet|, eph,
                                D.Sealed(keys.sessionKey, counter, TAG_SIZE + |header|,
                                         D.Plain(reading(Codec.InnerHeader(t, seqNum), payload))));
            && TagStands(cs, packet, keys.tagSecret, d.tag, w, now)
            && BodyStands(cs, packet, keys.sessionKey, TAG_SIZE + |header|, d, reading)
  {
    hide ParsePadded, CounterToNonce, Pow256, Padded;
    var inner := Codec.InnerPacket(t, seqNum, payload);
    var sealed := cs.seal(keys.sessionKey, CounterToNonce(counter), Padded(inner, pad));
    var packet := SealPacket(cs, keys, counter, header, inner, pad, tw);
    assert packet[..TAG_SIZE] == cs.tag(keys.tagSecret, counter, tw);
    assert packet[TAG_SIZE + |header|..] == sealed;
    ParsesBack(t, seqNum, payload, pad, counter);
  }

  // ---- At the server --------------------------------------------------------------------------

  /** As `BodyReads`, with what makes a payload unusable to the server: its padding. */
  predicate ServerReads(unsealed: Option<Buf>, c: nat, key: C.Key, offset: nat, d: D.Datagram) {
    match unsealed
    case None => !d.Opens(key, c, offset)
    case Some(padded) =>
      && d.Opens(key, c, offset)
      && (d.sealed.plain.Malformed? <==> |padded| < 2 || 2 + FromLe(padded[0], padded[1]) > |padded|)
  }

  /** The server extracts an inner packet from the bytes exactly when the session accepts the
      datagram they stand for. */
  lemma OpeningAbstracts(cs: Suite, packet: Buf, s: Session.SessionState, c: nat, ratcheted: bool, isNew: bool,
                         d: D.Datagram,
                         from: Session.Addr, tw: nat)
    requires d.size == |packet| && s.OpeningKey(ratcheted).Some?
    requires var offset := D.PayloadOffset(|packet|, isNew, ratcheted, s.isRatcheted);
             var key := s.OpeningKey(ratcheted).value;
             |packet| > offset ==> ServerReads(cs.open(key, CounterToNonce(c), packet[offset..]), c, key, offset, d)
    ensures ServerOpen(cs, packet, s.OpeningKey(ratcheted).value, c, isNew, ratcheted, s.isRatcheted).Some?
       <==> s.Accept(d, c, ratcheted, isNew, from, tw).1
  {
    hide CounterToNonce, Session.SessionState.Receive, Session.SessionState.CompleteRatchet;
  }
}
