/** The command-line client: two receive key epochs, their windows, and the send counters. */
module Client {
  import opened Wrappers
  import opened Logs
  import opened Crypto
  import opened Datagram
  import opened RecvWindow

  const TRANSITION_MS: nat := 2000

  /** The counter state shared with the upload task. */
  datatype Upload = Upload(keys: SessionKeys, counter: nat, seqNum: nat)

  datatype ClientState = ClientState(
    scalar: nat,
    signingPub: Option<nat>,
    session: Option<SessionKeys>,
    recv: Window,
    transition: Option<SessionKeys>,
    transitionRecv: Window,
    deadline: Option<nat>,
    counter: nat,
    upload: Option<Upload>,
    attached: bool,
    engine: bool)
  {
    // ---- Receiving -------------------------------------------------------------

    function ExpireTransition(now: nat): ClientState {
      if deadline.Some? && now >= deadline.value then
        this.(transition := None, deadline := None, transitionRecv := EmptyWindow)
      else this
    }

    /** A datagram decodes under the session keys, else under the transition keys; the result
        names the key and counter it was accepted with. */
    function Receive(d: Datagram, mdhLen: nat, now: nat, tw: nat): (ClientState, Option<(Key, nat)>) {
      var c := ExpireTransition(now);
      if c.session.None? then (c, None) else
      var keys := c.session.value;
      var (w, primary) := Decode(d, keys, c.recv, mdhLen, tw);
      var c1 := c.(recv := w);
      if primary.Some? then (c1.Handle(primary.value.1, now), Some((keys.sessionKey, primary.value.0)))
      else if c1.transition.None? then (c1, None) else
      var former := c1.transition.value;
      var (v, fallback) := Decode(d, former, c1.transitionRecv, mdhLen, tw);
      var c2 := c1.(transitionRecv := v);
      if fallback.Some? then (c2.Handle(fallback.value.1, now), Some((former.sessionKey, fallback.value.0)))
      else (c2, None)
    }

    function Handle(content: Content, now: nat): ClientState {
      match content
      case ControlMessage(ServerHello(serverEph, signature)) => ProcessHello(serverEph, signature, now)
      case ControlMessage(Shutdown) => Disconnect()
      case _ => this
    }

    predicate Authentic(serverEph: Pub, signature: Signature) {
      signingPub.Some? ==> signature == Signature(signingPub.value, serverEph, Pub(scalar))
    }

    /** The keys a ServerHello leads to from the present ones. */
    function NextKeys(serverEph: Pub): Option<SessionKeys> {
      var dh2 := ComputeShared(scalar, serverEph);
      if dh2.None? || session.None? then None
      else Some(DeriveSessionKeys(dh2.value, Some(session.value.sessionKey), Pub(scalar)))
    }

    function ProcessHello(serverEph: Pub, signature: Signature, now: nat): ClientState {
      if !Authentic(serverEph, signature) || NextKeys(serverEph).None? then this else
      var next := NextKeys(serverEph).value;
      this.(transition := session, deadline := Some(now + TRANSITION_MS), transitionRecv := recv,
            session := Some(next), recv := EmptyWindow, counter := 0,
            upload := if attached && upload.Some? then Some(upload.value.(keys := next, counter := 0)) else upload)
    }

    function Disconnect(): ClientState {
      this.(session := None, attached := false, transition := None, deadline := None)
    }

    // ---- Sending -----------------------------------------------------------------

    function StartUpload(seqNum: nat): ClientState {
      if session.None? || !engine then this
      else this.(upload := Some(Upload(session.value, counter, seqNum)), attached := true, engine := false)
    }

    /** A data or keepalive packet from the upload task. */
    function SendUpload(): (ClientState, Option<(Key, nat)>) {
      if upload.None? then (this, None) else
      var u := upload.value;
      (this.(upload := Some(Upload(u.keys, u.counter + 1, (u.seqNum + 1) % 0x1_0000))),
       Some((u.keys.sessionKey, u.counter)))
    }

    /** The initial handshake packet or a control packet. */
    function SendControl(): (ClientState, Option<(Key, nat)>) {
      if !engine then (this, None)
      else if attached && upload.Some? then
        var (c, sealed) := SendUpload();
        (c.(counter := c.upload.value.counter), sealed)
      else if session.None? then (this, None)
      else (this.(counter := counter + 1), Some((session.value.sessionKey, counter)))
    }
  }

  /** `decode_packet_with_mdh_len`: the moved window, and counter and content if accepted. */
  function Decode(d: Datagram, keys: SessionKeys, w: Window, mdhLen: nat, tw: nat): (Window, Option<(nat, Content)>) {
    if d.size < TAG_SIZE + mdhLen + AEAD_LEN then (w, None) else
    var found := w.Find(d.tag, TagOf(keys.tagSecret), tw);
    if found.None? || !d.Opens(keys.sessionKey, found.value, TAG_SIZE + mdhLen) then (w, None) else
    (w.Mark(found.value),
     if d.sealed.plain.Malformed? then None else Some((found.value, d.sealed.plain.content)))
  }

  function TagOf(secret: Key): (nat, nat) -> Tag {
    (c: nat, t: nat) => Tag(secret, c, t)
  }

  /** A connected client before its first packet. */
  function Connected(scalar: nat, signingPub: Option<nat>, keys: SessionKeys): ClientState {
    ClientState(scalar, signingPub, Some(keys), EmptyWindow, None, EmptyWindow, None, 0, None, false, true)
  }

  // ---- What decoding does to a window ---------------------------------------------

  lemma TagsAreUnambiguous(secret: Key, w: Window, now: nat, c: nat, t: nat)
    ensures Unambiguous(w, TagOf(secret), now, c, t)
  {
    forall c': nat, t': nat | TagOf(secret)(c', t') == TagOf(secret)(c, t)
      ensures c' == c
    {
      assert Tag(secret, c', t').counter == Tag(secret, c, t).counter;
    }
  }

  /** What is accepted was new and is not any more; what was not new stays so. */
  lemma DecodeRetires(d: Datagram, keys: SessionKeys, w: Window, mdhLen: nat, tw: nat, c: nat)
    ensures var (w', r) := Decode(d, keys, w, mdhLen, tw);
            && (r.Some? ==>
                  w.IsNew(r.value.0) && !w'.IsNew(r.value.0) && d.sealed.Sealed? && d.sealed.key == keys.sessionKey)
            && (!w.IsNew(c) ==> !w'.IsNew(c))
  {
    FindIsExact(w, d.tag, TagOf(keys.tagSecret), tw);
    var found := w.Find(d.tag, TagOf(keys.tagSecret), tw);
    if found.Some? {
      MarkRetires(w, found.value, c);
      MarkRetires(w, found.value, found.value);
    }
  }

  // ---- The mobile client's handshake ----------------------------------------------

  /** What `process_server_hello_with_mdh_len` works on: one key epoch, its window, its counter. */
  datatype Mobile = Mobile(keys: SessionKeys, window: Window, counter: nat)

  function ProcessHelloPacket(m: Mobile, scalar: nat, d: Datagram, mdhLen: nat, tw: nat): (Mobile, bool) {
    var (w, r) := Decode(d, m.keys, m.window, mdhLen, tw);
    if r.Some? && r.value.1.ControlMessage? && r.value.1.control.ServerHello?
      && ComputeShared(scalar, r.value.1.control.serverEph).Some?
    then
      var dh2 := ComputeShared(scalar, r.value.1.control.serverEph).value;
      (Mobile(DeriveSessionKeys(dh2, Some(m.keys.sessionKey), Pub(scalar)), EmptyWindow, 0), true)
    else (m.(window := w), false)
  }

  /** Given the same keys and window, both clients take the same ServerHello to the same keys, an
      empty window and counter 0, and for any other datagram both keep their keys. */
  lemma MobileRatchetsAlike(m: Mobile, c: ClientState, d: Datagram, mdhLen: nat, now: nat, tw: nat)
    requires c.session == Some(m.keys) && c.recv == m.window && c.counter == m.counter
    requires c.transition.None? && c.signingPub.None?
    ensures var (m', ok) := ProcessHelloPacket(m, c.scalar, d, mdhLen, tw);
            var c' := c.Receive(d, mdhLen, now, tw).0;
            && (ok ==>
                  c'.session == Some(m'.keys) && c'.recv == m'.window == EmptyWindow && c'.counter == m'.counter == 0)
            && (!ok ==> m'.keys == m.keys && (c'.session == None || c'.session == Some(m.keys)) && c'.recv == m'.window)
  {
    hide Window.Find, Window.Mark;
  }

  // ---- Every run -------------------------------------------------------------------

  datatype Event =
    | Arrival(d: Datagram, mdhLen: nat, now: nat, tw: nat)
    | BeginUpload(seqNum: nat)
    | UploadPacket
    | ControlPacket

  datatype Run = Run(c: ClientState, accepted: seq<(Key, nat)>, sent: seq<(Key, nat)>) {
    function Step(e: Event): Run {
      match e
      case Arrival(d, mdhLen, now, tw) =>
        var (c', pair) := c.Receive(d, mdhLen, now, tw);
        Run(c', Log(accepted, pair), sent)
      case BeginUpload(seqNum) => this.(c := c.StartUpload(seqNum))
      case UploadPacket => var (c', pair) := c.SendUpload(); Run(c', accepted, Log(sent, pair))
      case ControlPacket => var (c', pair) := c.SendControl(); Run(c', accepted, Log(sent, pair))
    }
  }

  function Log(log: seq<(Key, nat)>, pair: Option<(Key, nat)>): seq<(Key, nat)> {
    if pair.Some? then log + [pair.value] else log
  }

  function RunAll(c: ClientState, events: seq<Event>): Run {
    if events == [] then Run(c, [], [])
    else RunAll(c, events[..|events| - 1]).Step(events[|events| - 1])
  }

  // ---- Receiving: each (key, counter) at most once ------------------------------------

  /** A logged pair will not be accepted again: its key is current and its counter retired,
      or its key is shallower than the current one and, if in transition, retired there. */
  ghost predicate Spent(c: ClientState, p: (Key, nat)) {
    c.session.Some? ==>
      && Depth(p.0) <= Depth(c.session.value.sessionKey)
      && (p.0 == c.session.value.sessionKey ==> !c.recv.IsNew(p.1))
      && (c.transition.Some? && p.0 == c.transition.value.sessionKey ==> !c.transitionRecv.IsNew(p.1))
  }

  ghost predicate Ordered(c: ClientState) {
    c.session.Some? && c.transition.Some? ==> Depth(c.transition.value.sessionKey) < Depth(c.session.value.sessionKey)
  }

  ghost predicate AcceptedOnce(c: ClientState, log: seq<(Key, nat)>) {
    Ordered(c) && NoRepeats(log) && forall p :: p in log ==> Spent(c, p)
  }

  lemma HandleKeepsOnce(c: ClientState, log: seq<(Key, nat)>, content: Content, now: nat)
    requires AcceptedOnce(c, log)
    ensures AcceptedOnce(c.Handle(content, now), log)
  {
    if content.ControlMessage? && content.control.ServerHello? {
      var c' := c.Handle(content, now);
      if c' != c {
        assert c'.session.value.sessionKey.psk == Some(c.session.value.sessionKey);
        assert Depth(c'.session.value.sessionKey) == 1 + Depth(c.session.value.sessionKey);
      }
    }
  }

  lemma PrimaryKeepsOnce(c: ClientState, log: seq<(Key, nat)>, d: Datagram, mdhLen: nat, tw: nat)
    requires AcceptedOnce(c, log) && c.session.Some?
    ensures var (w, r) := Decode(d, c.session.value, c.recv, mdhLen, tw);
            AcceptedOnce(c.(recv := w),
                         Log(log, if r.Some? then Some((c.session.value.sessionKey, r.value.0)) else None))
  {
    var (w, r) := Decode(d, c.session.value, c.recv, mdhLen, tw);
    forall p | p in log ensures Spent(c.(recv := w), p) {
      DecodeRetires(d, c.session.value, c.recv, mdhLen, tw, p.1);
    }
    DecodeRetires(d, c.session.value, c.recv, mdhLen, tw, 0);
    if r.Some? {
      LogOnce(c.(recv := w), log, (c.session.value.sessionKey, r.value.0));
    }
  }

  lemma LogOnce(c: ClientState, log: seq<(Key, nat)>, p: (Key, nat))
    requires AcceptedOnce(c, log) && p !in log && Spent(c, p)
    ensures AcceptedOnce(c, log + [p])
  {}

  lemma FallbackKeepsOnce(c: ClientState, log: seq<(Key, nat)>, d: Datagram, mdhLen: nat, tw: nat)
    requires AcceptedOnce(c, log) && c.session.Some? && c.transition.Some?
    ensures var (v, r) := Decode(d, c.transition.value, c.transitionRecv, mdhLen, tw);
            AcceptedOnce(c.(transitionRecv := v),
                         Log(log, if r.Some? then Some((c.transition.value.sessionKey, r.value.0)) else None))
  {
    var (v, r) := Decode(d, c.transition.value, c.transitionRecv, mdhLen, tw);
    forall p | p in log ensures Spent(c.(transitionRecv := v), p) {
      DecodeRetires(d, c.transition.value, c.transitionRecv, mdhLen, tw, p.1);
    }
    DecodeRetires(d, c.transition.value, c.transitionRecv, mdhLen, tw, 0);
    if r.Some? {
      LogOnce(c.(transitionRecv := v), log, (c.transition.value.sessionKey, r.value.0));
    }
  }

  lemma ReceiveKeepsOnce(c: ClientState, log: seq<(Key, nat)>, d: Datagram, mdhLen: nat, now: nat, tw: nat)
    requires AcceptedOnce(c, log)
    ensures var (c', pair) := c.Receive(d, mdhLen, now, tw); AcceptedOnce(c', Log(log, pair))
  {
    var e := c.ExpireTransition(now);
    assert AcceptedOnce(e, log);
    hide AcceptedOnce, Decode, ClientState.Handle, ClientState.ExpireTransition;
    if e.session.Some? {
      PrimaryKeepsOnce(e, log, d, mdhLen, tw);
      var (w, r) := Decode(d, e.session.value, e.recv, mdhLen, tw);
      var c1 := e.(recv := w);
      if r.Some? {
        HandleKeepsOnce(c1, log + [(e.session.value.sessionKey, r.value.0)], r.value.1, now);
      } else if c1.transition.Some? {
        FallbackKeepsOnce(c1, log, d, mdhLen, tw);
        var (v, r2) := Decode(d, c1.transition.value, c1.transitionRecv, mdhLen, tw);
        if r2.Some? {
          HandleKeepsOnce(c1.(transitionRecv := v), log + [(c1.transition.value.sessionKey, r2.value.0)], r2.value.1,
                          now);
        }
      }
    }
  }

  /** Over every run, with any ServerHellos, fallback decodes and expired deadlines, each
      (key, counter) pair is accepted at most once. */
  lemma {:induction false} AcceptedAtMostOnce(c: ClientState, events: seq<Event>)
    requires c.transition.None?
    ensures AcceptedOnce(RunAll(c, events).c, RunAll(c, events).accepted)
    decreases |events|
  {
    if events != [] {
      AcceptedAtMostOnce(c, events[..|events| - 1]);
      var r, e := RunAll(c, events[..|events| - 1]), events[|events| - 1];
      match e
      case Arrival(d, mdhLen, now, tw) => ReceiveKeepsOnce(r.c, r.accepted, d, mdhLen, now, tw);
      case BeginUpload(_) =>
      case UploadPacket =>
      case ControlPacket =>
    }
  }

  // ---- Sending: no (key, nonce) twice ---------------------------------------------------

  /** The key the client seals with now, and the next counter for it. */
  function Sealing(c: ClientState): Option<(Key, nat)> {
    if c.upload.Some? then Some((c.upload.value.keys.sessionKey, c.upload.value.counter))
    else if c.session.Some? then Some((c.session.value.sessionKey, c.counter))
    else None
  }

  ghost predicate SentOnce(c: ClientState, log: seq<(Key, nat)>) {
    && NoRepeats(log)
    && (c.upload.Some? ==> !c.engine)
    && (c.upload.Some? && c.session.Some? ==> c.attached && c.upload.value.keys == c.session.value)
    && (c.upload.None? ==> !c.attached)
    && (Sealing(c).Some? ==> forall p :: p in log ==>
          Depth(p.0) <= Depth(Sealing(c).value.0) && (p.0 == Sealing(c).value.0 ==> p.1 < Sealing(c).value.1))
  }

  lemma HandleKeepsSent(c: ClientState, log: seq<(Key, nat)>, content: Content, now: nat)
    requires SentOnce(c, log)
    ensures SentOnce(c.Handle(content, now), log)
  {
    if content.ControlMessage? && content.control.ServerHello? {
      var c' := c.Handle(content, now);
      if c' != c {
        assert Depth(c'.session.value.sessionKey) == 1 + Depth(c.session.value.sessionKey);
      }
    }
  }

  lemma ReceiveKeepsSent(c: ClientState, log: seq<(Key, nat)>, d: Datagram, mdhLen: nat, now: nat, tw: nat)
    requires SentOnce(c, log)
    ensures SentOnce(c.Receive(d, mdhLen, now, tw).0, log)
  {
    hide Decode, ClientState.Handle;
    var e := c.ExpireTransition(now);
    if e.session.Some? {
      var (w, r) := Decode(d, e.session.value, e.recv, mdhLen, tw);
      var c1 := e.(recv := w);
      if r.Some? {
        HandleKeepsSent(c1, log, r.value.1, now);
      } else if c1.transition.Some? {
        var (v, r2) := Decode(d, c1.transition.value, c1.transitionRecv, mdhLen, tw);
        if r2.Some? {
          HandleKeepsSent(c1.(transitionRecv := v), log, r2.value.1, now);
        }
      }
    }
  }

  lemma StepKeepsSent(r: Run, e: Event)
    requires SentOnce(r.c, r.sent)
    ensures SentOnce(r.Step(e).c, r.Step(e).sent)
  {
    match e
    case Arrival(d, mdhLen, now, tw) =>
      hide ClientState.Receive;
      ReceiveKeepsSent(r.c, r.sent, d, mdhLen, now, tw);
    case BeginUpload(_) =>
    case UploadPacket =>
    case ControlPacket =>
  }

  /** Over every run no session key seals two packets with one counter, even when a ServerHello
      lands between two packets: key and counter are swapped together. */
  lemma {:induction false} NoncesNeverRepeat(c: ClientState, events: seq<Event>)
    requires c.upload.None? && !c.attached
    ensures SentOnce(RunAll(c, events).c, RunAll(c, events).sent)
    decreases |events|
  {
    if events != [] {
      NoncesNeverRepeat(c, events[..|events| - 1]);
      StepKeepsSent(RunAll(c, events[..|events| - 1]), events[|events| - 1]);
    }
  }

  /** Under each key the counters used are 0 and on, without a gap. */
  ghost predicate FromZero(log: seq<(Key, nat)>) {
    forall p :: p in log && p.1 > 0 ==> (p.0, p.1 - 1) in log
  }

  ghost predicate UsedUp(c: ClientState, log: seq<(Key, nat)>) {
    && FromZero(log)
    && (Sealing(c).Some? && Sealing(c).value.1 > 0 ==> (Sealing(c).value.0, Sealing(c).value.1 - 1) in log)
  }

  lemma UseNext(log: seq<(Key, nat)>, p: (Key, nat))
    requires FromZero(log) && (p.1 > 0 ==> (p.0, p.1 - 1) in log)
    ensures FromZero(log + [p]) && p in log + [p]
  {
    var longer := log + [p];
    assert longer[|log|] == p;
    forall q | q in longer && q.1 > 0
      ensures (q.0, q.1 - 1) in longer
    {
      assert q in log || q == p;
    }
  }

  lemma HandleKeepsUsed(c: ClientState, log: seq<(Key, nat)>, content: Content, now: nat)
    requires SentOnce(c, log) && UsedUp(c, log)
    ensures UsedUp(c.Handle(content, now), log)
  {}

  lemma ReceiveKeepsUsed(c: ClientState, log: seq<(Key, nat)>, d: Datagram, mdhLen: nat, now: nat, tw: nat)
    requires SentOnce(c, log) && UsedUp(c, log)
    ensures UsedUp(c.Receive(d, mdhLen, now, tw).0, log)
  {
    hide Decode, ClientState.Handle;
    var e := c.ExpireTransition(now);
    if e.session.Some? {
      var (w, r) := Decode(d, e.session.value, e.recv, mdhLen, tw);
      var c1 := e.(recv := w);
      if r.Some? {
        HandleKeepsUsed(c1, log, r.value.1, now);
      } else if c1.transition.Some? {
        var (v, r2) := Decode(d, c1.transition.value, c1.transitionRecv, mdhLen, tw);
        if r2.Some? {
          HandleKeepsUsed(c1.(transitionRecv := v), log, r2.value.1, now);
        }
      }
    }
  }

  lemma StepKeepsUsed(r: Run, e: Event)
    requires SentOnce(r.c, r.sent) && UsedUp(r.c, r.sent)
    ensures UsedUp(r.Step(e).c, r.Step(e).sent)
  {
    match e
    case Arrival(d, mdhLen, now, tw) =>
      hide ClientState.Receive;
      ReceiveKeepsUsed(r.c, r.sent, d, mdhLen, now, tw);
    case BeginUpload(_) =>
    case UploadPacket =>
      if r.c.SendUpload().1.Some? { UseNext(r.sent, r.c.SendUpload().1.value); }
    case ControlPacket =>
      if r.c.SendControl().1.Some? { UseNext(r.sent, r.c.SendControl().1.value); }
  }
}
