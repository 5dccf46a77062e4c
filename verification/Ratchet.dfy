/** The key ratchet between one client and the session its handshake opened, over a network
    that loses, duplicates and reorders: anything ever sent may arrive at any time, or never. */
module Ratchet {
  import opened Wrappers
  import opened Crypto
  import opened Datagram
  import opened Session
  import SessionRun
  import SessionTable
  import GatewayInvariants
  import opened Client
  import RecvWindow

  /** The two parties: identity of the server, client scalar, session scalar, pre-shared key. */
  datatype Parties = Parties(id: SessionTable.Identity, scalar: nat, serverEph: nat, psk: Option<Key>)

  /** `hellos` counts the ServerHellos the client has processed. */
  datatype System = System(client: ClientState, server: SessionState, net: set<Datagram>, hellos: nat)

  /** The chain of keys a client goes through, one per processed ServerHello. */
  function Keys(p: Parties, n: nat): SessionKeys {
    if n == 0 then
      DeriveSessionKeys(ComputeShared(p.scalar, Pub(p.id.scalar)).value, p.psk, Pub(p.scalar))
    else
      DeriveSessionKeys(ComputeShared(p.scalar, Pub(p.serverEph)).value, Some(Keys(p, n - 1).sessionKey), Pub(p.scalar))
  }

  lemma {:induction false} DepthOfKeys(p: Parties, n: nat)
    ensures Depth(Keys(p, n).sessionKey) == Depth(Keys(p, 0).sessionKey) + n
    ensures Depth(Keys(p, n).tagSecret) == Depth(Keys(p, n).sessionKey)
  {
    if n > 0 {
      DepthOfKeys(p, n - 1);
    }
  }

  /** Keys of different links differ, in the session key and in the tag secret. */
  lemma KeysDiffer(p: Parties, m: nat, n: nat)
    requires m != n
    ensures Keys(p, m).sessionKey != Keys(p, n).sessionKey
    ensures Keys(p, m).tagSecret != Keys(p, n).tagSecret
  {
    DepthOfKeys(p, m);
    DepthOfKeys(p, n);
  }

  /** Right after the handshake: the client with its first keys, the session built for it. */
  ghost predicate Start(p: Parties, y: System) {
    && y.client.scalar == p.scalar
    && y.client == Connected(p.scalar, y.client.signingPub, Keys(p, 0))
    && (exists draw: SessionTable.Draw, from: Addr, tw: nat ::
          draw.serverEph == p.serverEph &&
          SessionTable.Build(p.id, draw, from, Pub(p.scalar), p.psk, tw) == Some(y.server))
    && y.net == {} && y.hellos == 0
  }

  /** Every pair of parties can start. */
  lemma StartExists(p: Parties, signingPub: Option<nat>, draw: SessionTable.Draw, from: Addr, tw: nat)
      returns (y: System)
    requires draw.serverEph == p.serverEph
    ensures Start(p, y) && y.client.signingPub == signingPub
  {
    SharedCommutes(p.id.scalar, p.scalar);
    var server := SessionTable.Build(p.id, draw, from, Pub(p.scalar), p.psk, tw);
    y := System(Connected(p.scalar, signingPub, Keys(p, 0)), server.value, {}, 0);
  }

  // ---- Steps ----------------------------------------------------------------------------

  datatype Event =
    | BeginUpload(seqNum: nat)
    | ClientSend(viaUpload: bool, content: Content, size: nat, eph: Pub, offset: nat, tw: nat)
    | ServerSend(content: Content, size: nat, tw: nat)
    | ToServer(d: Datagram, isNew: bool, from: Addr, tw: nat)
    | Recover(d: Datagram, from: Addr, tw: nat)
    | Refresh(tw: nat)
    | ToClient(d: Datagram, mdhLen: nat, now: nat, tw: nat)

  predicate IsHello(content: Content) {
    content.ControlMessage? && content.control.ServerHello?
  }

  /** Only what was sent arrives; a client sends no ServerHello, and a server sends only its own
      and only before the ratchet. */
  predicate Enabled(y: System, e: Event) {
    match e
    case ClientSend(_, content, _, _, _, _) => !IsHello(content)
    case ServerSend(content, _, _) =>
      IsHello(content) ==>
        y.server.serverEphPub.Some? && content.control == ServerHello(y.server.serverEphPub.value, y.server.signature)
    case ToServer(d, _, _, _) => d in y.net
    case Recover(d, _, _) => d in y.net
    case ToClient(d, _, _, _) => d in y.net
    case _ => true
  }

  function SealedWith(keys: SessionKeys, counter: nat, content: Content, size: nat, eph: Pub, offset: nat,
                      tw: nat): Datagram {
    Datagram(Tag(keys.tagSecret, counter, tw), size, eph, Sealed(keys.sessionKey, counter, offset, Plain(content)))
  }

  function Server(y: System, e: SessionRun.Event): System {
    y.(server := SessionRun.Run(y.server, [], []).Step(e).s)
  }

  function Step(y: System, e: Event): System {
    match e
    case BeginUpload(seqNum) => y.(client := y.client.StartUpload(seqNum))
    case ClientSend(viaUpload, content, size, eph, offset, tw) =>
      var (c, pair) := if viaUpload then y.client.SendUpload() else y.client.SendControl();
      if pair.None? then y else
      var shared := viaUpload || (y.client.attached && y.client.upload.Some?);
      var keys := if shared then y.client.upload.value.keys else y.client.session.value;
      y.(client := c, net := y.net + {SealedWith(keys, pair.value.1, content, size, eph, offset, tw)})
    case ServerSend(content, size, tw) =>
      y.(server := y.server.NextSend(),
         net := y.net + {SealedWith(y.server.keys, y.server.sendCounter, content, size, LowOrder, TAG_SIZE + MDH_LEN,
                                    tw)})
    case ToServer(d, isNew, from, tw) => Server(y, SessionRun.Receive(d, isNew, from, tw))
    case Recover(d, from, tw) => Server(y, SessionRun.Recovered(d, from, tw))
    case Refresh(tw) => Server(y, SessionRun.Refresh(tw))
    case ToClient(d, mdhLen, now, tw) =>
      var c := y.client.Receive(d, mdhLen, now, tw).0;
      y.(client := c, hellos := y.hellos + if c.session.Some? && c.session != y.client.session then 1 else 0)
  }

  // ---- The invariant -----------------------------------------------------------------------

  ghost predicate ServerIn(p: Parties, y: System) {
    && WindowExact(y.server)
    && (if y.server.isRatcheted then
          && y.hellos >= 1 && y.server.keys == Keys(p, 1)
          && y.server.ratchetedKeys == None && y.server.serverEphPub == None
        else
          && y.server.keys == Keys(p, 0) && y.server.ratchetedKeys == Some(Keys(p, 1))
          && y.server.serverEphPub == Some(Pub(p.serverEph)))
  }

  ghost predicate ClientIn(p: Parties, c: ClientState, hellos: nat) {
    && c.scalar == p.scalar && hellos <= 2
    && (c.session.Some? ==> c.session.value == Keys(p, hellos))
    && (c.session.Some? && c.transition.Some? ==> hellos > 0 && c.transition.value == Keys(p, hellos - 1))
    && (c.session.None? ==> !c.attached)
    && (c.attached ==> c.upload.Some?)
    && (c.upload.Some? ==> !c.engine)
    && (c.upload.Some? && c.session.Some? ==> c.attached && c.upload.value.keys == c.session.value)
    && (c.upload.Some? ==> exists n: nat :: n <= hellos && c.upload.value.keys == Keys(p, n))
  }

  /** Every datagram sent is tagged and sealed under one link of the chain that the client has
      reached; every ServerHello is the session's own, under the first keys. */
  ghost predicate SentUnder(p: Parties, d: Datagram, n: nat) {
    && d.tag.secret == Keys(p, n).tagSecret
    && d.sealed.Sealed? && d.sealed.key == Keys(p, n).sessionKey && d.sealed.plain.Plain?
    && (IsHello(d.sealed.plain.content) ==> n == 0 && d.sealed.plain.content.control.serverEph == Pub(p.serverEph))
  }

  ghost predicate NetIn(p: Parties, y: System) {
    forall d :: d in y.net ==> exists n: nat :: n <= y.hellos && SentUnder(p, d, n)
  }

  ghost predicate Inv(p: Parties, y: System) {
    ServerIn(p, y) && ClientIn(p, y.client, y.hellos) && NetIn(p, y)
  }

  lemma StartsIn(p: Parties, y: System)
    requires Start(p, y)
    ensures Inv(p, y)
  {
    var draw: SessionTable.Draw, from: Addr, tw: nat :|
      draw.serverEph == p.serverEph && SessionTable.Build(p.id, draw, from, Pub(p.scalar), p.psk, tw) == Some(y.server);
    GatewayInvariants.BuiltIsExact(p.id, draw, from, Pub(p.scalar), p.psk, tw);
    SharedCommutes(p.id.scalar, p.scalar);
    SharedCommutes(p.serverEph, p.scalar);
    assert Keys(p, 1)
        == DeriveSessionKeys(ComputeShared(p.scalar, Pub(p.serverEph)).value, Some(Keys(p, 0).sessionKey),
                             Pub(p.scalar));
  }

  // ---- Steps at the client ---------------------------------------------------------------------

  /** Handling one delivered content, decoded under link `n`. */
  lemma HandleStaysIn(p: Parties, c: ClientState, hellos: nat, content: Content, n: nat, now: nat)
    requires ClientIn(p, c, hellos) && c.session.Some?
    requires n == hellos || n + 1 == hellos
    requires IsHello(content) ==> n == 0 && content.control.serverEph == Pub(p.serverEph)
    ensures var c' := c.Handle(content, now);
            ClientIn(p, c', hellos + if c'.session.Some? && c'.session != c.session then 1 else 0)
  {
    DepthOfKeys(p, hellos);
    DepthOfKeys(p, hellos + 1);
    if IsHello(content) {
      assert Keys(p, hellos + 1)
          == DeriveSessionKeys(ComputeShared(p.scalar, Pub(p.serverEph)).value, Some(Keys(p, hellos).sessionKey),
                               Pub(p.scalar));
    }
  }

  lemma LinkOf(p: Parties, y: System, d: Datagram, n: nat)
    requires NetIn(p, y) && d in y.net && d.sealed.key == Keys(p, n).sessionKey
    ensures SentUnder(p, d, n)
  {
    var m: nat :| m <= y.hellos && SentUnder(p, d, m);
    if m != n { KeysDiffer(p, m, n); }
  }

  lemma DecodedUnder(d: Datagram, keys: SessionKeys, w: RecvWindow.Window, mdhLen: nat, tw: nat)
    requires Decode(d, keys, w, mdhLen, tw).1.Some?
    ensures d.sealed.Sealed? && d.sealed.key == keys.sessionKey
    ensures d.sealed.plain == Plain(Decode(d, keys, w, mdhLen, tw).1.value.1)
  {}

  lemma ReceiveStaysIn(p: Parties, y: System, d: Datagram, mdhLen: nat, now: nat, tw: nat)
    requires Inv(p, y) && d in y.net
    ensures var y' := Step(y, ToClient(d, mdhLen, now, tw)); ClientIn(p, y'.client, y'.hellos)
  {
    hide ServerIn, Decode, Keys, ClientState.Handle, NetIn, SentUnder;
    var c := y.client.ExpireTransition(now);
    assert ClientIn(p, c, y.hellos);
    if c.session.Some? {
      ReceiveInSession(p, y, c, d, mdhLen, now, tw);
    }
  }

  lemma ReceiveInSession(p: Parties, y: System, c: ClientState, d: Datagram, mdhLen: nat, now: nat, tw: nat)
    requires NetIn(p, y) && d in y.net && ClientIn(p, c, y.hellos) && c.session.Some?
    requires c == y.client.ExpireTransition(now)
    ensures var c' := y.client.Receive(d, mdhLen, now, tw).0;
            ClientIn(p, c', y.hellos + if c'.session.Some? && c'.session != c.session then 1 else 0)
  {
    var (w, r) := Decode(d, c.session.value, c.recv, mdhLen, tw);
    var c1 := c.(recv := w);
    hide Decode, Keys, ClientState.Handle, NetIn;
    if r.Some? {
      DecodedUnder(d, c.session.value, c.recv, mdhLen, tw);
      LinkOf(p, y, d, y.hellos);
      HandleStaysIn(p, c1, y.hellos, r.value.1, y.hellos, now);
    } else if c1.transition.Some? {
      var (v, r2) := Decode(d, c1.transition.value, c1.transitionRecv, mdhLen, tw);
      if r2.Some? {
        DecodedUnder(d, c1.transition.value, c1.transitionRecv, mdhLen, tw);
        LinkOf(p, y, d, y.hellos - 1);
        HandleStaysIn(p, c1.(transitionRecv := v), y.hellos, r2.value.1, y.hellos - 1, now);
      }
    }
  }

  // ---- Steps at the server -----------------------------------------------------------------------

  /** A validated ratcheted tag carries the secret of the ratcheted keys. */
  lemma RatchetedTagSecret(s: SessionState, tag: Tag, now: nat)
    requires WindowExact(s) && s.ValidateTag(tag, now).Some? && s.ValidateTag(tag, now).value.1
    ensures s.ratchetedKeys.Some? && tag.secret == s.ratchetedKeys.value.tagSecret
  {}

  lemma ServerStepStaysIn(p: Parties, y: System, e: SessionRun.Event)
    requires ServerIn(p, y) && NetIn(p, y)
    requires e.Receive? ==> e.d in y.net
    ensures ServerIn(p, Server(y, e))
  {
    SessionRun.StepKeepsWindow(SessionRun.Run(y.server, [], []), e);
    if e.Receive? && y.server.ValidateTag(e.d.tag, e.tw).Some? {
      var (c, ratcheted) := y.server.ValidateTag(e.d.tag, e.tw).value;
      if ratcheted {
        RatchetedTagSecret(y.server, e.d.tag, e.tw);
        var n: nat :| n <= y.hellos && SentUnder(p, e.d, n);
        if n != 1 { KeysDiffer(p, n, 1); }
      }
      hide Keys, WindowExact, SessionState.ValidateTag, NetIn;
      ServerKeysAfterAccept(p, y, e.d, c, ratcheted, e.isNew, e.from, e.tw);
    } else {
      ServerKeysElse(p, y, e);
    }
  }

  lemma ServerKeysAfterAccept(p: Parties, y: System, d: Datagram, c: nat, ratcheted: bool, isNew: bool, from: Addr,
                              tw: nat)
    requires ServerIn(p, y) && (ratcheted ==> y.hellos >= 1 && y.server.ratchetedKeys.Some?)
    requires WindowExact(y.server.Accept(d, c, ratcheted, isNew, from, tw).0)
    ensures ServerIn(p, y.(server := y.server.Accept(d, c, ratcheted, isNew, from, tw).0))
  {
    hide Keys, WindowExact, SessionState.Receive, SessionState.Opens;
    var s1 := if ratcheted then y.server.CompleteRatchet() else y.server;
    GatewayInvariants.ReceiveKeepsFields(s1, c, isNew, from, tw);
  }

  lemma ServerKeysElse(p: Parties, y: System, e: SessionRun.Event)
    requires ServerIn(p, y) && WindowExact(Server(y, e).server)
    requires !(e.Receive? && y.server.ValidateTag(e.d.tag, e.tw).Some?)
    ensures ServerIn(p, Server(y, e))
  {
    hide Keys, WindowExact, SessionState.ValidateTag, SessionState.UpdateTagWindow,
         SessionState.UpdateRatchetedTagWindow;
    QuietServerStep(y.server, e);
  }

  lemma QuietServerStep(s: SessionState, e: SessionRun.Event)
    requires !(e.Receive? && s.ValidateTag(e.d.tag, e.tw).Some?)
    ensures var s' := SessionRun.Run(s, [], []).Step(e).s;
            && s'.keys == s.keys && s'.ratchetedKeys == s.ratchetedKeys && s'.isRatcheted == s.isRatcheted
            && s'.serverEphPub == s.serverEphPub
  {}

  // ---- Steps that only send -------------------------------------------------------------------------

  lemma MoreReached(p: Parties, y: System, y': System)
    requires NetIn(p, y) && y'.net == y.net && y'.hellos >= y.hellos
    ensures NetIn(p, y')
  {
    forall d | d in y'.net
      ensures exists n: nat :: n <= y'.hellos && SentUnder(p, d, n)
    {
      var n: nat :| n <= y.hellos && SentUnder(p, d, n);
      assert n <= y'.hellos && SentUnder(p, d, n);
    }
  }

  lemma SendStaysIn(p: Parties, y: System, d: Datagram, n: nat, y': System)
    requires NetIn(p, y) && n <= y.hellos && SentUnder(p, d, n)
    requires y'.net == y.net + {d} && y'.hellos == y.hellos
    ensures NetIn(p, y')
  {
    forall x | x in y'.net
      ensures exists n: nat :: n <= y'.hellos && SentUnder(p, x, n)
    {
      if x in y.net {
        var m: nat :| m <= y.hellos && SentUnder(p, x, m);
      } else {
        assert n <= y'.hellos && SentUnder(p, x, n);
      }
    }
  }

  lemma ClientSendStaysIn(p: Parties, y: System, e: Event)
    requires Inv(p, y) && e.ClientSend? && Enabled(y, e)
    ensures Inv(p, Step(y, e))
  {
    hide WindowExact, Keys, NetIn;
    var ClientSend(viaUpload, content, size, eph, offset, tw) := e;
    var (c, pair) := if viaUpload then y.client.SendUpload() else y.client.SendControl();
    if pair.Some? {
      var shared := viaUpload || (y.client.attached && y.client.upload.Some?);
      var keys := if shared then y.client.upload.value.keys else y.client.session.value;
      var n: nat :| n <= y.hellos && keys == Keys(p, n);
      SendStaysIn(p, y, SealedWith(keys, pair.value.1, content, size, eph, offset, tw), n, Step(y, e));
    }
  }

  lemma ServerSendStaysIn(p: Parties, y: System, e: Event)
    requires Inv(p, y) && e.ServerSend? && Enabled(y, e)
    ensures Inv(p, Step(y, e))
  {
    var ServerSend(content, size, tw) := e;
    GatewayInvariants.SameWindow(y.server, y.server.NextSend());
    hide WindowExact, Keys, NetIn, ClientIn;
    var d := SealedWith(y.server.keys, y.server.sendCounter, content, size, LowOrder, TAG_SIZE + MDH_LEN, tw);
    SendStaysIn(p, y, d, if y.server.isRatcheted then 1 else 0, Step(y, e));
  }

  lemma StepStaysIn(p: Parties, y: System, e: Event)
    requires Inv(p, y) && Enabled(y, e)
    ensures Inv(p, Step(y, e))
  {
    hide WindowExact, Keys, SentUnder, SessionState.ValidateTag, ClientState.Receive;
    match e
    case BeginUpload(_) =>
    case ClientSend(_, _, _, _, _, _) => ClientSendStaysIn(p, y, e);
    case ServerSend(_, _, _) => ServerSendStaysIn(p, y, e);
    case ToServer(d, isNew, from, tw) => ServerStepStaysIn(p, y, SessionRun.Receive(d, isNew, from, tw));
    case Recover(d, from, tw) => ServerStepStaysIn(p, y, SessionRun.Recovered(d, from, tw));
    case Refresh(tw) => ServerStepStaysIn(p, y, SessionRun.Refresh(tw));
    case ToClient(d, mdhLen, now, tw) =>
      ReceiveStaysIn(p, y, d, mdhLen, now, tw);
      MoreReached(p, y, Step(y, e));
  }

  // ---- Every run ----------------------------------------------------------------------------------------

  ghost predicate IsRun(p: Parties, states: seq<System>, events: seq<Event>) {
    && |states| == |events| + 1 && Start(p, states[0])
    && (forall i :: 0 <= i < |events| ==> Enabled(states[i], events[i]) && states[i + 1] == Step(states[i], events[i]))
  }

  lemma {:induction false} RunStaysIn(p: Parties, states: seq<System>, events: seq<Event>)
    requires IsRun(p, states, events)
    ensures Inv(p, states[|events|])
    decreases |events|
  {
    hide Inv, Start, Enabled, Step;
    if events == [] {
      StartsIn(p, states[0]);
    } else {
      var n := |events| - 1;
      RunStaysIn(p, states[..n + 1], events[..n]);
      StepStaysIn(p, states[n], events[n]);
    }
  }

  /** Where the two parties stand: the server has switched keys only after the client did; the
      client processed at most two ServerHellos; after one it holds exactly the session's ratcheted
      keys, or its keys once the server switched; and it agrees with the session on a key the
      session will use exactly when it processed at most one. */
  ghost predicate Agreement(y: System)
    requires y.client.session.Some?
  {
    var mine := y.client.session.value;
    && (y.server.isRatcheted ==> y.hellos >= 1)
    && y.hellos <= 2
    && (y.hellos == 0 ==> mine == y.server.keys)
    && (y.hellos == 1 ==> Some(mine) == if y.server.isRatcheted then Some(y.server.keys) else y.server.ratchetedKeys)
    && ((mine == y.server.keys || Some(mine) == y.server.ratchetedKeys) <==> y.hellos <= 1)
  }

  lemma AgreementFromInv(p: Parties, y: System)
    requires Inv(p, y) && y.client.session.Some?
    ensures Agreement(y)
  {
    hide NetIn, WindowExact;
    KeysDiffer(p, 0, 2);
    KeysDiffer(p, 1, 2);
    assert y.hellos == 0 || y.hellos == 1 || y.hellos == 2;
  }

  /** Every run from a handshake on, as long as the client is connected. */
  lemma RatchetAgreement(p: Parties, states: seq<System>, events: seq<Event>)
    requires IsRun(p, states, events) && states[|events|].client.session.Some?
    ensures Agreement(states[|events|])
  {
    hide Inv, Agreement, Start, Step, Enabled;
    RunStaysIn(p, states, events);
    AgreementFromInv(p, states[|events|]);
  }

  // ---- A second ServerHello does break the agreement ---------------------------------------------

  /** The session's ServerHello, and the datagram that carries it under the first keys. */
  function HelloMessage(p: Parties): Content {
    ControlMessage(ServerHello(Pub(p.serverEph), Signature(p.id.signer, Pub(p.serverEph), Pub(p.scalar))))
  }

  function HelloDatagram(p: Parties, counter: nat, tw: nat): Datagram {
    SealedWith(Keys(p, 0), counter, HelloMessage(p), 134, LowOrder, 12, tw)
  }

  lemma OwnDatagramDecodes(keys: SessionKeys, w: RecvWindow.Window, counter: nat, content: Content, size: nat, tw: nat)
    requires w.IsNew(counter) && (if w.highest < 0 then counter < 4096 else counter <= w.highest + 4096) && size >= 28
    ensures Decode(SealedWith(keys, counter, content, size, LowOrder, 12, tw), keys, w, 4, tw)
         == (w.Mark(counter), Some((counter, content)))
  {
    TagsAreUnambiguous(keys.tagSecret, w, tw, counter, tw);
    RecvWindow.FindsGenuine(w, TagOf(keys.tagSecret), tw, counter, tw);
  }

  lemma ForeignDatagramFails(d: Datagram, keys: SessionKeys, w: RecvWindow.Window, mdhLen: nat, tw: nat)
    requires d.tag.secret != keys.tagSecret
    ensures Decode(d, keys, w, mdhLen, tw) == (w, None)
  {
    RecvWindow.FindIsExact(w, d.tag, TagOf(keys.tagSecret), tw);
  }

  /** A copy of the ServerHello that arrives while the client still holds the old keys for
      fallback, with a counter not yet received, moves the client one link too far. */
  lemma SecondHelloIsProcessed(p: Parties, y: System, d: Datagram, counter: nat, now: nat, tw: nat)
    requires Inv(p, y) && y.hellos == 1 && y.client.session.Some? && y.client.transition.Some?
    requires y.client.deadline.Some? ==> now < y.client.deadline.value
    requires y.client.transitionRecv.IsNew(counter) && 0 <= y.client.transitionRecv.highest
    requires counter <= y.client.transitionRecv.highest + 4096
    requires d == HelloDatagram(p, counter, tw)
    requires y.client.signingPub.Some? ==> y.client.signingPub.value == p.id.signer
    ensures var y' := Step(y, ToClient(d, 4, now, tw));
            y'.hellos == 2 && y'.client.session.Some? && y'.server == y.server
  {
    hide WindowExact, NetIn, ServerIn;
    KeysDiffer(p, 0, 1);
    KeysDiffer(p, 1, 2);
    FallbackHello(y.client, d, counter, now, tw);
    assert Keys(p, 2)
        == DeriveSessionKeys(ComputeShared(p.scalar, Pub(p.serverEph)).value, Some(Keys(p, 1).sessionKey),
                             Pub(p.scalar));
  }

  /** A ServerHello under the transition keys is taken by the fallback decode. */
  lemma FallbackHello(c: ClientState, d: Datagram, counter: nat, now: nat, tw: nat)
    requires c.session.Some? && c.transition.Some? && c.session.value.tagSecret != c.transition.value.tagSecret
    requires c.deadline.Some? ==> now < c.deadline.value
    requires c.transitionRecv.IsNew(counter) && 0 <= c.transitionRecv.highest
    requires counter <= c.transitionRecv.highest + 4096
    requires d.sealed.Sealed? && d.sealed.plain.Plain?
    requires d == SealedWith(c.transition.value, counter, d.sealed.plain.content, 134, LowOrder, 12, tw)
    ensures c.Receive(d, 4, now, tw).0
         == c.(transitionRecv := c.transitionRecv.Mark(counter)).Handle(d.sealed.plain.content, now)
  {
    hide Decode, RecvWindow.Window.Mark, ClientState.Handle;
    ForeignDatagramFails(d, c.session.value, c.recv, 4, tw);
    OwnDatagramDecodes(c.transition.value, c.transitionRecv, counter, d.sealed.plain.content, 134, tw);
  }

  /** So two copies of the ServerHello, received within the transition time, leave client and
      session on different keys for good. */
  lemma TwoHellosDisagree(p: Parties, y: System, tw: nat)
    requires Start(p, y) && (y.client.signingPub.Some? ==> y.client.signingPub.value == p.id.signer)
    ensures var send := ServerSend(HelloMessage(p), 134, tw);
            var (y1, y2) := (Step(y, send), Step(Step(y, send), send));
            var y3 := Step(y2, ToClient(HelloDatagram(p, 0, tw), 4, 0, tw));
            && Enabled(y, send) && Enabled(y1, send)
            && HelloDatagram(p, 0, tw) in y2.net && HelloDatagram(p, 1, tw) in y3.net
            && Estranged(Step(y3, ToClient(HelloDatagram(p, 1, tw), 4, 1, tw)))
  {
    hide Inv, Start, Step, Enabled, HelloDatagram, HelloMessage, Keys, Connected, WindowExact, Estranged;
    StartsIn(p, y);
    StartServer(p, y);
    var send := ServerSend(HelloMessage(p), 134, tw);
    var y1 := Step(y, send);
    SendsHello(p, y, 0, tw);
    SendsHello(p, y1, 1, tw);
    TwoArrivals(p, Step(y1, send), tw);
  }

  /** The client seals with a key its session neither has nor will have. */
  ghost predicate Estranged(y: System) {
    && y.client.session.Some? && y.client.session.value.sessionKey != y.server.keys.sessionKey
    && y.server.ratchetedKeys.Some? && y.client.session.value.sessionKey != y.server.ratchetedKeys.value.sessionKey
  }

  lemma TwoArrivals(p: Parties, y: System, tw: nat)
    requires Inv(p, y) && y.client == Connected(p.scalar, y.client.signingPub, Keys(p, 0)) && y.hellos == 0
    requires !y.server.isRatcheted && (y.client.signingPub.Some? ==> y.client.signingPub.value == p.id.signer)
    requires HelloDatagram(p, 0, tw) in y.net && HelloDatagram(p, 1, tw) in y.net
    ensures var y' := Step(y, ToClient(HelloDatagram(p, 0, tw), 4, 0, tw));
            y'.net == y.net && Estranged(Step(y', ToClient(HelloDatagram(p, 1, tw), 4, 1, tw)))
  {
    hide Inv, Step, HelloDatagram, HelloMessage, Keys, Connected, WindowExact, RecvWindow.Window.IsNew, Estranged;
    var d := HelloDatagram(p, 1, tw);
    FirstHelloIsProcessed(p, y, HelloDatagram(p, 0, tw), tw);
    var y' := Step(y, ToClient(HelloDatagram(p, 0, tw), 4, 0, tw));
    SecondHelloIsProcessed(p, y', d, 1, 1, tw);
    assert Enabled(y', ToClient(d, 4, 1, tw));
    StepStaysIn(p, y', ToClient(d, 4, 1, tw));
    BothPastFirst(p, Step(y', ToClient(d, 4, 1, tw)));
  }

  /** A client two links on shares no key with a session that has not switched. */
  lemma BothPastFirst(p: Parties, y: System)
    requires Inv(p, y) && y.hellos == 2 && y.client.session.Some? && !y.server.isRatcheted
    ensures Estranged(y)
  {
    hide NetIn, WindowExact, Keys;
    KeysDiffer(p, 0, 2);
    KeysDiffer(p, 1, 2);
  }

  lemma StartServer(p: Parties, y: System)
    requires Start(p, y)
    ensures !y.server.isRatcheted && y.server.sendCounter == 0 && y.server.keys == Keys(p, 0)
    ensures y.server.serverEphPub == Some(Pub(p.serverEph))
    ensures y.server.signature == Signature(p.id.signer, Pub(p.serverEph), Pub(p.scalar))
    ensures y.client == Connected(p.scalar, y.client.signingPub, Keys(p, 0)) && y.hellos == 0
  {
    SharedCommutes(p.id.scalar, p.scalar);
  }

  lemma SendsHello(p: Parties, y: System, counter: nat, tw: nat)
    requires Inv(p, y) && !y.server.isRatcheted && y.server.sendCounter == counter
    requires y.server.signature == Signature(p.id.signer, Pub(p.serverEph), Pub(p.scalar))
    ensures Enabled(y, ServerSend(HelloMessage(p), 134, tw))
    ensures var y' := Step(y, ServerSend(HelloMessage(p), 134, tw));
            && Inv(p, y') && y'.client == y.client && y'.hellos == y.hellos && !y'.server.isRatcheted
            && y'.server.sendCounter == counter + 1 && y'.server.signature == y.server.signature
            && y'.net == y.net + {HelloDatagram(p, counter, tw)}
  {
    hide WindowExact, Keys, NetIn, ClientIn;
    StepStaysIn(p, y, ServerSend(HelloMessage(p), 134, tw));
  }

  lemma FirstHelloIsProcessed(p: Parties, y: System, d: Datagram, tw: nat)
    requires Inv(p, y) && d in y.net && y.client == Connected(p.scalar, y.client.signingPub, Keys(p, 0))
    requires y.hellos == 0
    requires d == HelloDatagram(p, 0, tw)
    requires y.client.signingPub.Some? ==> y.client.signingPub.value == p.id.signer
    ensures var y' := Step(y, ToClient(d, 4, 0, tw));
            && Inv(p, y') && y'.hellos == 1 && y'.net == y.net && y'.server == y.server
            && y'.client.signingPub == y.client.signingPub
            && y'.client.session.Some? && y'.client.transition.Some? && y'.client.deadline == Some(2000)
            && y'.client.transitionRecv.highest == 0 && y'.client.transitionRecv.IsNew(1)
  {
    hide WindowExact, NetIn, ServerIn, ClientIn, Decode, Inv, ClientState.Handle, Start;
    var content := d.sealed.plain.content;
    OwnDatagramDecodes(Keys(p, 0), RecvWindow.EmptyWindow, 0, content, 134, tw);
    FirstHelloHandled(p, y.client, content);
    StepStaysIn(p, y, ToClient(d, 4, 0, tw));
  }

  lemma FirstHelloHandled(p: Parties, c: ClientState, hello: Content)
    requires c == Connected(p.scalar, c.signingPub, Keys(p, 0))
    requires hello == HelloMessage(p)
    requires c.signingPub.Some? ==> c.signingPub.value == p.id.signer
    ensures var c' := c.(recv := c.recv.Mark(0)).Handle(hello, 0);
            && c'.signingPub == c.signingPub && c'.session.Some? && c'.session != c.session
            && c'.transition.Some? && c'.deadline == Some(2000)
            && c'.transitionRecv.highest == 0 && c'.transitionRecv.IsNew(1)
  {
    KeysDiffer(p, 0, 1);
    assert Keys(p, 1)
        == DeriveSessionKeys(ComputeShared(p.scalar, Pub(p.serverEph)).value, Some(Keys(p, 0).sessionKey),
                             Pub(p.scalar));
  }
}
