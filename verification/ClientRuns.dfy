/** What every run of the client answers: under which keys a datagram is accepted and until when,
    which ServerHello switches the keys, and what a shutdown ends. */
module ClientRuns {
  import opened Wrappers
  import opened Crypto
  import opened Datagram
  import opened RecvWindow
  import opened Client

  // ---- One datagram, under one key epoch -------------------------------------------------

  /** Sealed by the holder of `keys` with counter `n`, and long enough. */
  predicate SealedUnder(d: Datagram, keys: SessionKeys, n: nat, mdhLen: nat, tw: nat) {
    && d.size >= 8 + mdhLen + 16 && d.tag.secret == keys.tagSecret && d.tag.counter == n && NearWindow(tw, d.tag.window)
    && d.sealed.Sealed? && d.sealed.key == keys.sessionKey && d.sealed.counter == n && d.sealed.offset == 8 + mdhLen
  }

  /** And with content. */
  predicate GenuineUnder(d: Datagram, keys: SessionKeys, n: nat, mdhLen: nat, tw: nat) {
    SealedUnder(d, keys, n, mdhLen, tw) && d.sealed.plain.Plain?
  }

  /** The window has not marked the counter, and it is at most 4096 above the highest marked. */
  predicate InReach(w: Window, n: nat) {
    w.IsNew(n) && (if w.highest < 0 then n < 4096 else n <= w.highest + 4096)
  }

  lemma GenuineDecodes(d: Datagram, keys: SessionKeys, w: Window, n: nat, mdhLen: nat, tw: nat)
    requires SealedUnder(d, keys, n, mdhLen, tw) && InReach(w, n)
    ensures Decode(d, keys, w, mdhLen, tw)
         == (w.Mark(n), if d.sealed.plain.Plain? then Some((n, d.sealed.plain.content)) else None)
  {
    TagsAreUnambiguous(keys.tagSecret, w, tw, n, d.tag.window);
    FindsGenuine(w, TagOf(keys.tagSecret), tw, n, d.tag.window);
  }

  lemma OtherKeyFails(d: Datagram, keys: SessionKeys, w: Window, mdhLen: nat, tw: nat)
    requires d.sealed.Sealed? ==> d.sealed.key != keys.sessionKey
    ensures Decode(d, keys, w, mdhLen, tw) == (w, None)
  {}

  /** What decoding accepts was sealed with the key, is new, and leaves its counter marked; what it
      does not accept leaves the window alone if it has any content. */
  lemma DecodeOnlyMarks(d: Datagram, keys: SessionKeys, w: Window, mdhLen: nat, tw: nat)
    ensures var (w', r) := Decode(d, keys, w, mdhLen, tw);
            && (r.Some? ==>
                  && d.size >= 8 + mdhLen + 16 && d.sealed.Sealed? && d.sealed.key == keys.sessionKey
                  && d.sealed.plain == Plain(r.value.1) && d.sealed.counter == r.value.0 && w' == w.Mark(r.value.0))
            && (r.None? && d.sealed.Sealed? && d.sealed.plain.Plain? ==> w' == w)
  {
    hide Window.Find, Window.Mark;
  }

  /** A key derived from another one is not that one. */
  lemma NextKeyDiffers(scalar: nat, keys: SessionKeys, dh: Dh)
    ensures DeriveSessionKeys(dh, Some(keys.sessionKey), Pub(scalar)).sessionKey != keys.sessionKey
  {
    assert Depth(DeriveSessionKeys(dh, Some(keys.sessionKey), Pub(scalar)).sessionKey) == 1 + Depth(keys.sessionKey);
  }

  // ---- The former keys ----------------------------------------------------------------------

  predicate Switches(c: ClientState, c': ClientState) {
    c.session.Some? && c'.session.Some? && c'.session != c.session
  }

  function Prefix(events: seq<Event>): seq<Event>
    requires events != []
  {
    events[..|events| - 1]
  }

  /** When the client last took a ServerHello, and the keys it had before. */
  function LastHello(c: ClientState, events: seq<Event>): Option<(nat, SessionKeys)> {
    if events == [] then None
    else
      var (before, e) := (RunAll(c, Prefix(events)).c, events[|events| - 1]);
      if e.Arrival? && Switches(before, RunAll(c, events).c) then Some((e.now, before.session.value))
      else LastHello(c, Prefix(events))
  }

  /** The clock does not run backwards. */
  predicate Clocked(events: seq<Event>) {
    forall i, j :: 0 <= i < j < |events| && events[i].Arrival? && events[j].Arrival? ==> events[i].now <= events[j].now
  }

  predicate Reached(events: seq<Event>, time: nat) {
    exists i :: 0 <= i < |events| && events[i].Arrival? && events[i].now >= time
  }

  /** The former keys are there from the hello on until two seconds later. */
  ghost predicate Transits(c: ClientState, last: Option<(nat, SessionKeys)>, expired: bool) {
    && (c.transition.None? <==> c.deadline.None?)
    && (c.session.Some? ==>
          match last
          case None => c.transition.None?
          case Some((t, former)) =>
            && c.session.value.sessionKey != former.sessionKey
            && (if c.transition.Some? then c.transition == Some(former) && c.deadline == Some(t + 2000) else expired))
  }

  lemma {:induction false} TransitsOverRuns(c: ClientState, events: seq<Event>)
    requires c.transition.None? && c.deadline.None? && Clocked(events)
    ensures var last := LastHello(c, events);
            Transits(RunAll(c, events).c, last, last.Some? && Reached(events, last.value.0 + 2000))
    decreases |events|
  {
    hide Transits, Reached, ClientState.Receive;
    if events == [] {
      NothingTransits(c);
    } else {
      var front := Prefix(events);
      TransitsOverRuns(c, front);
      ReachedLater(events);
      if events[|events| - 1].Arrival? {
        ArrivalOverRuns(c, events);
      } else {
        var last := LastHello(c, front);
        SendTransits(RunAll(c, front), events[|events| - 1], last,
                     last.Some? && Reached(front, last.value.0 + 2000));
        TransitsLonger(RunAll(c, events).c, last, last.Some? && Reached(front, last.value.0 + 2000),
                       last.Some? && Reached(events, last.value.0 + 2000));
      }
    }
  }

  lemma ArrivalOverRuns(c: ClientState, events: seq<Event>)
    requires events != [] && events[|events| - 1].Arrival?
    requires var last := LastHello(c, Prefix(events));
             Transits(RunAll(c, Prefix(events)).c, last, last.Some? && Reached(Prefix(events), last.value.0 + 2000))
    ensures var last := LastHello(c, events);
            Transits(RunAll(c, events).c, last, last.Some? && Reached(events, last.value.0 + 2000))
  {
    hide Transits, Reached, ClientState.Receive, RunAll, LastHello;
    var r, last := RunAll(c, Prefix(events)), LastHello(c, Prefix(events));
    match events[|events| - 1]
    case Arrival(d, mdhLen, now, tw) =>
      var expired := last.Some? && Reached(Prefix(events), last.value.0 + 2000);
      var c' := r.c.Receive(d, mdhLen, now, tw).0;
      ArrivalTransits(r.c, last, expired, d, mdhLen, now, tw);
      LastOfArrival(c, events);
      ReachedLater(events);
      ReachedNow(events, if last.Some? then last.value.0 + 2000 else 0);
      TransitsLonger(c', LastHello(c, events),
                     !Switches(r.c, c') && (expired || (last.Some? && now >= last.value.0 + 2000)),
                     LastHello(c, events).Some? && Reached(events, LastHello(c, events).value.0 + 2000));
  }

  lemma LastOfArrival(c: ClientState, events: seq<Event>)
    requires events != [] && events[|events| - 1].Arrival?
    ensures var (r, e) := (RunAll(c, Prefix(events)).c, events[|events| - 1]);
            var c' := r.Receive(e.d, e.mdhLen, e.now, e.tw).0;
            && RunAll(c, events).c == c'
            && LastHello(c, events)
               == if Switches(r, c') then Some((e.now, r.session.value)) else LastHello(c, Prefix(events))
  {
    hide ClientState.Receive;
  }

  lemma TransitsLonger(c: ClientState, last: Option<(nat, SessionKeys)>, a: bool, b: bool)
    requires a ==> b
    ensures Transits(c, last, a) ==> Transits(c, last, b)
  {}

  lemma NothingTransits(c: ClientState)
    requires c.transition.None? && c.deadline.None?
    ensures Transits(c, None, false)
  {}

  lemma ReachedLater(events: seq<Event>)
    requires events != []
    ensures forall time :: Reached(Prefix(events), time) ==> Reached(events, time)
  {
    forall time | Reached(Prefix(events), time)
      ensures Reached(events, time)
    {
      var i :| 0 <= i < |Prefix(events)| && Prefix(events)[i].Arrival? && Prefix(events)[i].now >= time;
      assert events[i].Arrival? && events[i].now >= time;
    }
  }

  lemma ReachedNow(events: seq<Event>, time: nat)
    requires events != [] && events[|events| - 1].Arrival?
    ensures events[|events| - 1].now >= time ==> Reached(events, time)
  {}

  lemma SendTransits(r: Run, e: Event, last: Option<(nat, SessionKeys)>, expired: bool)
    requires Transits(r.c, last, expired) && !e.Arrival?
    ensures Transits(r.Step(e).c, last, expired)
  {}

  lemma ArrivalTransits(c: ClientState, last: Option<(nat, SessionKeys)>, expired: bool, d: Datagram, mdhLen: nat,
                        now: nat, tw: nat)
    requires Transits(c, last, expired)
    ensures var c' := c.Receive(d, mdhLen, now, tw).0;
            Transits(c', if Switches(c, c') then Some((now, c.session.value)) else last,
                     !Switches(c, c') && (expired || (last.Some? && now >= last.value.0 + 2000)))
  {
    hide Decode;
    var e := c.ExpireTransition(now);
    if e.session.Some? {
      var c1 := e.(recv := Decode(d, e.session.value, e.recv, mdhLen, tw).0);
      var primary := Decode(d, e.session.value, e.recv, mdhLen, tw).1;
      if primary.Some? {
        HandleTransits(c1, primary.value.1, now);
      } else if c1.transition.Some? {
        var (v, fallback) := Decode(d, c1.transition.value, c1.transitionRecv, mdhLen, tw);
        if fallback.Some? {
          HandleTransits(c1.(transitionRecv := v), fallback.value.1, now);
        }
      }
    }
  }

  /** Handling leaves keys and deadline alone, ends the session, or switches. */
  lemma HandleTransits(c: ClientState, content: Content, now: nat)
    requires c.session.Some?
    ensures var c' := c.Handle(content, now);
            || (c'.session == c.session && c'.transition == c.transition && c'.deadline == c.deadline)
            || (c'.session == None && c'.transition == None && c'.deadline == None)
            || (Switches(c, c') && c'.transition == c.session && c'.deadline == Some(now + 2000)
                && c'.session.value.sessionKey != c.session.value.sessionKey)
  {
    if content.ControlMessage? && content.control.ServerHello? {
      var dh2 := ComputeShared(c.scalar, content.control.serverEph);
      if dh2.Some? {
        NextKeyDiffers(c.scalar, c.session.value, dh2.value);
      }
    }
  }

  /** Over every run: nothing is accepted but under the session's keys, or under those from before
      the last ServerHello less than two seconds after it. */
  lemma OnlyTwoEpochs(c: ClientState, events: seq<Event>, d: Datagram, mdhLen: nat, now: nat, tw: nat)
    requires c.transition.None? && c.deadline.None? && Clocked(events + [Arrival(d, mdhLen, now, tw)])
    ensures var (r, last) := (RunAll(c, events).c, LastHello(c, events));
            var pair := r.Receive(d, mdhLen, now, tw).1;
            pair.Some? ==>
              && r.session.Some?
              && (pair.value.0 == r.session.value.sessionKey
                  || (last.Some? && pair.value.0 == last.value.1.sessionKey && now < last.value.0 + 2000))
  {
    hide Decode, ClientState.Handle;
    ClockedBefore(events, Arrival(d, mdhLen, now, tw));
    TransitsOverRuns(c, events);
  }

  lemma ClockedBefore(events: seq<Event>, e: Event)
    requires Clocked(events + [e]) && e.Arrival?
    ensures Clocked(events) && forall time :: Reached(events, time) ==> e.now >= time
  {
    var longer := events + [e];
    assert longer[|events|] == e;
    forall i, j | 0 <= i < j < |events| && events[i].Arrival? && events[j].Arrival?
      ensures events[i].now <= events[j].now
    {
      assert longer[i] == events[i] && longer[j] == events[j];
    }
    forall time | Reached(events, time)
      ensures e.now >= time
    {
      var i :| 0 <= i < |events| && events[i].Arrival? && events[i].now >= time;
      assert longer[i] == events[i];
    }
  }

  /** And a genuine datagram under the keys from before the last ServerHello, with a counter in
      reach, is accepted exactly in the two seconds after it. */
  lemma FormerKeysExactly(c: ClientState, events: seq<Event>, d: Datagram, n: nat, mdhLen: nat, now: nat, tw: nat)
    requires c.transition.None? && c.deadline.None? && Clocked(events + [Arrival(d, mdhLen, now, tw)])
    requires RunAll(c, events).c.session.Some? && LastHello(c, events).Some?
    requires GenuineUnder(d, LastHello(c, events).value.1, n, mdhLen, tw)
    requires now < LastHello(c, events).value.0 + 2000 ==> InReach(RunAll(c, events).c.transitionRecv, n)
    ensures var (t, former) := LastHello(c, events).value;
            RunAll(c, events).c.Receive(d, mdhLen, now, tw).1
            == if now < t + 2000 then Some((former.sessionKey, n)) else None
  {
    hide Decode, ClientState.Handle, InReach, SealedUnder;
    ClockedBefore(events, Arrival(d, mdhLen, now, tw));
    TransitsOverRuns(c, events);
    var r := RunAll(c, events).c;
    var (t, former) := LastHello(c, events).value;
    GenuineIsSealed(d, former, n, mdhLen, tw);
    OtherKeyFails(d, r.session.value, r.recv, mdhLen, tw);
    if now < t + 2000 {
      GenuineDecodes(d, former, r.transitionRecv, n, mdhLen, tw);
    }
  }

  lemma GenuineIsSealed(d: Datagram, keys: SessionKeys, n: nat, mdhLen: nat, tw: nat)
    requires GenuineUnder(d, keys, n, mdhLen, tw)
    ensures d.sealed.Sealed? && d.sealed.key == keys.sessionKey && d.sealed.plain.Plain?
  {}

  /** A genuine datagram under the session's own keys, with a counter in reach, is always accepted. */
  lemma PresentKeysAlways(c: ClientState, d: Datagram, n: nat, mdhLen: nat, now: nat, tw: nat)
    requires c.session.Some? && GenuineUnder(d, c.session.value, n, mdhLen, tw) && InReach(c.recv, n)
    ensures c.Receive(d, mdhLen, now, tw).1 == Some((c.session.value.sessionKey, n))
  {
    hide Decode, ClientState.Handle, InReach, SealedUnder;
    GenuineDecodes(d, c.session.value, c.recv, n, mdhLen, tw);
  }

  /** One that opens to no content is not accepted, but its counter is used up. */
  lemma MalformedIsMarked(c: ClientState, d: Datagram, n: nat, mdhLen: nat, now: nat, tw: nat)
    requires c.session.Some? && SealedUnder(d, c.session.value, n, mdhLen, tw) && InReach(c.recv, n)
    requires c.transition.Some? ==> c.transition.value.sessionKey != c.session.value.sessionKey
    requires d.sealed.plain.Malformed?
    ensures var (c', pair) := c.Receive(d, mdhLen, now, tw);
            pair.None? && !c'.recv.IsNew(n) && c'.session == c.session
  {
    hide Decode, ClientState.Handle, InReach, Window.Mark;
    GenuineDecodes(d, c.session.value, c.recv, n, mdhLen, tw);
    MarkRetires(c.recv, n, n);
    if c.transition.Some? {
      OtherKeyFails(d, c.transition.value, c.transitionRecv, mdhLen, tw);
    }
  }

  // ---- Which ServerHello switches the keys -----------------------------------------------------

  lemma {:induction false} IdentityStays(c: ClientState, events: seq<Event>)
    ensures RunAll(c, events).c.signingPub == c.signingPub && RunAll(c, events).c.scalar == c.scalar
    decreases |events|
  {
    hide Run.Step;
    if events != [] {
      IdentityStays(c, events[..|events| - 1]);
      StepKeepsIdentity(RunAll(c, events[..|events| - 1]), events[|events| - 1]);
    }
  }

  lemma StepKeepsIdentity(r: Run, e: Event)
    ensures r.Step(e).c.signingPub == r.c.signingPub && r.Step(e).c.scalar == r.c.scalar
  {
    hide Decode, Window.Mark;
  }

  /** The datagram carries a ServerHello for this client, signed by `signer`, with a usable key. */
  predicate SignedHello(d: Datagram, signer: nat, scalar: nat) {
    && d.sealed.Sealed? && d.sealed.plain.Plain? && d.sealed.plain.content.ControlMessage?
    && d.sealed.plain.content.control.ServerHello?
    && var e := d.sealed.plain.content.control.serverEph;
       e != LowOrder && d.sealed.plain.content.control.signature == Signature(signer, e, Pub(scalar))
  }

  /** Over every run of a client that has a signing key configured, the keys switch only on a
      ServerHello signed with that key over the server's and this client's key. */
  lemma SwitchIsSigned(c: ClientState, events: seq<Event>, i: nat)
    requires i < |events| && c.signingPub.Some?
    requires Switches(RunAll(c, events[..i]).c, RunAll(c, events[..i + 1]).c)
    ensures events[i].Arrival? && SignedHello(events[i].d, c.signingPub.value, c.scalar)
  {
    hide ClientState.Receive, Switches, SignedHello;
    var r, e := RunAll(c, events[..i]), events[i];
    assert events[..i + 1][..i] == events[..i];
    IdentityStays(c, events[..i]);
    match e
    case Arrival(d, mdhLen, now, tw) => ReceivedIsSigned(r.c, d, mdhLen, now, tw);
    case _ => SendingNeverSwitches(r, e);
  }

  lemma SendingNeverSwitches(r: Run, e: Event)
    requires !e.Arrival?
    ensures !Switches(r.c, r.Step(e).c)
  {}

  lemma ReceivedIsSigned(c: ClientState, d: Datagram, mdhLen: nat, now: nat, tw: nat)
    requires c.signingPub.Some? && Switches(c, c.Receive(d, mdhLen, now, tw).0)
    ensures SignedHello(d, c.signingPub.value, c.scalar)
  {
    hide Decode;
    var e := c.ExpireTransition(now);
    DecodeOnlyMarks(d, e.session.value, e.recv, mdhLen, tw);
    if Decode(d, e.session.value, e.recv, mdhLen, tw).1.None? {
      DecodeOnlyMarks(d, e.transition.value, e.transitionRecv, mdhLen, tw);
    }
  }

  /** What a received datagram leaves when its content changes nothing: its counter is marked in the
      window of the keys it was accepted under, and the former keys may have expired. */
  ghost predicate OnlyMarked(c: ClientState, c': ClientState, pair: Option<(Key, nat)>)
    requires c.session.Some?
  {
    && c'.session == c.session && c'.counter == c.counter && c'.upload == c.upload && c'.attached == c.attached
    && c'.engine == c.engine
    && (c'.recv == if pair.Some? && pair.value.0 == c.session.value.sessionKey then c.recv.Mark(pair.value.1)
        else c.recv)
    && (if c'.transition.None? then c'.transitionRecv in {c.transitionRecv, EmptyWindow}
        else
          && c'.transition == c.transition && c'.deadline == c.deadline
          && c'.transitionRecv == if pair.Some? && pair.value.0 != c.session.value.sessionKey
                                  then c.transitionRecv.Mark(pair.value.1) else c.transitionRecv)
  }

  /** The datagram carries a ServerHello that this client refuses. */
  predicate RefusedHello(c: ClientState, d: Datagram) {
    && d.sealed.Sealed? && d.sealed.plain.Plain? && d.sealed.plain.content.ControlMessage?
    && d.sealed.plain.content.control.ServerHello?
    && var (e, signature) := (d.sealed.plain.content.control.serverEph, d.sealed.plain.content.control.signature);
       e == LowOrder || (c.signingPub.Some? && signature != Signature(c.signingPub.value, e, Pub(c.scalar)))
  }

  /** Over every run, a ServerHello that is not so signed, or with a key of low order, changes neither
      keys nor counters nor the upload: it is marked as received, and that is all. */
  lemma RefusedHelloOnlyMarks(c: ClientState, events: seq<Event>, d: Datagram, mdhLen: nat, now: nat, tw: nat)
    requires c.transition.None? && c.deadline.None? && Clocked(events)
    requires RunAll(c, events).c.session.Some? && RefusedHello(c, d)
    ensures var r := RunAll(c, events).c;
            var (c', pair) := r.Receive(d, mdhLen, now, tw);
            OnlyMarked(r, c', pair)
  {
    hide ClientState.Receive, RefusedHello, OnlyMarked;
    TransitsOverRuns(c, events);
    IdentityStays(c, events);
    RefusedAlike(c, RunAll(c, events).c, d);
    RefusedOnlyMarks(RunAll(c, events).c, d, mdhLen, now, tw);
  }

  lemma RefusedAlike(c: ClientState, c': ClientState, d: Datagram)
    requires c'.signingPub == c.signingPub && c'.scalar == c.scalar
    ensures RefusedHello(c', d) == RefusedHello(c, d)
  {}

  lemma RefusedOnlyMarks(c: ClientState, d: Datagram, mdhLen: nat, now: nat, tw: nat)
    requires c.session.Some?
    requires c.transition.Some? ==> c.transition.value.sessionKey != c.session.value.sessionKey
    requires RefusedHello(c, d)
    ensures var (c', pair) := c.Receive(d, mdhLen, now, tw); OnlyMarked(c, c', pair)
  {
    hide Decode;
    var e := c.ExpireTransition(now);
    DecodeOnlyMarks(d, e.session.value, e.recv, mdhLen, tw);
    var (w, primary) := Decode(d, e.session.value, e.recv, mdhLen, tw);
    assert primary.None? ==> w == c.recv;
    if e.transition.Some? {
      DecodeOnlyMarks(d, e.transition.value, e.transitionRecv, mdhLen, tw);
      var (v, fallback) := Decode(d, e.transition.value, e.transitionRecv, mdhLen, tw);
      assert fallback.None? ==> v == c.transitionRecv;
    }
  }

  /** A ServerHello with a usable key, signed if a signing key is configured, switches: the next keys
      are derived from the shared secret, the present session key and the client's key; the present
      keys and window become the former ones; window and counters start anew, the upload's too. */
  lemma SignedHelloSwitches(c: ClientState, d: Datagram, n: nat, x: nat, mdhLen: nat, now: nat, tw: nat)
    requires c.session.Some? && GenuineUnder(d, c.session.value, n, mdhLen, tw) && InReach(c.recv, n)
    requires d.sealed.plain.content.ControlMessage? && d.sealed.plain.content.control.ServerHello?
    requires d.sealed.plain.content.control.serverEph == Pub(x)
    requires c.signingPub.Some? ==> SignedHello(d, c.signingPub.value, c.scalar)
    ensures var key := c.session.value.sessionKey;
            var dh := if c.scalar <= x then Dh(c.scalar, x) else Dh(x, c.scalar);
            var next := SessionKeys(Derived(SessionKeyContext, dh, Some(key), Pub(c.scalar)),
                                    Derived(TagSecretContext, dh, Some(key), Pub(c.scalar)));
            var (c', pair) := c.Receive(d, mdhLen, now, tw);
            && pair == Some((key, n))
            && c'.session == Some(next) && c'.recv == EmptyWindow && c'.counter == 0
            && c'.transition == c.session && c'.transitionRecv == c.recv.Mark(n)
            && c'.upload == (if c.attached && c.upload.Some? then Some(Upload(next, 0, c.upload.value.seqNum))
                             else c.upload)
            && c'.attached == c.attached && c'.engine == c.engine
  {
    hide Decode, InReach, SealedUnder, Window.Mark;
    GenuineDecodes(d, c.session.value, c.recv, n, mdhLen, tw);
    GenuineIsSealed(d, c.session.value, n, mdhLen, tw);
  }

  // ---- Shutdown ------------------------------------------------------------------------------

  /** Over every run, a client without a session never accepts a datagram again, keeps no former
      keys for one, and sends no control packet. */
  lemma {:induction false} DisconnectedForGood(c: ClientState, events: seq<Event>)
    requires c.session.None? && !c.attached
    ensures var r := RunAll(c, events); r.c.session.None? && !r.c.attached && r.accepted == []
    ensures RunAll(c, events).c.SendControl().1 == None
    decreases |events|
  {
    if events != [] {
      DisconnectedForGood(c, events[..|events| - 1]);
    }
  }

  /** A shutdown under the session's keys ends the session. */
  lemma ShutdownDisconnects(c: ClientState, d: Datagram, n: nat, mdhLen: nat, now: nat, tw: nat)
    requires c.session.Some? && GenuineUnder(d, c.session.value, n, mdhLen, tw) && InReach(c.recv, n)
    requires d.sealed.plain.content == ControlMessage(Shutdown)
    ensures var c' := c.Receive(d, mdhLen, now, tw).0;
            c'.session.None? && c'.transition.None? && c'.deadline.None? && !c'.attached
  {
    hide Decode, InReach, SealedUnder, Window.Mark;
    GenuineDecodes(d, c.session.value, c.recv, n, mdhLen, tw);
    GenuineIsSealed(d, c.session.value, n, mdhLen, tw);
  }

  // ---- The upload's sequence numbers ------------------------------------------------------------

  lemma StepNumbers(r: Run, e: Event)
    requires r.c.upload.Some? && !r.c.engine
    ensures var s := r.Step(e);
            && s.c.upload.Some? && !s.c.engine && |r.sent| <= |s.sent| <= |r.sent| + 1
            && s.c.upload.value.seqNum
               == if |s.sent| == |r.sent| then r.c.upload.value.seqNum else (r.c.upload.value.seqNum + 1) % 0x1_0000
  {
    hide Decode;
  }

  /** Over every run from the start of an upload, its next sequence number is the first one plus the
      packets it has sealed, modulo 2^16. */
  lemma {:induction false} UploadNumbers(c: ClientState, events: seq<Event>)
    requires c.upload.Some? && c.upload.value.seqNum < 0x1_0000 && !c.engine
    ensures var r := RunAll(c, events);
            && r.c.upload.Some? && !r.c.engine
            && r.c.upload.value.seqNum == (c.upload.value.seqNum + |r.sent|) % 0x1_0000
    decreases |events|
  {
    hide Run.Step;
    if events != [] {
      UploadNumbers(c, events[..|events| - 1]);
      StepNumbers(RunAll(c, events[..|events| - 1]), events[|events| - 1]);
    }
  }
}
