/** Exactly which datagrams a session of the server takes, opens and answers. */
module Acceptance {
  import opened Wrappers
  import opened Crypto
  import opened Datagram
  import opened Session
  import opened SessionTable
  import opened TableInvariants
  import opened AddressMap
  import opened Gateway
  import opened GatewayInvariants
  import opened PacketRuns
  import opened ServerRuns
  import SR = SessionRun
  import KeyReuse

  // ---- Tags ----------------------------------------------------------------------------------

  /** Which tag a session takes next under its current key, given the counters it accepted. */
  predicate Expected(s: SessionState, accepted: seq<(Key, nat)>, tag: Tag, tw: nat) {
    && tag.secret == s.keys.tagSecret && NearWindow(tw, tag.window)
    && s.counter <= tag.counter + 255 && tag.counter <= s.counter + 255
    && (s.keys.sessionKey, tag.counter) !in accepted
  }

  /** Over every life without recovery a refreshed session takes, under its current key, exactly the
      tags of near time windows for counters it has not accepted that are within 255 of the highest
      it has; and under the next key, until it ratchets, exactly those of the first 256 counters. */
  lemma TakenExactly(states: seq<State>, events: seq<Event>, b: nat, j: nat, tag: Tag, tw: nat)
    requires IsRun(states, events) && states[0] == EmptyState && b < j <= |events|
    requires Step(states[b], events[b]).1.Established?
    requires var sid := Step(states[b], events[b]).1.sid;
             LiveThrough(states, sid, b + 1, j) && NeverRecovered(states, events, sid, b + 1, j)
    ensures var sid := Step(states[b], events[b]).1.sid;
            var (s, accepted) := (states[j].table.sessions[sid], AcceptedBy(states, events, sid, b, j));
            var taken := s.Refreshed(tw).ValidateTag(tag, tw);
            && SR.HighestIs(s.counter, SR.Counters(accepted, s.keys.sessionKey))
            && (taken == Some((tag.counter, false)) <==> Expected(s, accepted, tag, tw))
            && (taken == Some((tag.counter, true)) <==>
                  && s.ratchetedKeys.Some? && tag.secret == s.ratchetedKeys.value.tagSecret
                  && NearWindow(tw, tag.window) && tag.counter < 256)
  {
    hide Step, FreshDraws, ReachesHandshake, IsNewborn, WindowExact, SR.RunAll, SR.BitsName, SR.HighestIs,
         NeverRecovered,
         SessionState.ValidateTag, SessionState.Refreshed;
    var m, s, es := LifeIsRun(states, events, b, j);
    NewbornIsExact(s, events[b], m);
    SR.BitmapOverRuns(s, es);
    SR.HighestOverRuns(s, es);
    SR.WindowExactOverRuns(s, es);
    var r := SR.RunAll(s, es);
    RefreshedValidates(r.s, tag, false, tw);
    RefreshedValidates(r.s, tag, true, tw);
    if r.s.counter <= tag.counter + 255 {
      UnreceivedIsUnaccepted(r, tag.counter);
    }
  }

  lemma UnreceivedIsUnaccepted(r: SR.Run, c: nat)
    requires SR.BitsAreAccepted(r) && r.s.counter <= c + 255
    ensures r.s.IsReplay(c) <==> (r.s.keys.sessionKey, c) in r.accepted
  {
    SR.InCounters(r.accepted, r.s.keys.sessionKey, c);
    hide SR.Counters;
    if c <= r.s.counter {
      assert r.s.counter - (r.s.counter - c) == c;
    }
  }

  // ---- Datagrams -----------------------------------------------------------------------------

  /** The datagram is one sealed with this key and counter, readable from this byte on. */
  predicate Readable(d: Datagram, key: Key, c: nat, offset: nat) {
    && d.size > offset && d.sealed.Sealed? && d.sealed.plain.Plain?
    && d.sealed.key == key && d.sealed.counter == c && d.sealed.offset == offset
  }

  /** A datagram with a genuine tag of a live session is accepted exactly if it was sealed with the
      session's key of that epoch and the tag's counter, from byte 44 on when it has 60 bytes or more
      and no ratchet is under way or done, and from byte 12 on otherwise. */
  lemma GenuineAcceptedExactly(g: State, cfg: Config, env: Env, from: Addr, d: Datagram, sid: Sid, ratcheted: bool)
    requires AllAgree(g.table, Basic) && EnoughDraws(cfg, env) && d.size >= 10
    requires Covers(env.refreshOrder, g.table) && sid in g.table.sessions && SoleHolder(g.table, sid, d.tag.secret)
    requires Genuine(g.table.sessions[sid], d.tag, ratcheted, env.tw)
    ensures var s := g.table.sessions[sid];
            var key := (if ratcheted then s.ratchetedKeys.value else s.keys).sessionKey;
            var offset := if !ratcheted && !s.isRatcheted && d.size >= 60 then 44 else 12;
            Accepts(g, Packet(cfg, env, from, d))
            == if Readable(d, key, d.tag.counter, offset) then Some((sid, key, d.tag.counter)) else None
  {
    hide Inv, IpInverse, SoleHolder, Lookup, RecoverByTag, Finish, ResolveHandshake, Handshake, Covers, SameButIndex,
         Secrets, SessionState.Accept, Genuine, WindowExact;
    LookupFindsGenuine(g.table, env.refreshOrder, sid, d.tag, ratcheted, env.tw);
    LookupIsQuiet(g.table, env.refreshOrder, d.tag, env.tw);
    var t1 := Lookup(g.table, env.refreshOrder, d.tag, env.tw).0;
    StaysQuiet(g.table, t1, sid);
    GenuineHasKeys(g.table.sessions[sid], d.tag, ratcheted, env.tw);
    AcceptedIsReadable(t1.sessions[sid], d, d.tag.counter, ratcheted, from, env.tw);
  }

  lemma GenuineHasKeys(s: SessionState, tag: Tag, ratcheted: bool, tw: nat)
    requires Genuine(s, tag, ratcheted, tw)
    ensures ratcheted ==> s.ratchetedKeys.Some?
  {}

  lemma StaysQuiet(t: Table, t': Table, sid: Sid)
    requires SameButIndex(t, t') && sid in t.sessions
    ensures sid in t'.sessions && SameButTags(t.sessions[sid], t'.sessions[sid])
  {}

  lemma AcceptedIsReadable(s: SessionState, d: Datagram, c: nat, ratcheted: bool, from: Addr, tw: nat)
    requires ratcheted ==> s.ratchetedKeys.Some?
    ensures var (s', ok) := s.Accept(d, c, ratcheted, false, from, tw);
            var keys := if ratcheted then s.ratchetedKeys.value else s.keys;
            && (ok <==> Readable(d, keys.sessionKey, c,
                                 if !ratcheted && !s.isRatcheted && d.size >= 60 then 44 else 12))
            && (ok ==> s'.keys == keys)
  {
    hide SessionState.Receive;
    ReceiveIsMark(if ratcheted then s.CompleteRatchet() else s, c, false, from, tw);
  }

  /** A datagram whose tag is indexed for a session that has received its counter is dropped at once:
      no session is refreshed, recovered or opened for it. */
  lemma ReplayIsDropped(g: State, cfg: Config, env: Env, from: Addr, d: Datagram, sid: Sid)
    requires AllAgree(g.table, Basic) && EnoughDraws(cfg, env) && sid in g.table.sessions
    requires d.tag in g.table.tagMap && g.table.tagMap[d.tag] == sid
    requires var s := g.table.sessions[sid]; d.tag.secret == s.keys.tagSecret && s.IsReplay(d.tag.counter)
    ensures HandlePacket(g, cfg, env, from, d) == (g, Rejected)
    ensures Accepts(g, Packet(cfg, env, from, d)) == None && Seals(g, Packet(cfg, env, from, d)) == None
  {
    hide Finish, Handshake, RecoverByTag, ResolveHandshake, Inv, IpInverse, SessionState.ValidateTag;
    WindowOf(g.table, Basic, sid);
    ReceivedIsRefused(g.table.sessions[sid], d.tag, env.tw);
  }

  lemma ReceivedIsRefused(s: SessionState, tag: Tag, tw: nat)
    requires WindowExact(s) && tag.secret == s.keys.tagSecret && s.IsReplay(tag.counter)
    ensures s.ValidateTag(tag, tw) == None
  {
    SR.NotRatcheted(s, tag);
  }

  // ---- Answers -------------------------------------------------------------------------------

  predicate MayAnswer(s: SessionState) {
    s.isRatcheted || s.serverEphPub.Some?
  }

  lemma AcceptKeepsAnswering(s: SessionState, d: Datagram, c: nat, ratcheted: bool, isNew: bool, from: Addr, tw: nat)
    requires MayAnswer(s)
    ensures MayAnswer(s.Accept(d, c, ratcheted, isNew, from, tw).0)
  {
    hide SessionState.Receive, SessionState.Opens;
    ReceiveKeepsFields(if ratcheted then s.CompleteRatchet() else s, c, isNew, from, tw);
  }

  lemma RefreshKeepsAnswering(s: SessionState, c: nat, tw: nat)
    requires MayAnswer(s)
    ensures MayAnswer(s.Refreshed(tw)) && MayAnswer(s.Recover(c, tw))
  {
    hide TagsFor;
  }

  lemma {:induction false} LifeKeepsAnswering(s: SessionState, es: seq<SR.Event>)
    requires MayAnswer(s)
    ensures MayAnswer(SR.RunAll(s, es).s)
    decreases |es|
  {
    hide MayAnswer, SessionState.Accept, SessionState.ValidateTag, SessionState.Refreshed, SessionState.Recover,
         SR.Run.Recoverable;
    if es != [] {
      LifeKeepsAnswering(s, es[..|es| - 1]);
      var r := SR.RunAll(s, es[..|es| - 1]);
      match es[|es| - 1]
      case Send => SendKeepsAnswering(r.s);
      case Receive(d, isNew, from, tw) =>
        var v := r.s.ValidateTag(d.tag, tw);
        if v.Some? {
          AcceptKeepsAnswering(r.s, d, v.value.0, v.value.1, isNew, from, tw);
        }
      case Refresh(tw) => RefreshKeepsAnswering(r.s, 0, tw);
      case Recovered(d, from, tw) =>
        RefreshKeepsAnswering(r.s, d.tag.counter, tw);
        AcceptKeepsAnswering(r.s.Recover(d.tag.counter, tw), d, d.tag.counter, false, false, from, tw);
    }
  }

  lemma SendKeepsAnswering(s: SessionState)
    ensures MayAnswer(s.NextSend()) == MayAnswer(s)
  {}

  lemma AnsweringAt(states: seq<State>, events: seq<Event>, n: nat, sid: Sid)
    requires IsRun(states, events) && states[0] == EmptyState && n <= |events| && sid in states[n].table.sessions
    ensures MayAnswer(states[n].table.sessions[sid])
  {
    hide Step, FreshDraws, ReachesHandshake, IsNewborn, MayAnswer, SR.RunAll;
    var b := KeyReuse.BornBefore(states, events, n, sid);
    var m, s, es := LifeIsRun(states, events, b, n);
    NewbornAnswers(s, events[b], m);
    LifeKeepsAnswering(s, es);
  }

  lemma NewbornAnswers(s: SessionState, e: Event, m: Match)
    requires IsNewborn(s, e, m)
    ensures MayAnswer(s)
  {
    hide TagsFor;
  }

  /** Over every run, a datagram accepted by a session that was there is answered exactly if it is a
      keepalive or a telemetry request, under the session's key and to the same client; and the
      session goes exactly if it is a shutdown. */
  lemma AnsweredExactly(states: seq<State>, events: seq<Event>, n: nat)
    requires IsRun(states, events) && states[0] == EmptyState && n < |events| && events[n].Packet?
    requires Accepts(states[n], events[n]).Some? && !Step(states[n], events[n]).1.Established?
    ensures var (g, e) := (states[n], events[n]);
            var (sid, key, _) := Accepts(g, e).value;
            && e.d.sealed.Sealed? && e.d.sealed.plain.Plain? && sid in g.table.sessions
            && var content := e.d.sealed.plain.content;
               && (Seals(g, e).Some? <==> content in {ControlMessage(Keepalive), ControlMessage(TelemetryRequest)})
               && (Seals(g, e).Some? ==> Seals(g, e).value.0 == sid && Seals(g, e).value.1 == key)
               && (sid in Step(g, e).0.table.sessions <==> content != ControlMessage(Shutdown))
  {
    hide AllAgree, FreshDraws, ReachesHandshake, HandlePacket, Resolve, Finish, SessionState.Accept, MayAnswer;
    var (g, e) := (states[n], events[n]);
    HandleResolves(g, e.cfg, e.env, e.from, e.d);
    var r := Resolve(g, e.cfg, e.env, e.from, e.d);
    var more := FoundIsRun(g, e.cfg, e.env, e.from, e.d);
    AnsweringAt(states, events, n, r.sid);
    FoundAnswers(g.table.sessions[r.sid], r.t.sessions[r.sid], e.env.tw, r.c);
    AcceptKeepsAnswering(r.t.sessions[r.sid], e.d, r.c, r.ratcheted, false, e.from, e.env.tw);
    AcceptedIsPlain(r.t.sessions[r.sid], e.d, r.c, r.ratcheted, e.from, e.env.tw);
    FinishIsAccept(r.t, r.sid, r.c, r.ratcheted, false, e.env, e.from, e.d);
    AnswersTwo(r.t.sessions[r.sid].Accept(e.d, r.c, r.ratcheted, false, e.from, e.env.tw).0, e.d.sealed.plain.content);
  }

  lemma AcceptedIsPlain(s: SessionState, d: Datagram, c: nat, ratcheted: bool, from: Addr, tw: nat)
    ensures s.Accept(d, c, ratcheted, false, from, tw).1 ==> d.sealed.Sealed? && d.sealed.plain.Plain?
  {}

  lemma AnswersTwo(s: SessionState, content: Content)
    requires MayAnswer(s)
    ensures Answers(s, content) <==> content in {ControlMessage(Keepalive), ControlMessage(TelemetryRequest)}
  {}

  lemma FoundAnswers(s: SessionState, s': SessionState, tw: nat, c: nat)
    requires MayAnswer(s)
    requires SameButTags(s, s') || exists x :: SameButTags(s, x) && s' == x.Recover(c, tw)
    ensures MayAnswer(s')
  {
    if !SameButTags(s, s') {
      var x :| SameButTags(s, x) && s' == x.Recover(c, tw);
      RefreshKeepsAnswering(x, c, tw);
    }
  }
}
