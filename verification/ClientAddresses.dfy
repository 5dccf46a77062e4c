/** Where a session's replies go: the address of its client, over every run of the server. */
module ClientAddresses {
  import opened Wrappers
  import opened Crypto
  import opened Datagram
  import opened Session
  import opened SessionTable
  import opened TableInvariants
  import opened AddressMap
  import opened Gateway
  import opened GatewayInvariants
  import opened PacketRuns
  import opened ServerRuns
  import SR = SessionRun

  // ---- One session ---------------------------------------------------------------------

  /** A known session that accepts a datagram learns its source; one that does not, and one just
      opened, keep the address they have. */
  lemma AcceptLearns(s: SessionState, d: Datagram, c: nat, ratcheted: bool, isNew: bool, from: Addr, tw: nat)
    ensures var (s', ok) := s.Accept(d, c, ratcheted, isNew, from, tw);
            s'.addr == if ok && !isNew then from else s.addr
  {
    hide SessionState.Opens, SessionState.MarkTagReceived, TagsFor;
    MarkKeepsAddr(s, c);
    MarkKeepsAddr(s.CompleteRatchet(), c);
  }

  lemma MarkKeepsAddr(s: SessionState, c: nat)
    ensures s.MarkTagReceived(c).addr == s.addr
  {}

  lemma RefreshKeepsAddr(s: SessionState, tw: nat)
    ensures s.Refreshed(tw).addr == s.addr
  {
    hide TagsFor;
  }

  lemma RecoverKeepsAddr(s: SessionState, c: nat, tw: nat)
    ensures s.Recover(c, tw).addr == s.addr
  {
    hide TagsFor;
  }

  lemma StepLearns(r: SR.Run, e: SR.Event)
    ensures r.Step(e).accepted == r.accepted ==> r.Step(e).s.addr == r.s.addr
    ensures r.accepted <= r.Step(e).accepted
  {
    hide SessionState.Accept, SessionState.ValidateTag, SessionState.Recover, SessionState.Refreshed,
         SR.Run.Recoverable;
    match e
    case Send =>
    case Receive(d, isNew, from, tw) =>
      var v := r.s.ValidateTag(d.tag, tw);
      if v.Some? {
        AcceptLearns(r.s, d, v.value.0, v.value.1, isNew, from, tw);
      }
    case Refresh(tw) => RefreshKeepsAddr(r.s, tw);
    case Recovered(d, from, tw) =>
      RecoverKeepsAddr(r.s, d.tag.counter, tw);
      AcceptLearns(r.s.Recover(d.tag.counter, tw), d, d.tag.counter, false, false, from, tw);
  }

  /** A stretch of a session's run that accepts nothing leaves its address. */
  lemma {:induction false} QuietStretch(r: SR.Run, es: seq<SR.Event>)
    ensures r.accepted <= SR.Extend(r, es).accepted
    ensures SR.Extend(r, es).accepted == r.accepted ==> SR.Extend(r, es).s.addr == r.s.addr
    decreases |es|
  {
    hide SR.Run.Step;
    if es != [] {
      QuietStretch(r, es[..|es| - 1]);
      StepLearns(SR.Extend(r, es[..|es| - 1]), es[|es| - 1]);
    }
  }

  // ---- One step of the server ------------------------------------------------------------

  /** The step accepts a datagram for the session. */
  predicate Takes(g: State, e: Event, sid: Sid)
    requires e.Packet? ==> EnoughDraws(e.cfg, e.env)
  {
    e.Packet? && Accepts(g, e).Some? && Accepts(g, e).value.0 == sid
  }

  /** In every step a session that stays has, if it accepted a datagram, that datagram's source as
      its client's address, and otherwise the address it had. */
  lemma StepAddress(g: State, e: Event, sid: Sid)
    requires AllAgree(g.table, Basic) && Fresh(g, e)
    requires sid in g.table.sessions && sid in Step(g, e).0.table.sessions
    ensures Step(g, e).0.table.sessions[sid].addr == if Takes(g, e, sid) then e.from else g.table.sessions[sid].addr
  {
    hide AllAgree, FreshDraws, ReachesHandshake, Step, Resolve, SessionState.Accept, Seals, SR.Run.Step;
    if Takes(g, e, sid) {
      TakerLearns(g, e, sid);
    } else {
      var es := StepIsRun(g, e, sid);
      QuietStretch(Begin(g.table.sessions[sid]), es);
    }
  }

  lemma TakerLearns(g: State, e: Event, sid: Sid)
    requires AllAgree(g.table, Basic) && Fresh(g, e)
    requires sid in g.table.sessions && sid in Step(g, e).0.table.sessions && Takes(g, e, sid)
    ensures e.Packet? && Step(g, e).0.table.sessions[sid].addr == e.from
  {
    hide AllAgree, FreshDraws, ReachesHandshake, HandlePacket, Resolve, Finish, SessionState.Accept, Answers, Seals;
    var (cfg, env, from, d) := (e.cfg, e.env, e.from, e.d);
    HandleResolves(g, cfg, env, from, d);
    var r := Resolve(g, cfg, env, from, d);
    if r.hello.Some? {
      var m, s, es := BirthIsRun(g, e);
      assert false;
    } else {
      FinishIsAccept(r.t, sid, r.c, r.ratcheted, false, env, from, d);
      AcceptLearns(r.t.sessions[sid], d, r.c, r.ratcheted, false, from, env.tw);
    }
  }

  /** A session that a step opens has the handshake's source as its client's address. */
  lemma OpeningAddress(g: State, e: Event)
    requires AllAgree(g.table, Basic) && Fresh(g, e) && Step(g, e).1.Established?
    ensures var (g', path) := Step(g, e);
            e.Packet? && path.sid in g'.table.sessions && g'.table.sessions[path.sid].addr == e.from
  {
    hide AllAgree, FreshDraws, ReachesHandshake, HandlePacket, Resolve, Finish, SessionState.Accept, BuiltFor,
         MayMatch, SessionState.ValidateTag, Seals, Accepts;
    var (cfg, env, from, d) := (e.cfg, e.env, e.from, e.d);
    HandleResolves(g, cfg, env, from, d);
    var r := Resolve(g, cfg, env, from, d);
    var m, s, es := BirthIsRun(g, e);
    NewbornAddress(s, e, m);
    FinishIsAccept(r.t, r.sid, r.c, r.ratcheted, true, env, from, d);
    AcceptLearns(r.t.sessions[r.sid], d, r.c, r.ratcheted, true, from, env.tw);
  }

  lemma NewbornAddress(s: SessionState, e: Event, m: Match)
    requires IsNewborn(s, e, m)
    ensures s.addr == e.from
  {
    hide TagsFor;
  }

  // ---- A whole life -------------------------------------------------------------------------

  /** The source of the last datagram the session accepted before state `j`, or else of the packet
      that opened it in step `b`. */
  ghost function LastSource(states: seq<State>, events: seq<Event>, sid: Sid, b: nat, j: nat): Addr
    requires IsRun(states, events) && b < j <= |events| && events[b].Packet?
    decreases j
  {
    if j == b + 1 then events[b].from
    else if Takes(states[j - 1], events[j - 1], sid) then events[j - 1].from
    else LastSource(states, events, sid, b, j - 1)
  }

  /** Over every life of a session, replies go to the source of the last datagram it accepted, or
      of its handshake when it has accepted none since. */
  lemma {:induction false} AddressOfOneLife(states: seq<State>, events: seq<Event>, b: nat, j: nat)
    requires IsRun(states, events) && states[0] == EmptyState && b < j <= |events|
    requires Step(states[b], events[b]).1.Established?
    requires LiveThrough(states, Step(states[b], events[b]).1.sid, b + 1, j)
    ensures var sid := Step(states[b], events[b]).1.sid;
            && events[b].Packet? && sid in states[j].table.sessions
            && states[j].table.sessions[sid].addr == LastSource(states, events, sid, b, j)
    decreases j
  {
    hide AllAgree, Step, FreshDraws, ReachesHandshake, Accepts;
    var sid := Step(states[b], events[b]).1.sid;
    BasicAt(states, events, j - 1);
    if j == b + 1 {
      OpeningAddress(states[b], events[b]);
    } else {
      AddressOfOneLife(states, events, b, j - 1);
      assert states[j] == Step(states[j - 1], events[j - 1]).0;
      StepAddress(states[j - 1], events[j - 1], sid);
    }
  }
}
