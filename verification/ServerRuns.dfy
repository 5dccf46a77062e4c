/** What a run of the server is for each of its sessions: one run of `SessionRun`, from the handshake
    that opened the session until it goes. */
module ServerRuns {
  import opened Wrappers
  import opened Logs
  import opened Crypto
  import opened Datagram
  import opened Session
  import opened SessionTable
  import opened TableInvariants
  import opened AddressMap
  import opened Gateway
  import opened GatewayInvariants
  import opened PacketRuns
  import SR = SessionRun

  // ---- Which session a packet is for ----------------------------------------------------

  /** A packet is dropped, or finished at session `sid` of table `t`; `hello` is the key and
      counter of the ServerHello sent before, if the session is new. */
  datatype Resolved =
    | Dropped(t: Table)
    | Found(t: Table, sid: Sid, c: nat, ratcheted: bool, hello: Option<(Key, nat)>)

  function Resolve(g: State, cfg: Config, env: Env, from: Addr, d: Datagram): (r: Resolved)
    requires EnoughDraws(cfg, env)
    ensures r.Found? ==> r.sid in r.t.sessions
  {
    if d.size < TAG_SIZE + 2 then Dropped(g.table) else
    var indexed := GetByTag(g.table, d.tag).Some?;
    var (t1, found) := Lookup(g.table, env.refreshOrder, d.tag, env.tw);
    if found.Some? then
      if found.value.0 in t1.sessions then Found(t1, found.value.0, found.value.1, found.value.2, None) else Dropped(t1)
    else if indexed then Dropped(t1)
    else
      var (t2, recovered) := RecoverByTag(t1, env.recoverOrder, d.tag, from.ip, env.tw);
      if recovered.Some? then
        var (sid, c, ratcheted) := recovered.value;
        if sid in t2.sessions then Found(t2, sid, c, ratcheted, None) else Dropped(t2)
      else ResolveHandshake(g.(table := t2), cfg, env, from, d)
  }

  function ResolveHandshake(g: State, cfg: Config, env: Env, from: Addr, d: Datagram): (r: Resolved)
    requires EnoughDraws(cfg, env)
    ensures r.Found? ==> r.sid in r.t.sessions
  {
    if !Attempts(g, env, from, d) then Dropped(g.table) else
    var (t1, found) := Attempt(g.table, cfg, env, from, d);
    if found.None? then Dropped(t1) else
    var (sid, clientId) := found.value;
    if sid !in t1.sessions then Dropped(Rollback(t1, sid, env.cleanupOrder)) else
    var s := t1.sessions[sid];
    match s.ValidateTag(d.tag, env.tw)
    case None => Dropped(Rollback(t1, sid, env.cleanupOrder))
    case Some((c, ratcheted)) =>
      var t2 := Establish(t1, sid, clientId, env.cleanupOrder);
      if sid in t2.sessions then Found(t2, sid, c, ratcheted, Some((s.keys.sessionKey, s.sendCounter))) else Dropped(t2)
  }

  lemma HandshakeResolves(g: State, cfg: Config, env: Env, from: Addr, d: Datagram)
    requires EnoughDraws(cfg, env)
    ensures var (g', path) := Handshake(g, cfg, env, from, d);
            match ResolveHandshake(g, cfg, env, from, d)
            case Dropped(t) => g'.table == t && path == Rejected
            case Found(t, sid, c, ratcheted, hello) =>
              g'.table == Finish(t, sid, c, ratcheted, true, env, from, d).0 && path == Established(sid) && hello.Some?
  {
    hide Attempts, Attempt, Establish, Finish, Rollback, SessionState.ValidateTag;
  }

  /** `handle_packet` is finding the session and finishing there. */
  lemma HandleResolves(g: State, cfg: Config, env: Env, from: Addr, d: Datagram)
    requires EnoughDraws(cfg, env)
    ensures var (g', path) := HandlePacket(g, cfg, env, from, d);
            match Resolve(g, cfg, env, from, d)
            case Dropped(t) => g'.table == t && path == Rejected
            case Found(t, sid, c, ratcheted, hello) =>
              && g'.table == Finish(t, sid, c, ratcheted, hello.Some?, env, from, d).0
              && (path.Established? <==> hello.Some?) && (path.Established? || path.Recovered? ==> path.sid == sid)
  {
    hide Lookup, RecoverByTag, Finish, Handshake, ResolveHandshake;
    var t2 := RecoverByTag(Lookup(g.table, env.refreshOrder, d.tag, env.tw).0, env.recoverOrder, d.tag, from.ip,
                           env.tw).0;
    HandshakeResolves(g.(table := t2), cfg, env, from, d);
  }

  // ---- The server's logs -------------------------------------------------------------------

  /** What the server seals in a step: session, key and counter. */
  function Seals(g: State, e: Event): Option<(Sid, Key, nat)>
    requires e.Packet? ==> EnoughDraws(e.cfg, e.env)
  {
    match e
    case Packet(cfg, env, from, d) =>
      (match Resolve(g, cfg, env, from, d)
       case Dropped(_) => None
       case Found(t, sid, c, ratcheted, hello) =>
         if hello.Some? then Some((sid, hello.value.0, hello.value.1)) else
         var (s, ok) := t.sessions[sid].Accept(d, c, ratcheted, false, from, env.tw);
         if Delivers(d, ok, false) && Answers(s, d.sealed.plain.content)
         then Some((sid, s.keys.sessionKey, s.sendCounter)) else None)
    case Expire(_) => None
    case _ =>
      var sid := Addressee(g, e);
      if sid.None? then None
      else Some((sid.value, g.table.sessions[sid.value].keys.sessionKey, g.table.sessions[sid.value].sendCounter))
  }

  /** What the server accepts in a step. */
  function Accepts(g: State, e: Event): Option<(Sid, Key, nat)>
    requires e.Packet? ==> EnoughDraws(e.cfg, e.env)
  {
    if !e.Packet? then None else
    match Resolve(g, e.cfg, e.env, e.from, e.d)
    case Dropped(_) => None
    case Found(t, sid, c, ratcheted, hello) =>
      var (s, ok) := t.sessions[sid].Accept(e.d, c, ratcheted, hello.Some?, e.from, e.env.tw);
      if ok then Some((sid, s.keys.sessionKey, c)) else None
  }

  /** The part of a log entry that belongs to one session. */
  function Own(entry: Option<(Sid, Key, nat)>, sid: Sid): seq<(Key, nat)> {
    if entry.Some? && entry.value.0 == sid then [(entry.value.1, entry.value.2)] else []
  }

  // ---- One step, for one session ---------------------------------------------------------

  function Begin(s: SessionState): SR.Run { SR.Run(s, [], []) }

  /** Refreshing all sessions refreshes each any number of times and logs nothing. */
  lemma {:induction false} RefreshIsRun(t: Table, order: seq<Sid>, tag: Tag, tw: nat, sid: Sid)
      returns (es: seq<SR.Event>)
    requires sid in t.sessions
    ensures var t' := RefreshAndFind(t, order, tag, tw).0;
            && sid in t'.sessions && SR.Extend(Begin(t.sessions[sid]), es) == Begin(t'.sessions[sid])
            && SR.NoRecovery(es)
    decreases |order|
  {
    hide RefreshOne, SessionState.ValidateTag, SR.Run.Step;
    es := [];
    if order != [] {
      var t1 := RefreshOne(t, order[0], tw);
      OneRefresh(t, order[0], tw, sid);
      var first := if order[0] == sid then [SR.Refresh(tw)] else [];
      es := first;
      if !(order[0] in t1.sessions && t1.sessions[order[0]].ValidateTag(tag, tw).Some?) {
        var rest := RefreshIsRun(t1, order[1..], tag, tw, sid);
        SR.ExtendTwice(Begin(t.sessions[sid]), first, rest);
        es := first + rest;
      }
    }
  }

  lemma OneRefresh(t: Table, at: Sid, tw: nat, sid: Sid)
    requires sid in t.sessions
    ensures var t' := RefreshOne(t, at, tw);
            sid in t'.sessions
            && SR.Extend(Begin(t.sessions[sid]), if at == sid then [SR.Refresh(tw)] else []) == Begin(t'.sessions[sid])
  {
    hide SessionState.UpdateTagWindow, SessionState.UpdateRatchetedTagWindow;
    SR.ExtendOnce(Begin(t.sessions[sid]), SR.Refresh(tw));
  }

  lemma LookupIsRun(t: Table, order: seq<Sid>, tag: Tag, tw: nat, sid: Sid) returns (es: seq<SR.Event>)
    requires sid in t.sessions
    ensures var t' := Lookup(t, order, tag, tw).0;
            && sid in t'.sessions && SR.Extend(Begin(t.sessions[sid]), es) == Begin(t'.sessions[sid])
            && SR.NoRecovery(es)
  {
    hide RefreshAndFind, SessionState.ValidateTag;
    es := [];
    if GetByTag(t, tag).None? {
      es := RefreshIsRun(t, order, tag, tw, sid);
    }
  }

  /** What the lookup finds validates there. */
  lemma {:induction false} RefreshValidates(t: Table, order: seq<Sid>, tag: Tag, tw: nat)
    ensures var (t', found) := RefreshAndFind(t, order, tag, tw);
            found.Some? ==> found.value.0 in t'.sessions
                            && t'.sessions[found.value.0].ValidateTag(tag, tw) == Some((found.value.1, found.value.2))
    decreases |order|
  {
    hide RefreshOne, SessionState.ValidateTag;
    if order != [] {
      var t1 := RefreshOne(t, order[0], tw);
      if order[0] in t1.sessions && t1.sessions[order[0]].ValidateTag(tag, tw).Some? {
        var v := t1.sessions[order[0]].ValidateTag(tag, tw);
        assert v == Some((v.value.0, v.value.1));
      } else {
        RefreshValidates(t1, order[1..], tag, tw);
      }
    }
  }

  lemma LookupValidates(t: Table, order: seq<Sid>, tag: Tag, tw: nat)
    ensures var (t', found) := Lookup(t, order, tag, tw);
            found.Some? ==> found.value.0 in t'.sessions
                            && t'.sessions[found.value.0].ValidateTag(tag, tw) == Some((found.value.1, found.value.2))
  {
    hide RefreshAndFind, SessionState.ValidateTag;
    RefreshValidates(t, order, tag, tw);
  }

  /** An event at a session, and a send if it answers. */
  lemma EventThenSend(s: SessionState, e: SR.Event, r: SR.Run, sends: bool) returns (es: seq<SR.Event>)
    requires Begin(s).Step(e) == r && r.sent == []
    ensures SR.Extend(Begin(s), es)
         == if sends then SR.Run(r.s.NextSend(), r.accepted, [(r.s.keys.sessionKey, r.s.sendCounter)]) else r
    ensures !e.Recovered? ==> SR.NoRecovery(es)
  {
    hide SR.Run.Step;
    SR.ExtendOnce(Begin(s), e);
    es := [e];
    if sends {
      SR.ExtendTwice(Begin(s), [e], [SR.Send]);
      SR.ExtendOnce(r, SR.Send);
      SendSteps(r);
      assert [] + [(r.s.keys.sessionKey, r.s.sendCounter)] == [(r.s.keys.sessionKey, r.s.sendCounter)];
      es := [e] + [SR.Send];
    }
  }

  lemma SendSteps(r: SR.Run)
    ensures r.Step(SR.Send) == SR.Run(r.s.NextSend(), r.accepted, r.sent + [(r.s.keys.sessionKey, r.s.sendCounter)])
  {}

  /** Finishing a packet at a known session is one event of that session, and a send if it answers. */
  lemma FinishIsRun(t: Table, sid: Sid, c: nat, ratcheted: bool, env: Env, from: Addr, d: Datagram,
                    s: SessionState, e: SR.Event) returns (es: seq<SR.Event>)
    requires sid in t.sessions && sid in Finish(t, sid, c, ratcheted, false, env, from, d).0.sessions
    requires Begin(s).Step(e) == Begin(s).Accepting(t.sessions[sid].Accept(d, c, ratcheted, false, from, env.tw), c)
    ensures var (s', ok) := t.sessions[sid].Accept(d, c, ratcheted, false, from, env.tw);
            SR.Extend(Begin(s), es)
            == SR.Run(Finish(t, sid, c, ratcheted, false, env, from, d).0.sessions[sid],
                      if ok then [(s'.keys.sessionKey, c)] else [],
                      if Delivers(d, ok, false) && Answers(s', d.sealed.plain.content)
                      then [(s'.keys.sessionKey, s'.sendCounter)] else [])
    ensures !e.Recovered? ==> SR.NoRecovery(es)
  {
    hide Finish, SessionState.Accept, Answers, SR.Run.Step;
    FinishIsAccept(t, sid, c, ratcheted, false, env, from, d);
    var (s', ok) := t.sessions[sid].Accept(d, c, ratcheted, false, from, env.tw);
    var r := Begin(s).Accepting((s', ok), c);
    es := EventThenSend(s, e, r, Delivers(d, ok, false) && Answers(s', d.sealed.plain.content));
  }

  lemma ReceiveSteps(s: SessionState, d: Datagram, c: nat, ratcheted: bool, isNew: bool, from: Addr, tw: nat)
    requires s.ValidateTag(d.tag, tw) == Some((c, ratcheted))
    ensures Begin(s).Step(SR.Receive(d, isNew, from, tw))
         == Begin(s).Accepting(s.Accept(d, c, ratcheted, isNew, from, tw), c)
  {
    hide SessionState.ValidateTag, SessionState.Accept;
  }

  /** A packet found by its tag, for the session it is for. */
  lemma KnownIsRun(g: State, cfg: Config, env: Env, from: Addr, d: Datagram, sid: Sid) returns (es: seq<SR.Event>)
    requires EnoughDraws(cfg, env) && d.size >= TAG_SIZE + 2 && sid in g.table.sessions
    requires var (t1, found) := Lookup(g.table, env.refreshOrder, d.tag, env.tw); found.Some? && found.value.0 == sid
    requires sid in HandlePacket(g, cfg, env, from, d).0.table.sessions
    ensures SR.Extend(Begin(g.table.sessions[sid]), es)
         == SR.Run(HandlePacket(g, cfg, env, from, d).0.table.sessions[sid],
                   Own(Accepts(g, Packet(cfg, env, from, d)), sid), Own(Seals(g, Packet(cfg, env, from, d)), sid))
    ensures SR.NoRecovery(es)
  {
    hide Lookup, SessionState.ValidateTag, SessionState.Accept, Finish, Answers, RecoverByTag, ResolveHandshake,
         Handshake, SR.Run.Step;
    var (t1, found) := Lookup(g.table, env.refreshOrder, d.tag, env.tw);
    var (c, ratcheted) := (found.value.1, found.value.2);
    var before := LookupIsRun(g.table, env.refreshOrder, d.tag, env.tw, sid);
    LookupValidates(g.table, env.refreshOrder, d.tag, env.tw);
    ReceiveSteps(t1.sessions[sid], d, c, ratcheted, false, from, env.tw);
    var after := FinishIsRun(t1, sid, c, ratcheted, env, from, d, t1.sessions[sid], SR.Receive(d, false, from, env.tw));
    SR.ExtendTwice(Begin(g.table.sessions[sid]), before, after);
    es := before + after;
  }

  lemma RecoveredTable(t: Table, order: seq<Sid>, d: Datagram, from: Addr, tw: nat)
    requires RecoverByTag(t, order, d.tag, from.ip, tw).1.Some?
    ensures var (t', found) := RecoverByTag(t, order, d.tag, from.ip, tw);
            var (sid, c, ratcheted) := found.value;
            && sid in t.sessions && t'.sessions == t.sessions[sid := t.sessions[sid].Recover(c, tw)]
            && !ratcheted && c == d.tag.counter
            && Recoverable(from.ip, d.tag, tw).Matches(t.sessions[sid])
  {
    hide SessionState.Recover, Without, Assign, Wanted.Matches;
    FindSpec(order, t, Recoverable(from.ip, d.tag, tw));
  }

  lemma RecoveredSteps(s: SessionState, d: Datagram, from: Addr, tw: nat)
    requires Recoverable(from.ip, d.tag, tw).Matches(s) && s.Refreshed(tw).ValidateTag(d.tag, tw).None?
    ensures Begin(s).Recoverable(d.tag, tw)
    ensures Begin(s).Step(SR.Recovered(d, from, tw))
         == Begin(s).Accepting(s.Recover(d.tag.counter, tw).Accept(d, d.tag.counter, false, false, from, tw),
                               d.tag.counter)
  {
    hide SessionState.Accept, SessionState.Recover, SessionState.ValidateTag, SessionState.Refreshed;
  }

  /** Recovery is reached only after every session was refreshed and none took the tag. */
  lemma MissedBefore(t: Table, order: seq<Sid>, tag: Tag, tw: nat, sid: Sid)
    requires Covers(order, t) && GetByTag(t, tag).None? && Lookup(t, order, tag, tw).1.None? && sid in t.sessions
    ensures var t' := Lookup(t, order, tag, tw).0;
            && sid in t'.sessions && t'.sessions[sid] == t.sessions[sid].Refreshed(tw)
            && t'.sessions[sid].Refreshed(tw).ValidateTag(tag, tw).None?
  {
    hide SessionState.Refreshed, SessionState.ValidateTag, RefreshAndFind;
    RefreshMisses(t, order, tag, tw, sid);
    RefreshTwice(t.sessions[sid], tw);
  }

  /** A packet that recovers a session, for that session. */
  lemma RecoveryIsRun(g: State, cfg: Config, env: Env, from: Addr, d: Datagram, sid: Sid) returns (es: seq<SR.Event>)
    requires EnoughDraws(cfg, env) && d.size >= TAG_SIZE + 2 && sid in g.table.sessions
    requires Covers(env.refreshOrder, g.table)
    requires var (t1, found) := Lookup(g.table, env.refreshOrder, d.tag, env.tw);
             && found.None? && GetByTag(g.table, d.tag).None?
             && var recovered := RecoverByTag(t1, env.recoverOrder, d.tag, from.ip, env.tw).1;
                recovered.Some? && recovered.value.0 == sid
    requires sid in HandlePacket(g, cfg, env, from, d).0.table.sessions
    ensures SR.Extend(Begin(g.table.sessions[sid]), es)
         == SR.Run(HandlePacket(g, cfg, env, from, d).0.table.sessions[sid],
                   Own(Accepts(g, Packet(cfg, env, from, d)), sid), Own(Seals(g, Packet(cfg, env, from, d)), sid))
  {
    hide Lookup, SessionState.ValidateTag, SessionState.Accept, Finish, Answers, RecoverByTag, ResolveHandshake,
         Handshake, SR.Run.Step,
         SessionState.Refreshed, Wanted.Matches, SessionState.Recover;
    var t1 := Lookup(g.table, env.refreshOrder, d.tag, env.tw).0;
    var before := LookupIsRun(g.table, env.refreshOrder, d.tag, env.tw, sid);
    RecoveredTable(t1, env.recoverOrder, d, from, env.tw);
    MissedBefore(g.table, env.refreshOrder, d.tag, env.tw, sid);
    RecoveredSteps(t1.sessions[sid], d, from, env.tw);
    var (t2, recovered) := RecoverByTag(t1, env.recoverOrder, d.tag, from.ip, env.tw);
    var after := FinishIsRun(t2, sid, d.tag.counter, false, env, from, d, t1.sessions[sid],
                             SR.Recovered(d, from, env.tw));
    SR.ExtendTwice(Begin(g.table.sessions[sid]), before, after);
    es := before + after;
  }

  /** The session a packet is found for, as it is when the packet is finished: refreshed, and if it
      was recovered then moved. */
  lemma FoundIsRun(g: State, cfg: Config, env: Env, from: Addr, d: Datagram) returns (es: seq<SR.Event>)
    requires EnoughDraws(cfg, env) && Covers(env.refreshOrder, g.table)
    requires var r := Resolve(g, cfg, env, from, d); r.Found? && r.hello.None?
    ensures var r := Resolve(g, cfg, env, from, d);
            && r.sid in g.table.sessions
            && var x := SR.Extend(Begin(g.table.sessions[r.sid]), es);
               && x == Begin(x.s) && SR.NoRecovery(es) && SameButTags(g.table.sessions[r.sid], x.s)
               && (if HandlePacket(g, cfg, env, from, d).1 == Recovered(r.sid)
                   then !r.ratcheted && r.c == d.tag.counter && r.t.sessions[r.sid] == x.s.Recover(r.c, env.tw)
                        && Begin(x.s).Recoverable(d.tag, env.tw)
                   else r.t.sessions[r.sid] == x.s && x.s.ValidateTag(d.tag, env.tw) == Some((r.c, r.ratcheted)))
  {
    hide Lookup, SessionState.ValidateTag, SessionState.Accept, Finish, RecoverByTag, ResolveHandshake, Handshake,
         SR.Run.Step,
         SessionState.Refreshed, Wanted.Matches, SessionState.Recover, SR.Run.Recoverable;
    var (t1, found) := Lookup(g.table, env.refreshOrder, d.tag, env.tw);
    var r := Resolve(g, cfg, env, from, d);
    LookupValidates(g.table, env.refreshOrder, d.tag, env.tw);
    LookupIsQuiet(g.table, env.refreshOrder, d.tag, env.tw);
    if found.None? {
      HandshakeResolves(g.(table := RecoverByTag(t1, env.recoverOrder, d.tag, from.ip, env.tw).0), cfg, env, from, d);
      RecoveredTable(t1, env.recoverOrder, d, from, env.tw);
      MissedBefore(g.table, env.refreshOrder, d.tag, env.tw, r.sid);
      RecoveredSteps(t1.sessions[r.sid], d, from, env.tw);
      RecoveredPath(g, cfg, env, from, d);
    }
    es := LookupIsRun(g.table, env.refreshOrder, d.tag, env.tw, r.sid);
  }

  lemma LookupIsQuiet(t: Table, order: seq<Sid>, tag: Tag, tw: nat)
    ensures SameButIndex(t, Lookup(t, order, tag, tw).0)
  {
    RefreshIsQuiet(t, order, tag, tw);
  }

  /** A packet for another session, or for none: this one is refreshed at most. */
  lemma OtherIsRun(g: State, cfg: Config, env: Env, from: Addr, d: Datagram, sid: Sid) returns (es: seq<SR.Event>)
    requires AllAgree(g.table, Basic) && EnoughDraws(cfg, env) && sid in g.table.sessions
    requires ReachesHandshake(g, env, from, d) ==> FreshDraws(g.table, env)
    requires var r := Resolve(g, cfg, env, from, d); r.Found? ==> r.sid != sid
    requires sid in HandlePacket(g, cfg, env, from, d).0.table.sessions
    ensures SR.Extend(Begin(g.table.sessions[sid]), es)
         == Begin(HandlePacket(g, cfg, env, from, d).0.table.sessions[sid])
    ensures SR.NoRecovery(es)
  {
    hide AllAgree, Lookup, RecoverByTag, Finish, Handshake, ResolveHandshake, HandlePacket, SR.Run.Step, Attempts;
    es := [];
    if d.size < TAG_SIZE + 2 {
      TooShort(g, cfg, env, from, d);
    } else {
      es := LookupIsRun(g.table, env.refreshOrder, d.tag, env.tw, sid);
      var (t1, found) := Lookup(g.table, env.refreshOrder, d.tag, env.tw);
      HandleResolves(g, cfg, env, from, d);
      if found.Some? {
        LookupValidates(g.table, env.refreshOrder, d.tag, env.tw);
        FinishIsAccept(t1, found.value.0, found.value.1, found.value.2, false, env, from, d);
      } else if GetByTag(g.table, d.tag).None? {
        if RecoverByTag(t1, env.recoverOrder, d.tag, from.ip, env.tw).1.Some? {
          RecoveredTable(t1, env.recoverOrder, d, from, env.tw);
          var (t2, recovered) := RecoverByTag(t1, env.recoverOrder, d.tag, from.ip, env.tw);
          FinishIsAccept(t2, recovered.value.0, recovered.value.1, recovered.value.2, false, env, from, d);
        } else {
          HandshakeLeavesOthers(g, cfg, env, from, d, sid);
        }
      }
    }
  }

  lemma TooShort(g: State, cfg: Config, env: Env, from: Addr, d: Datagram)
    requires EnoughDraws(cfg, env) && d.size < TAG_SIZE + 2
    ensures HandlePacket(g, cfg, env, from, d) == (g, Rejected)
    ensures Resolve(g, cfg, env, from, d) == Dropped(g.table)
  {}

  lemma HandshakeLeavesOthers(g: State, cfg: Config, env: Env, from: Addr, d: Datagram, sid: Sid)
    requires AllAgree(g.table, Basic) && EnoughDraws(cfg, env) && d.size >= TAG_SIZE + 2
    requires GetByTag(g.table, d.tag).None?
    requires ReachesHandshake(g, env, from, d) ==> FreshDraws(g.table, env)
    requires var (t1, found) := Lookup(g.table, env.refreshOrder, d.tag, env.tw);
             found.None? && RecoverByTag(t1, env.recoverOrder, d.tag, from.ip, env.tw).1.None? && sid in t1.sessions
    requires sid in HandlePacket(g, cfg, env, from, d).0.table.sessions
    ensures HandlePacket(g, cfg, env, from, d).0.table.sessions[sid] == AfterLookup(g, env, d).table.sessions[sid]
  {
    hide AllAgree, Lookup, RecoverByTag, Handshake, HandlePacket, Attempts, FreshDraws, Lost;
    LookupIsOk(g.table, Basic, env.refreshOrder, d.tag, env.tw);
    var g1 := AfterLookup(g, env, d);
    HandsOver(g, cfg, env, from, d);
    if Attempts(g, env, from, d) {
      QuietKeepsFresh(g.table, g1.table, env);
    }
    HandshakeOutcome(g1, Basic, cfg, env, from, d);
  }

  /** In every step, what happens to a session that stays is a stretch of a session run, and the
      server's logs hold exactly what that stretch seals and accepts. */
  lemma StepIsRun(g: State, e: Event, sid: Sid) returns (es: seq<SR.Event>)
    requires AllAgree(g.table, Basic) && Fresh(g, e)
    requires sid in g.table.sessions && sid in Step(g, e).0.table.sessions
    ensures SR.Extend(Begin(g.table.sessions[sid]), es)
         == SR.Run(Step(g, e).0.table.sessions[sid], Own(Accepts(g, e), sid), Own(Seals(g, e), sid))
    ensures Step(g, e).1 != Recovered(sid) ==> SR.NoRecovery(es)
  {
    hide AllAgree, HandlePacket, Resolve, FreshDraws, ReachesHandshake, SR.Run.Step, SessionState.Accept, Answers;
    match e
    case Packet(cfg, env, from, d) => es := PacketIsRun(g, cfg, env, from, d, sid);
    case Expire(gone) => es := [];
    case _ =>
      es := [];
      if Addressee(g, e) == Some(sid) {
        var r := Begin(g.table.sessions[sid]);
        es := [SR.Send];
        SR.ExtendOnce(r, SR.Send);
        SendSteps(r);
      }
  }

  lemma PacketIsRun(g: State, cfg: Config, env: Env, from: Addr, d: Datagram, sid: Sid) returns (es: seq<SR.Event>)
    requires AllAgree(g.table, Basic) && Fresh(g, Packet(cfg, env, from, d))
    requires sid in g.table.sessions && sid in HandlePacket(g, cfg, env, from, d).0.table.sessions
    ensures SR.Extend(Begin(g.table.sessions[sid]), es)
         == SR.Run(HandlePacket(g, cfg, env, from, d).0.table.sessions[sid],
                   Own(Accepts(g, Packet(cfg, env, from, d)), sid), Own(Seals(g, Packet(cfg, env, from, d)), sid))
    ensures HandlePacket(g, cfg, env, from, d).1 != Recovered(sid) ==> SR.NoRecovery(es)
  {
    hide AllAgree, HandlePacket, FreshDraws, ReachesHandshake, Lookup, RecoverByTag, ResolveHandshake, SR.Run.Step,
         SessionState.Accept, Answers;
    var r := Resolve(g, cfg, env, from, d);
    if r.Found? && r.sid == sid {
      var (t1, found) := Lookup(g.table, env.refreshOrder, d.tag, env.tw);
      if found.Some? {
        es := KnownIsRun(g, cfg, env, from, d, sid);
      } else if RecoverByTag(t1, env.recoverOrder, d.tag, from.ip, env.tw).1.Some? {
        es := RecoveryIsRun(g, cfg, env, from, d, sid);
        RecoveredPath(g, cfg, env, from, d);
      } else {
        NewIsNew(g, cfg, env, from, d);
      }
    } else {
      es := OtherIsRun(g, cfg, env, from, d, sid);
    }
  }

  lemma RecoveredPath(g: State, cfg: Config, env: Env, from: Addr, d: Datagram)
    requires EnoughDraws(cfg, env) && d.size >= TAG_SIZE + 2 && GetByTag(g.table, d.tag).None?
    requires var (t1, found) := Lookup(g.table, env.refreshOrder, d.tag, env.tw);
             found.None? && RecoverByTag(t1, env.recoverOrder, d.tag, from.ip, env.tw).1.Some?
    ensures var r := Resolve(g, cfg, env, from, d);
            r.Found? ==> HandlePacket(g, cfg, env, from, d).1 == Recovered(r.sid)
  {
    hide Lookup, RecoverByTag, Finish, Handshake, ResolveHandshake;
  }

  /** The table a new session is finished in: it is there as built, with address, client and one
      send, and was not there before. */
  lemma NewIsBuilt(g: State, cfg: Config, env: Env, from: Addr, d: Datagram) returns (m: Match)
    requires AllAgree(g.table, Basic) && EnoughDraws(cfg, env)
    requires Attempts(g, env, from, d) ==> FreshDraws(g.table, env)
    ensures var r := ResolveHandshake(g, cfg, env, from, d);
            r.Found? ==>
              var s := BuiltFor(cfg, env, from, d, m);
              && r.sid !in g.table.sessions && s.Some? && s.value.ValidateTag(d.tag, env.tw) == Some((r.c, r.ratcheted))
              && r.hello == Some((s.value.keys.sessionKey, 0))
              && MayMatch(cfg, m.psk, r.t.sessions[r.sid].clientId)
              && var clientId := r.t.sessions[r.sid].clientId;
                 r.t.sessions[r.sid] == s.value.(vpnIp := m.chosen.0, clientId := clientId).NextSend()
  {
    hide AllAgree, Attempt, Attempts, Covers, FailedTags, Insert, Build, Establish, MayMatch, SessionState.ValidateTag;
    m := Match(Draw(0, 0, [], []), None, (None, 0));
    var (t1, found) := Attempt(g.table, cfg, env, from, d);
    if Attempts(g, env, from, d) && found.Some? {
      Inverse(g.table, Basic);
      m := AttemptOutcome(g.table, cfg, env, from, d);
      var lost := FailedTags(g.table, cfg, env, from, d);
      var left := g.table.(tagMap := g.table.tagMap - lost);
      LosingKeeps(g.table, Basic, lost, g.table.nextOctet);
      CoversSame(g.table, left, env.cleanupOrder);
      var s := BuiltSession(cfg.id, m.draw, from, d.eph, m.psk, env.tw);
      BuiltIsExact(cfg.id, m.draw, from, d.eph, m.psk, env.tw);
      AddressIsIrrelevant(s, m.chosen.0, d.tag, env.tw);
      InsertedHas(left, m.draw.sid, s, m.chosen);
      EstablishKeeps(left, Basic, m.draw.sid, s, m.chosen, found.value.1, env.cleanupOrder);
      var v := s.ValidateTag(d.tag, env.tw).value;
      assert v == (v.0, v.1);
    }
  }

  /** A session that a packet opens was not there before. */
  lemma NewIsNew(g: State, cfg: Config, env: Env, from: Addr, d: Datagram)
    requires AllAgree(g.table, Basic) && Fresh(g, Packet(cfg, env, from, d))
    requires d.size >= TAG_SIZE + 2 && GetByTag(g.table, d.tag).None?
    requires var (t1, found) := Lookup(g.table, env.refreshOrder, d.tag, env.tw);
             found.None? && RecoverByTag(t1, env.recoverOrder, d.tag, from.ip, env.tw).1.None?
    ensures var r := Resolve(g, cfg, env, from, d); r.Found? ==> r.sid !in g.table.sessions
  {
    hide AllAgree, Lookup, Attempts, FreshDraws, BuiltFor, MayMatch, SessionState.ValidateTag, ResolveHandshake;
    LookupIsOk(g.table, Basic, env.refreshOrder, d.tag, env.tw);
    HandsOver(g, cfg, env, from, d);
    if Attempts(g, env, from, d) {
      QuietKeepsFresh(g.table, AfterLookup(g, env, d).table, env);
    }
    NothingRecovered(AfterLookup(g, env, d).table, env.recoverOrder, d.tag, from.ip, env.tw);
    var m := NewIsBuilt(AfterLookup(g, env, d), cfg, env, from, d);
  }

  lemma NothingRecovered(t: Table, order: seq<Sid>, tag: Tag, ip: Ip, tw: nat)
    requires RecoverByTag(t, order, tag, ip, tw).1.None?
    ensures RecoverByTag(t, order, tag, ip, tw).0 == t
  {}

  // ---- The birth of a session ------------------------------------------------------------

  /** The session a handshake opens, before its ServerHello. */
  predicate IsNewborn(s: SessionState, e: Event, m: Match) {
    && e.Packet? && BuiltFor(e.cfg, e.env, e.from, e.d, m).Some?
    && s == BuiltFor(e.cfg, e.env, e.from, e.d, m).value.(vpnIp := s.vpnIp, clientId := s.clientId)
    && MayMatch(e.cfg, m.psk, s.clientId)
  }

  lemma NewbornIsExact(s: SessionState, e: Event, m: Match)
    requires IsNewborn(s, e, m)
    ensures WindowExact(s) && s.bits == {} && s.sendCounter == 0 && s.counter == 0
    ensures var dh := ComputeShared(e.cfg.id.scalar, e.d.eph);
            dh.Some? && s.keys == DeriveSessionKeys(dh.value, m.psk, e.d.eph)
    ensures s.ratchetedKeys.Some?
    ensures exists dh :: s.ratchetedKeys.value == DeriveSessionKeys(dh, Some(s.keys.sessionKey), e.d.eph)
  {
    var built := BuiltFor(e.cfg, e.env, e.from, e.d, m).value;
    BuiltIsExact(e.cfg.id, m.draw, e.from, e.d.eph, m.psk, e.env.tw);
    SameWindow(built, s);
    var dh := ComputeShared(m.draw.serverEph, e.d.eph).value;
    assert s.ratchetedKeys.value == DeriveSessionKeys(dh, Some(s.keys.sessionKey), e.d.eph);
  }

  lemma HelloThenReceive(s: SessionState, d: Datagram, c: nat, ratcheted: bool, from: Addr, tw: nat)
      returns (es: seq<SR.Event>)
    requires s.ValidateTag(d.tag, tw) == Some((c, ratcheted)) && s.sendCounter == 0
    ensures var (s', ok) := s.NextSend().Accept(d, c, ratcheted, true, from, tw);
            SR.Extend(Begin(s), es)
            == SR.Run(s', if ok then [(s'.keys.sessionKey, c)] else [], [(s.keys.sessionKey, 0)])
    ensures SR.NoRecovery(es)
  {
    var e, r := SR.Receive(d, true, from, tw), SR.Run(s.NextSend(), [], [(s.keys.sessionKey, 0)]);
    SendSteps(Begin(s));
    SR.ExtendOnce(Begin(s), SR.Send);
    SR.ExtendTwice(Begin(s), [SR.Send], [e]);
    SR.ExtendOnce(r, e);
    SendIsIrrelevant(s, d.tag, tw);
    hide SessionState.ValidateTag, SessionState.Accept;
    assert [] + [(s.keys.sessionKey, 0)] == [(s.keys.sessionKey, 0)];
    es := [SR.Send] + [e];
  }

  lemma SendIsIrrelevant(s: SessionState, tag: Tag, tw: nat)
    ensures s.NextSend().ValidateTag(tag, tw) == s.ValidateTag(tag, tw)
  {}

  /** A step that opens a session: it starts as built, with unused counters and its ServerHello
      sealed with counter 0. */
  lemma BirthIsRun(g: State, e: Event) returns (m: Match, s: SessionState, es: seq<SR.Event>)
    requires AllAgree(g.table, Basic) && Fresh(g, e) && Step(g, e).1.Established?
    ensures var (g', path) := Step(g, e);
            && IsNewborn(s, e, m) && path.sid !in g.table.sessions && path.sid in g'.table.sessions
            && Seals(g, e) == Some((path.sid, s.keys.sessionKey, 0))
            && (var r := Resolve(g, e.cfg, e.env, e.from, e.d);
                && r.Found? && r.t.sessions[r.sid] == s.NextSend()
                && s.ValidateTag(e.d.tag, e.env.tw) == Some((r.c, r.ratcheted)))
            && (SR.Extend(Begin(s), es)
                == SR.Run(g'.table.sessions[path.sid], Own(Accepts(g, e), path.sid), [(s.keys.sessionKey, 0)]))
    ensures SR.NoRecovery(es)
  {
    hide AllAgree, Lookup, Attempts, FreshDraws, BuiltFor, MayMatch, SessionState.ValidateTag, SessionState.Accept,
         ResolveHandshake, HandlePacket, RecoverByTag, Finish;
    var (cfg, env, from, d) := (e.cfg, e.env, e.from, e.d);
    HandleResolves(g, cfg, env, from, d);
    LookupIsOk(g.table, Basic, env.refreshOrder, d.tag, env.tw);
    var g1 := AfterLookup(g, env, d);
    NothingRecovered(g1.table, env.recoverOrder, d.tag, from.ip, env.tw);
    HandsOver(g, cfg, env, from, d);
    if Attempts(g, env, from, d) {
      QuietKeepsFresh(g.table, g1.table, env);
    }
    m := NewIsBuilt(g1, cfg, env, from, d);
    var r := ResolveHandshake(g1, cfg, env, from, d);
    s := r.t.sessions[r.sid].(sendCounter := 0);
    NewbornFields(BuiltFor(cfg, env, from, d, m).value, s, cfg, env, from, d, m);
    es := HelloThenReceive(s, d, r.c, r.ratcheted, from, env.tw);
    FinishIsAccept(r.t, r.sid, r.c, r.ratcheted, true, env, from, d);
  }

  lemma NewbornFields(built: SessionState, s: SessionState, cfg: Config, env: Env, from: Addr, d: Datagram, m: Match)
    requires BuiltFor(cfg, env, from, d, m) == Some(built)
    requires s == built.(vpnIp := s.vpnIp, clientId := s.clientId).NextSend().(sendCounter := 0)
    ensures s == built.(vpnIp := s.vpnIp, clientId := s.clientId)
    ensures s.ValidateTag(d.tag, env.tw) == built.ValidateTag(d.tag, env.tw)
  {
    BuiltIsExact(cfg.id, m.draw, from, d.eph, m.psk, env.tw);
  }

  /** The sessions of a step's outcome are those before and the one it opened. */
  lemma LiveAfter(g: State, e: Event, sid: Sid)
    requires AllAgree(g.table, Basic) && Fresh(g, e) && sid in Step(g, e).0.table.sessions
    ensures sid in g.table.sessions || Step(g, e).1 == Established(sid)
  {
    hide AllAgree, HandlePacket, FreshDraws, ReachesHandshake;
    if e.Packet? {
      LiveAfterPacket(g, e.cfg, e.env, e.from, e.d);
    }
  }

  lemma LiveAfterPacket(g: State, cfg: Config, env: Env, from: Addr, d: Datagram)
    requires AllAgree(g.table, Basic) && Fresh(g, Packet(cfg, env, from, d))
    ensures var (g', path) := HandlePacket(g, cfg, env, from, d);
            forall sid :: sid in g'.table.sessions ==> sid in g.table.sessions || path == Established(sid)
  {
    hide AllAgree, Lookup, RecoverByTag, Finish, Handshake, ResolveHandshake, HandlePacket, Attempts, FreshDraws, Lost,
         SessionState.Accept;
    HandleResolves(g, cfg, env, from, d);
    LookupIsOk(g.table, Basic, env.refreshOrder, d.tag, env.tw);
    LookupValidates(g.table, env.refreshOrder, d.tag, env.tw);
    var (t1, found) := Lookup(g.table, env.refreshOrder, d.tag, env.tw);
    if d.size < TAG_SIZE + 2 {
    } else if found.Some? {
      FinishIsAccept(t1, found.value.0, found.value.1, found.value.2, false, env, from, d);
    } else if GetByTag(g.table, d.tag).None? {
      if RecoverByTag(t1, env.recoverOrder, d.tag, from.ip, env.tw).1.Some? {
        RecoveredTable(t1, env.recoverOrder, d, from, env.tw);
        var (t2, recovered) := RecoverByTag(t1, env.recoverOrder, d.tag, from.ip, env.tw);
        FinishIsAccept(t2, recovered.value.0, recovered.value.1, recovered.value.2, false, env, from, d);
      } else {
        var g1 := AfterLookup(g, env, d);
        HandsOver(g, cfg, env, from, d);
        if Attempts(g, env, from, d) {
          QuietKeepsFresh(g.table, g1.table, env);
        }
        HandshakeOutcome(g1, Basic, cfg, env, from, d);
      }
    }
  }

  /** Who seals in a step lives on after it, and lived before unless it was just opened. */
  lemma SealerIsLive(g: State, e: Event)
    requires AllAgree(g.table, Basic) && Fresh(g, e) && Seals(g, e).Some?
    ensures var (g', path) := Step(g, e);
            var sid := Seals(g, e).value.0;
            sid in g'.table.sessions && (sid in g.table.sessions || path == Established(sid))
  {
    hide AllAgree, FreshDraws, ReachesHandshake, HandlePacket, Resolve, Finish, SessionState.Accept, Answers;
    if e.Packet? {
      HandleResolves(g, e.cfg, e.env, e.from, e.d);
      var r := Resolve(g, e.cfg, e.env, e.from, e.d);
      if Step(g, e).1.Established? {
        var m, s, es := BirthIsRun(g, e);
      } else {
        FinishIsAccept(r.t, r.sid, r.c, r.ratcheted, false, e.env, e.from, e.d);
        ShutdownIsNoAnswer(r.t.sessions[r.sid].Accept(e.d, r.c, r.ratcheted, false, e.from, e.env.tw).0,
                           e.d.sealed.plain.content);
        LiveAfter(g, e, r.sid);
      }
    }
  }

  lemma ShutdownIsNoAnswer(s: SessionState, content: Content)
    ensures Answers(s, content) ==> content != ControlMessage(Shutdown)
  {}

  // ---- A whole life ------------------------------------------------------------------------

  ghost predicate LiveThrough(states: seq<State>, sid: Sid, i: nat, j: nat) {
    forall k :: i <= k <= j && k < |states| ==> sid in states[k].table.sessions
  }

  ghost function SealedBy(states: seq<State>, events: seq<Event>, sid: Sid, i: nat, j: nat): seq<(Key, nat)>
    requires IsRun(states, events) && j <= |events|
    decreases j
  {
    if j <= i then [] else SealedBy(states, events, sid, i, j - 1) + Own(Seals(states[j - 1], events[j - 1]), sid)
  }

  ghost function AcceptedBy(states: seq<State>, events: seq<Event>, sid: Sid, i: nat, j: nat): seq<(Key, nat)>
    requires IsRun(states, events) && j <= |events|
    decreases j
  {
    if j <= i then [] else AcceptedBy(states, events, sid, i, j - 1) + Own(Accepts(states[j - 1], events[j - 1]), sid)
  }

  ghost predicate NeverRecovered(states: seq<State>, events: seq<Event>, sid: Sid, i: nat, j: nat)
    requires IsRun(states, events) && j <= |events|
  {
    forall k :: i <= k < j ==> Step(states[k], events[k]).1 != Recovered(sid)
  }

  lemma BasicAt(states: seq<State>, events: seq<Event>, k: nat)
    requires IsRun(states, events) && states[0] == EmptyState && k <= |events|
    ensures AllAgree(states[k].table, Basic)
  {
    hide Step, Fresh, AllAgree;
    RunPrefix(states, events, k);
    EmptyIsOk(Basic);
    RunKeeps(states[..k + 1], Basic, events[..k]);
  }

  /** From the step `b` that opened it to any state it still lives in, a session has gone through
      one run of `SessionRun` from its newborn state; the logs of that run are the server's. */
  lemma {:induction false} LifeIsRun(states: seq<State>, events: seq<Event>, b: nat, j: nat)
      returns (m: Match, s: SessionState, es: seq<SR.Event>)
    requires IsRun(states, events) && states[0] == EmptyState && b < j <= |events|
    requires Step(states[b], events[b]).1.Established?
    requires LiveThrough(states, Step(states[b], events[b]).1.sid, b + 1, j)
    ensures var sid := Step(states[b], events[b]).1.sid;
            && IsNewborn(s, events[b], m) && sid in states[j].table.sessions
            && SR.RunAll(s, es) == SR.Run(states[j].table.sessions[sid],
                                          AcceptedBy(states, events, sid, b, j), SealedBy(states, events, sid, b, j))
            && (NeverRecovered(states, events, sid, b + 1, j) ==> SR.NoRecovery(es))
    decreases j
  {
    hide AllAgree, Step, FreshDraws, ReachesHandshake, IsNewborn, Seals, Accepts, SR.Run.Step, SR.RunAll,
         NeverRecovered;
    var sid := Step(states[b], events[b]).1.sid;
    if j == b + 1 {
      m, s, es := FirstOfLife(states, events, b);
    } else {
      m, s, es := LifeIsRun(states, events, b, j - 1);
      es := OneMoreOfLife(states, events, sid, b, j - 1, s, es);
    }
  }

  lemma FirstOfLife(states: seq<State>, events: seq<Event>, b: nat)
      returns (m: Match, s: SessionState, es: seq<SR.Event>)
    requires IsRun(states, events) && states[0] == EmptyState && b < |events|
    requires Step(states[b], events[b]).1.Established?
    ensures var sid := Step(states[b], events[b]).1.sid;
            && IsNewborn(s, events[b], m) && sid in states[b + 1].table.sessions
            && SR.RunAll(s, es) == SR.Run(states[b + 1].table.sessions[sid],
                                          AcceptedBy(states, events, sid, b, b + 1),
                                          SealedBy(states, events, sid, b, b + 1))
            && SR.NoRecovery(es)
  {
    hide AllAgree, Step, FreshDraws, ReachesHandshake, IsNewborn, Seals, Accepts, SR.Run.Step, SR.RunAll;
    var sid := Step(states[b], events[b]).1.sid;
    BasicAt(states, events, b);
    m, s, es := BirthIsRun(states[b], events[b]);
    SR.RunAllExtends(s, es);
    assert SealedBy(states, events, sid, b, b) == [] && AcceptedBy(states, events, sid, b, b) == [];
  }

  lemma OneMoreOfLife(states: seq<State>, events: seq<Event>, sid: Sid, b: nat, j: nat, s: SessionState,
                      before: seq<SR.Event>)
      returns (es: seq<SR.Event>)
    requires IsRun(states, events) && states[0] == EmptyState && b < j < |events|
    requires sid in states[j].table.sessions && sid in states[j + 1].table.sessions
    requires SR.RunAll(s, before) == SR.Run(states[j].table.sessions[sid],
                                            AcceptedBy(states, events, sid, b, j), SealedBy(states, events, sid, b, j))
    requires NeverRecovered(states, events, sid, b + 1, j) ==> SR.NoRecovery(before)
    ensures SR.RunAll(s, es) == SR.Run(states[j + 1].table.sessions[sid],
                                       AcceptedBy(states, events, sid, b, j + 1),
                                       SealedBy(states, events, sid, b, j + 1))
    ensures NeverRecovered(states, events, sid, b + 1, j + 1) ==> SR.NoRecovery(es)
  {
    hide AllAgree, Step, FreshDraws, ReachesHandshake, Seals, Accepts, SR.Run.Step, SR.RunAll;
    BasicAt(states, events, j);
    assert states[j + 1] == Step(states[j], events[j]).0;
    var more := StepIsRun(states[j], events[j], sid);
    SR.RunAllExtends(s, before);
    SR.RunAllExtends(s, before + more);
    SR.ExtendTwice(Begin(s), before, more);
    SR.LogsCollect(SR.RunAll(s, before), more);
    es := before + more;
    assert NeverRecovered(states, events, sid, b + 1, j + 1) ==> NeverRecovered(states, events, sid, b + 1, j);
  }

  /** So what holds of every session run holds of every session of the server: in one life no
      counter is sealed twice with one key. */
  lemma NoncesOfOneLife(states: seq<State>, events: seq<Event>, b: nat, j: nat)
    requires IsRun(states, events) && states[0] == EmptyState && b < j <= |events|
    requires Step(states[b], events[b]).1.Established?
    requires LiveThrough(states, Step(states[b], events[b]).1.sid, b + 1, j)
    ensures NoRepeats(SealedBy(states, events, Step(states[b], events[b]).1.sid, b, j))
  {
    hide Step, Fresh, IsNewborn, WindowExact, SR.RunAll;
    var m, s, es := LifeIsRun(states, events, b, j);
    NewbornIsExact(s, events[b], m);
    SR.NoncesNeverRepeat(s, es);
  }

  /** And in one life, recoveries included, a tag that validates names a counter the current key
      never accepted, or one at least 256 behind the highest. */
  lemma ReplaysOfOneLife(states: seq<State>, events: seq<Event>, b: nat, j: nat, tag: Tag, now: nat)
    requires IsRun(states, events) && states[0] == EmptyState && b < j <= |events|
    requires Step(states[b], events[b]).1.Established?
    requires var sid := Step(states[b], events[b]).1.sid;
             && LiveThrough(states, sid, b + 1, j)
             && states[j].table.sessions[sid].ValidateTag(tag, now).Some?
    ensures var sid := Step(states[b], events[b]).1.sid;
            var (s, accepted) := (states[j].table.sessions[sid], AcceptedBy(states, events, sid, b, j));
            var (c, ratcheted) := s.ValidateTag(tag, now).value;
            if ratcheted then s.ratchetedKeys.Some? && (s.ratchetedKeys.value.sessionKey, c) !in accepted
            else (s.keys.sessionKey, c) in accepted ==> s.counter - c >= 256
  {
    hide Step, Fresh, IsNewborn, WindowExact, SR.RunAll, SessionState.ValidateTag;
    var m, s, es := LifeIsRun(states, events, b, j);
    NewbornIsExact(s, events[b], m);
    SR.NoReplayNearHighest(s, es, tag, now);
  }

  /** In one life without recovery the bitmap means exactly what the server accepted: bit d, that
      the counter d behind the highest was accepted under the current key. */
  lemma BitmapOfOneLife(states: seq<State>, events: seq<Event>, b: nat, j: nat)
    requires IsRun(states, events) && states[0] == EmptyState && b < j <= |events|
    requires Step(states[b], events[b]).1.Established?
    requires var sid := Step(states[b], events[b]).1.sid;
             LiveThrough(states, sid, b + 1, j) && NeverRecovered(states, events, sid, b + 1, j)
    ensures var sid := Step(states[b], events[b]).1.sid;
            var (s, accepted) := (states[j].table.sessions[sid], AcceptedBy(states, events, sid, b, j));
            SR.BitsName(s.bits, s.counter, SR.Counters(accepted, s.keys.sessionKey))
  {
    hide Step, FreshDraws, ReachesHandshake, IsNewborn, WindowExact, SR.RunAll, SR.BitsName, NeverRecovered;
    var m, s, es := LifeIsRun(states, events, b, j);
    NewbornIsExact(s, events[b], m);
    SR.BitmapOverRuns(s, es);
  }

  /** A session accepts a counter a second time under one key only if the counter is at least 256
      behind its highest, or by a recovery of the highest counter itself. */
  lemma AcceptedAgainInLife(states: seq<State>, events: seq<Event>, b: nat, j: nat)
    requires IsRun(states, events) && states[0] == EmptyState && b < j < |events|
    requires Step(states[b], events[b]).1.Established? && Accepts(states[j], events[j]).Some?
    requires var (sid, k, c) := Accepts(states[j], events[j]).value;
             && sid == Step(states[b], events[b]).1.sid && LiveThrough(states, sid, b + 1, j)
             && (k, c) in AcceptedBy(states, events, sid, b, j)
    ensures var (sid, k, c) := Accepts(states[j], events[j]).value;
            && sid in states[j].table.sessions && k == states[j].table.sessions[sid].keys.sessionKey
            && TakenAgain(states[j].table.sessions[sid], c, Step(states[j], events[j]).1, sid)
  {
    hide FreshDraws, ReachesHandshake, Step, Accepts, IsNewborn, WindowExact, SR.RunAll, TakenAgain;
    var m, s, es := LifeIsRun(states, events, b, j);
    NewbornIsExact(s, events[b], m);
    if Step(states[j], events[j]).1.Established? {
      BasicAt(states, events, j);
      OpeningIsNew(states[j], events[j]);
    } else {
      AcceptedAgainInStep(states[j], events[j], s, es);
    }
  }

  /** What a step accepts when it opens a session is for that new session. */
  lemma OpeningIsNew(g: State, e: Event)
    requires AllAgree(g.table, Basic) && Fresh(g, e) && Step(g, e).1.Established? && Accepts(g, e).Some?
    ensures Accepts(g, e).value.0 !in g.table.sessions
  {
    hide FreshDraws, ReachesHandshake, HandlePacket, Resolve, IsNewborn, SessionState.Accept, SessionState.ValidateTag;
    HandleResolves(g, e.cfg, e.env, e.from, e.d);
    var m, s, es := BirthIsRun(g, e);
  }

  /** One step, for a session that came here by the run `es` from its newborn state. */
  lemma AcceptedAgainInStep(g: State, e: Event, s: SessionState, es: seq<SR.Event>)
    requires Fresh(g, e) && Accepts(g, e).Some? && !Step(g, e).1.Established?
    requires WindowExact(s) && s.bits == {}
    requires var (sid, k, c) := Accepts(g, e).value;
             && sid in g.table.sessions && SR.RunAll(s, es).s == g.table.sessions[sid]
             && (k, c) in SR.RunAll(s, es).accepted
    ensures var (sid, k, c) := Accepts(g, e).value;
            && k == g.table.sessions[sid].keys.sessionKey
            && TakenAgain(g.table.sessions[sid], c, Step(g, e).1, sid)
  {
    hide FreshDraws, ReachesHandshake, HandlePacket, Resolve, WindowExact, SR.Run.Step, SR.RunAll,
         SR.Run.Recoverable, SessionState.ValidateTag, SessionState.Accept, SessionState.Recover;
    HandleResolves(g, e.cfg, e.env, e.from, e.d);
    var r := Resolve(g, e.cfg, e.env, e.from, e.d);
    var more := FoundIsRun(g, e.cfg, e.env, e.from, e.d);
    RunOn(s, es, more);
    var now := SR.RunAll(s, es + more);
    SR.WindowExactOverRuns(s, es + more);
    if Step(g, e).1 == Recovered(r.sid) {
      RecoverKeepsWindow(now.s, r.c, e.env.tw);
      RecoverKeepsKeys(now.s, r.c, e.env.tw);
      AcceptedKey(r.t.sessions[r.sid], e.d, r.c, false, e.from, e.env.tw);
      RecoveredAgain(s, es + more, e.d.tag, e.env.tw);
    } else {
      SR.NoReplayNearHighest(s, es + more, e.d.tag, e.env.tw);
      AcceptedKey(now.s, e.d, r.c, r.ratcheted, e.from, e.env.tw);
    }
  }

  lemma RecoverKeepsKeys(s: SessionState, c: nat, tw: nat)
    ensures s.Recover(c, tw).keys == s.keys
  {
    hide TagsFor;
  }

  /** A run goes on with events that log nothing. */
  lemma RunOn(s: SessionState, es: seq<SR.Event>, more: seq<SR.Event>)
    requires var x := SR.Extend(Begin(SR.RunAll(s, es).s), more); x == Begin(x.s)
    ensures SR.RunAll(s, es + more).s == SR.Extend(Begin(SR.RunAll(s, es).s), more).s
    ensures SR.RunAll(s, es + more).accepted == SR.RunAll(s, es).accepted
  {
    hide SR.RunAll, SR.Extend;
    SR.RunAllExtends(s, es);
    SR.RunAllExtends(s, es + more);
    SR.ExtendTwice(Begin(s), es, more);
    SR.LogsCollect(SR.RunAll(s, es), more);
    assert SR.RunAll(s, es).accepted + [] == SR.RunAll(s, es).accepted;
  }

  /** How an accepted counter may be taken again by session `s` on this path. */
  predicate TakenAgain(s: SessionState, c: nat, path: Path, sid: Sid) {
    s.counter - c >= 256 || (path == Recovered(sid) && c == s.counter)
  }

  lemma RecoveredAgain(s: SessionState, es: seq<SR.Event>, tag: Tag, tw: nat)
    requires WindowExact(s) && s.bits == {} && Begin(SR.RunAll(s, es).s).Recoverable(tag, tw)
    requires (SR.RunAll(s, es).s.keys.sessionKey, tag.counter) in SR.RunAll(s, es).accepted
    ensures tag.counter == SR.RunAll(s, es).s.counter
  {
    hide SR.RunAll, WindowExact;
    SR.RecoveryTakesExactly(s, es, tag, tw);
  }

  lemma AcceptedKey(s: SessionState, d: Datagram, c: nat, ratcheted: bool, from: Addr, tw: nat)
    requires WindowExact(s) && s.Accept(d, c, ratcheted, false, from, tw).1
    ensures var k := s.Accept(d, c, ratcheted, false, from, tw).0.keys.sessionKey;
            if ratcheted then s.ratchetedKeys.Some? && k == s.ratchetedKeys.value.sessionKey else k == s.keys.sessionKey
  {
    AcceptAndKeys(s, d, c, ratcheted, false, from, tw);
  }

  // ---- The highest counter, once more through recovery -----------------------------------

  /** A refreshed session does not take a counter it has received. */
  lemma ReceivedFails(s: SessionState, tag: Tag, tw: nat)
    requires WindowExact(s) && tag.secret == s.keys.tagSecret && s.IsReplay(tag.counter)
    ensures s.Refreshed(tw).ValidateTag(tag, tw) == None
  {
    RefreshedTags(s, tw);
    SR.NotRatcheted(s, tag);
  }

  lemma {:induction false} ReceivedIsNotFound(t: Table, order: seq<Sid>, sid: Sid, tag: Tag, tw: nat)
    requires Inv(t, Basic) && sid in t.sessions && SoleHolder(t, sid, tag.secret)
    requires tag.secret == t.sessions[sid].keys.tagSecret && t.sessions[sid].IsReplay(tag.counter)
    ensures RefreshAndFind(t, order, tag, tw).1 == None
    decreases |order|
  {
    hide Inv, SoleHolder, SameButIndex, RefreshOne, SessionState.ValidateTag, SessionState.Refreshed;
    if order != [] {
      var first := order[0];
      OneRefreshed(t, first, tw);
      if first == sid {
        WindowIn(t, Basic, sid);
        ReceivedFails(t.sessions[sid], tag, tw);
      } else if first in t.sessions {
        OtherSession(t, sid, first, tag, tw);
      }
      RefreshOneIsQuiet(t, first, tw);
      StaysSole(t, RefreshOne(t, first, tw), sid, tag.secret);
      QuietKeepsReplay(t, RefreshOne(t, first, tw), sid, tag);
      RefreshOneKeeps(t, Basic, first, tw);
      ReceivedIsNotFound(RefreshOne(t, first, tw), order[1..], sid, tag, tw);
    }
  }

  lemma QuietKeepsReplay(t: Table, t': Table, sid: Sid, tag: Tag)
    requires SameButIndex(t, t') && sid in t.sessions
    ensures sid in t'.sessions && SameButTags(t.sessions[sid], t'.sessions[sid])
    ensures t'.sessions[sid].keys == t.sessions[sid].keys
    ensures t'.sessions[sid].IsReplay(tag.counter) == t.sessions[sid].IsReplay(tag.counter)
  {}

  /** Only the session whose key gives the tag is recovered by it. */
  lemma RecoversHolder(t: Table, order: seq<Sid>, sid: Sid, tag: Tag, ip: Ip, tw: nat)
    requires sid in t.sessions && sid in order && SoleHolder(t, sid, tag.secret)
    requires Recoverable(ip, tag, tw).Matches(t.sessions[sid])
    ensures RecoverByTag(t, order, tag, ip, tw).1 == Some((sid, tag.counter, false))
  {
    FindSpec(order, t, Recoverable(ip, tag, tw));
  }

  /** A datagram that carries the highest counter a session has received, from its client's address,
      once its tag has left the index while its time window is still near: no session takes it, but
      recovery finds it, and it is accepted again. */
  lemma HighestTakenAgain(g: State, cfg: Config, env: Env, from: Addr, d: Datagram, sid: Sid)
    requires AllAgree(g.table, Basic) && EnoughDraws(cfg, env) && d.size >= TAG_SIZE + 2
    requires Covers(env.recoverOrder, g.table) && sid in g.table.sessions
    requires SoleHolder(g.table, sid, d.tag.secret) && d.tag !in g.table.tagMap && NearWindow(env.tw, d.tag.window)
    requires var s := g.table.sessions[sid];
             && d.tag.secret == s.keys.tagSecret && d.tag.counter == s.counter && 0 in s.bits && s.addr.ip == from.ip
             && s.Opens(d, s.counter, false, false) && d.sealed.plain.Plain?
    ensures HandlePacket(g, cfg, env, from, d).1 == Recovered(sid)
    ensures Accepts(g, Packet(cfg, env, from, d))
         == Some((sid, g.table.sessions[sid].keys.sessionKey, g.table.sessions[sid].counter))
  {
    hide Inv, IpInverse, SoleHolder, RefreshAndFind, RecoverByTag, Finish, ResolveHandshake, Handshake, Covers,
         SameButIndex, SessionState.Opens, SessionState.Recover;
    ReceivedIsNotFound(g.table, env.refreshOrder, sid, d.tag, env.tw);
    LookupIsQuiet(g.table, env.refreshOrder, d.tag, env.tw);
    var t1 := Lookup(g.table, env.refreshOrder, d.tag, env.tw).0;
    QuietKeepsReplay(g.table, t1, sid, d.tag);
    StaysSole(g.table, t1, sid, d.tag.secret);
    CoversHas(g.table, env.recoverOrder, sid);
    RecoversHolder(t1, env.recoverOrder, sid, d.tag, from.ip, env.tw);
    RecoveredTable(t1, env.recoverOrder, d, from, env.tw);
    OpensAlike(g.table.sessions[sid], t1.sessions[sid].Recover(d.tag.counter, env.tw), d, from, env.tw) by {
      RecoverIsQuiet(g.table.sessions[sid], t1.sessions[sid], env.tw);
    }
  }

  lemma CoversHas(t: Table, order: seq<Sid>, sid: Sid)
    requires Covers(order, t) && sid in t.sessions
    ensures sid in order
  {}

  lemma RecoverIsQuiet(s: SessionState, s': SessionState, tw: nat)
    requires SameButTags(s, s')
    ensures var r := s'.Recover(s.counter, tw); r.keys == s.keys && r.isRatcheted == s.isRatcheted
  {
    hide TagsFor;
  }

  /** Opening depends on keys and epoch only. */
  lemma OpensAlike(s: SessionState, s': SessionState, d: Datagram, from: Addr, tw: nat)
    requires s'.keys == s.keys && s'.isRatcheted == s.isRatcheted
    requires s.Opens(d, d.tag.counter, false, false) && d.sealed.plain.Plain?
    ensures var (r, ok) := s'.Accept(d, d.tag.counter, false, false, from, tw); ok && r.keys == s.keys
  {
    hide SessionState.Receive;
    ReceiveIsMark(s', d.tag.counter, false, from, tw);
  }
}
