/** Whole packets: the lookup finds what it should, and every run keeps the maps in agreement. */
module PacketRuns {
  import opened Wrappers
  import opened Crypto
  import opened Datagram
  import opened Session
  import opened SessionTable
  import opened TableInvariants
  import opened AddressMap
  import opened Gateway
  import opened GatewayInvariants

  // ---- Refreshing changes tags only -----------------------------------------------------

  /** Two states of a session that differ at most in their precomputed tags. */
  predicate SameButTags(s: SessionState, s': SessionState) {
    s' == s.(expectedTags := s'.expectedTags, windowBase := s'.windowBase, ratchetedTags := s'.ratchetedTags)
  }

  ghost predicate SameButIndex(t: Table, t': Table) {
    && t'.sessions.Keys == t.sessions.Keys && t'.vpnIpMap == t.vpnIpMap && t'.nextOctet == t.nextOctet
    && (forall sid :: sid in t.sessions ==> SameButTags(t.sessions[sid], t'.sessions[sid]))
  }

  lemma RefreshOneIsQuiet(t: Table, sid: Sid, tw: nat)
    ensures SameButIndex(t, RefreshOne(t, sid, tw))
  {}

  lemma OneRefreshed(t: Table, sid: Sid, tw: nat)
    ensures RefreshOne(t, sid, tw).sessions
         == if sid in t.sessions then t.sessions[sid := t.sessions[sid].Refreshed(tw)] else t.sessions
  {
    hide SessionState.UpdateTagWindow, SessionState.UpdateRatchetedTagWindow;
  }

  /** A refresh that finds nothing has refreshed every session in its order, and none of them takes
      the tag. */
  lemma {:induction false} RefreshMisses(t: Table, order: seq<Sid>, tag: Tag, tw: nat, sid: Sid)
    requires RefreshAndFind(t, order, tag, tw).1.None? && sid in t.sessions
    ensures var t' := RefreshAndFind(t, order, tag, tw).0;
            && sid in t'.sessions
            && t'.sessions[sid] in {t.sessions[sid], t.sessions[sid].Refreshed(tw)}
            && (sid in order ==>
                  && t'.sessions[sid] == t.sessions[sid].Refreshed(tw)
                  && t.sessions[sid].Refreshed(tw).ValidateTag(tag, tw).None?)
    decreases |order|
  {
    hide RefreshOne, SessionState.Refreshed, SessionState.ValidateTag;
    if order != [] {
      OneRefreshed(t, order[0], tw);
      RefreshTwice(t.sessions[sid], tw);
      RefreshMisses(RefreshOne(t, order[0], tw), order[1..], tag, tw, sid);
    }
  }

  lemma QuietTwice(t: Table, t1: Table, t2: Table)
    requires SameButIndex(t, t1) && SameButIndex(t1, t2)
    ensures SameButIndex(t, t2)
  {}

  lemma {:induction false} RefreshIsQuiet(t: Table, order: seq<Sid>, tag: Tag, tw: nat)
    ensures SameButIndex(t, RefreshAndFind(t, order, tag, tw).0)
    decreases |order|
  {
    if order != [] {
      hide SameButIndex, RefreshOne;
      var t1 := RefreshOne(t, order[0], tw);
      RefreshOneIsQuiet(t, order[0], tw);
      RefreshIsQuiet(t1, order[1..], tag, tw);
      QuietTwice(t, t1, RefreshAndFind(t1, order[1..], tag, tw).0);
    } else {
      assert SameButIndex(t, t);
    }
  }

  lemma QuietKeepsInverse(t: Table, t': Table)
    requires IpInverse(t) && SameButIndex(t, t')
    ensures IpInverse(t')
  {}

  lemma QuietKeepsFresh(t: Table, t': Table, env: Env)
    requires SameButIndex(t, t') && FreshDraws(t, env)
    ensures FreshDraws(t', env)
  {
    CoversSame(t, t', env.cleanupOrder);
    forall i | 0 <= i < |env.draws|
      ensures FreshDraw(t', env.draws[i])
    {
      FreshInSame(t, t', env.draws[i]);
    }
  }

  // ---- The lookup is complete ---------------------------------------------------------------

  lemma GenuineSecret(s: SessionState, tag: Tag, ratcheted: bool, tw: nat)
    requires Genuine(s, tag, ratcheted, tw)
    ensures tag.secret in Secrets(s)
  {}

  /** A genuine tag validates too when it is among the precomputed ones, whenever they were computed. */
  lemma IndexedValidates(s: SessionState, tag: Tag, ratcheted: bool, tw: nat)
    requires WindowExact(s) && Genuine(s, tag, ratcheted, tw) && tag in OwnTags(s)
    ensures s.ValidateTag(tag, tw) == Some((tag.counter, ratcheted))
  {
    TagSecrets(s);
  }

  lemma ForeignTagFails(s: SessionState, tag: Tag, tw: nat)
    requires WindowExact(s) && tag.secret !in Secrets(s)
    ensures s.ValidateTag(tag, tw) == None
  {
    TagSecrets(s);
    assert Holds(s.expectedTags, tag) ==> tag in s.expectedTags.Values;
    assert Holds(s.ratchetedTags, tag) ==> tag in s.ratchetedTags.Values;
  }

  /** No other live session holds the secret. */
  ghost predicate SoleHolder(t: Table, sid: Sid, secret: Key) {
    forall other :: other in t.sessions && other != sid ==> secret !in Secrets(t.sessions[other])
  }

  /** Between sessions that share no secret, each is the sole holder of its own. */
  lemma ApartMeansSole(t: Table, sid: Sid, secret: Key)
    requires SecretsApart(t) && sid in t.sessions && secret in Secrets(t.sessions[sid])
    ensures SoleHolder(t, sid, secret)
  {
    hide Secrets;
  }

  lemma OwnerOfSecret(t: Table, sid: Sid, tag: Tag)
    requires Inv(t, Basic) && sid in t.sessions && SoleHolder(t, sid, tag.secret) && tag in t.tagMap
    ensures t.tagMap[tag] == sid && tag in OwnTags(t.sessions[sid])
  {
    hide OwnTags, Secrets, WindowExact;
    var owner := t.tagMap[tag];
    assert owner in Owned(t) && tag in Owned(t)[owner];
    OwnSecrets(t.sessions[owner]);
  }

  lemma OtherSession(t: Table, sid: Sid, other: Sid, tag: Tag, tw: nat)
    requires Inv(t, Basic) && sid in t.sessions && other in t.sessions && other != sid
    requires SoleHolder(t, sid, tag.secret)
    ensures RefreshOne(t, other, tw).sessions[other].ValidateTag(tag, tw) == None
    ensures RefreshOne(t, other, tw).sessions[sid] == t.sessions[sid]
  {
    var s := t.sessions[other];
    WindowIn(t, Basic, other);
    RefreshedIsExact(s, tw);
    OneRefreshed(t, other, tw);
    hide Inv, WindowExact, SessionState.ValidateTag, RefreshOne;
    ForeignTagFails(s.Refreshed(tw), tag, tw);
  }

  lemma StaysSole(t: Table, t': Table, sid: Sid, secret: Key)
    requires SoleHolder(t, sid, secret) && SameButIndex(t, t')
    ensures SoleHolder(t', sid, secret)
  {
    forall other | other in t'.sessions && other != sid
      ensures secret !in Secrets(t'.sessions[other])
    {
      assert SameButTags(t.sessions[other], t'.sessions[other]);
    }
  }

  lemma {:induction false} RefreshFinds(t: Table, order: seq<Sid>, sid: Sid, tag: Tag, ratcheted: bool, tw: nat)
    requires Inv(t, Basic) && sid in t.sessions && sid in order && SoleHolder(t, sid, tag.secret)
    requires Genuine(t.sessions[sid], tag, ratcheted, tw)
    ensures RefreshAndFind(t, order, tag, tw).1 == Some((sid, tag.counter, ratcheted))
    decreases |order|
  {
    hide Inv, Genuine, Secrets, SoleHolder, SameButIndex;
    var first := order[0];
    WindowIn(t, Basic, sid);
    if first == sid {
      RefreshedValidates(t.sessions[sid], tag, ratcheted, tw);
    } else {
      if first in t.sessions {
        OtherSession(t, sid, first, tag, tw);
      }
      RefreshOneIsQuiet(t, first, tw);
      StaysSole(t, RefreshOne(t, first, tw), sid, tag.secret);
      RefreshOneKeeps(t, Basic, first, tw);
      RefreshFinds(RefreshOne(t, first, tw), order[1..], sid, tag, ratcheted, tw);
    }
  }

  /** Every genuine tag of a live session, under a secret no other live session holds, leads to
      that session, that counter and the right key epoch, through the index or else through the
      refresh of all sessions in any order. */
  lemma LookupFindsGenuine(t: Table, order: seq<Sid>, sid: Sid, tag: Tag, ratcheted: bool, tw: nat)
    requires Inv(t, Basic) && sid in t.sessions && Covers(order, t) && SoleHolder(t, sid, tag.secret)
    requires Genuine(t.sessions[sid], tag, ratcheted, tw)
    ensures Lookup(t, order, tag, tw).1 == Some((sid, tag.counter, ratcheted))
  {
    hide Inv, Genuine, SoleHolder, Secrets, RefreshAndFind;
    WindowIn(t, Basic, sid);
    if tag in t.tagMap {
      OwnerOfSecret(t, sid, tag);
      IndexedValidates(t.sessions[sid], tag, ratcheted, tw);
    } else {
      RefreshFinds(t, order, sid, tag, ratcheted, tw);
    }
  }

  // ---- Every packet keeps every invariant ---------------------------------------------------

  /** Whether this packet took the recovery path of a session that had not ratcheted. */
  predicate EarlyRecovery(t: Table, path: Path) {
    path.Recovered? && path.sid in t.sessions && !t.sessions[path.sid].isRatcheted
  }

  lemma RefreshIsOk(t: Table, level: Level, order: seq<Sid>, tag: Tag, tw: nat)
    requires AllAgree(t, level)
    ensures AllAgree(RefreshAndFind(t, order, tag, tw).0, level)
  {
    hide Inv, IpInverse, SameButIndex, RefreshAndFind;
    RefreshAndFindKeeps(t, level, order, tag, tw);
    RefreshIsQuiet(t, order, tag, tw);
    QuietKeepsInverse(t, RefreshAndFind(t, order, tag, tw).0);
  }

  lemma LookupIsOk(t: Table, level: Level, order: seq<Sid>, tag: Tag, tw: nat)
    requires AllAgree(t, level)
    ensures var t' := Lookup(t, order, tag, tw).0; AllAgree(t', level) && SameButIndex(t, t')
  {
    hide AllAgree, RefreshAndFind;
    RefreshIsOk(t, level, order, tag, tw);
    RefreshIsQuiet(t, order, tag, tw);
  }

  lemma RecoveryIsOk(t: Table, level: Level, order: seq<Sid>, tag: Tag, ip: Ip, tw: nat)
    requires AllAgree(t, level)
    ensures var (t', found) := RecoverByTag(t, order, tag, ip, tw);
            && (found.None? ==> t' == t)
            && (found.Some? ==>
                  && found.value.0 in t.sessions && found.value.0 in t'.sessions
                  && AllAgree(t', if t.sessions[found.value.0].isRatcheted then level else Lowered(level)))
  {
    hide WindowExact, WindowsExact, SecretsApart, NoStale, NoMissing, Owned, Wanted.Matches;
    var (t', found) := RecoverByTag(t, order, tag, ip, tw);
    RecoveryKeepsNoStale(t, level, order, tag, ip, tw);
    if found.Some? {
      SameIpsKeepInverse(t, t');
    }
  }

  /** The table the handshake sees: after the lookup refreshed every session. */
  function AfterLookup(g: State, env: Env, d: Datagram): State {
    g.(table := Lookup(g.table, env.refreshOrder, d.tag, env.tw).0)
  }

  /** The datagram belongs to no session, so that a handshake is attempted. */
  predicate ReachesHandshake(g: State, env: Env, from: Addr, d: Datagram) {
    var (t1, found) := Lookup(g.table, env.refreshOrder, d.tag, env.tw);
    && d.size >= TAG_SIZE + 2 && GetByTag(g.table, d.tag).None? && found.None?
    && RecoverByTag(t1, env.recoverOrder, d.tag, from.ip, env.tw).1.None? && Attempts(g, env, from, d)
  }

  /** A packet found nowhere is the handshake on the refreshed table. */
  lemma HandsOver(g: State, cfg: Config, env: Env, from: Addr, d: Datagram)
    requires EnoughDraws(cfg, env) && d.size >= TAG_SIZE + 2 && GetByTag(g.table, d.tag).None?
    requires var (t1, found) := Lookup(g.table, env.refreshOrder, d.tag, env.tw);
             found.None? && RecoverByTag(t1, env.recoverOrder, d.tag, from.ip, env.tw).1.None?
    ensures HandlePacket(g, cfg, env, from, d) == Handshake(AfterLookup(g, env, d), cfg, env, from, d)
    ensures Attempts(AfterLookup(g, env, d), env, from, d) == Attempts(g, env, from, d)
    ensures ReachesHandshake(g, env, from, d) == Attempts(g, env, from, d)
  {
    hide Lookup, Handshake, Find;
  }

  /** The handshake rolls back an attempt one of whose tags was in the index. */
  ghost predicate Clashes(g: State, cfg: Config, env: Env, from: Addr, d: Datagram)
    requires EnoughDraws(cfg, env)
  {
    && ReachesHandshake(g, env, from, d)
    && var g1 := AfterLookup(g, env, d); !(g1.table.tagMap.Keys !! Lost(g1, cfg, env, from, d))
  }

  /** The handshake opens a session with a secret that a live session has. */
  ghost predicate Doubles(g: State, cfg: Config, env: Env, from: Addr, d: Datagram)
    requires EnoughDraws(cfg, env)
  {
    ReachesHandshake(g, env, from, d) && Shares(AfterLookup(g, env, d), cfg, env, from, d)
  }

  /** What is still known after a packet. */
  ghost function PacketLevel(level: Level, g: State, cfg: Config, env: Env, from: Addr, d: Datagram): Level
    requires EnoughDraws(cfg, env)
  {
    if Doubles(g, cfg, env, from, d) then Basic
    else if Clashes(g, cfg, env, from, d) then Lowered(level)
    else if EarlyRecovery(g.table, HandlePacket(g, cfg, env, from, d).1) then Lowered(level)
    else level
  }

  /** One whole packet, on whatever path: nothing becomes stale, windows stay exact and addresses
      agree.  The index loses its completeness at most by a recovery before the ratchet, by a
      clash of a failed attempt, or by a doubled secret; a rejected packet leaves a gap exactly
      when an attempt clashed. */
  lemma PacketKeeps(g: State, level: Level, cfg: Config, env: Env, from: Addr, d: Datagram)
    requires AllAgree(g.table, level) && EnoughDraws(cfg, env)
    requires ReachesHandshake(g, env, from, d) ==> FreshDraws(g.table, env)
    ensures var (g', path) := HandlePacket(g, cfg, env, from, d);
            && AllAgree(g'.table, PacketLevel(level, g, cfg, env, from, d))
            && (level == Full && path.Rejected? ==> (AllAgree(g'.table, Full) <==> !Clashes(g, cfg, env, from, d)))
  {
    hide AllAgree, FreshDraws, Finish, Lookup, RecoverByTag, Handshake, HandlePacket, PacketLevel, Clashes, Attempts;
    var t := g.table;
    LookupIsOk(t, level, env.refreshOrder, d.tag, env.tw);
    var (t1, found) := Lookup(t, env.refreshOrder, d.tag, env.tw);
    if d.size < TAG_SIZE + 2 || found.Some? || GetByTag(t, d.tag).Some? {
      FoundOrDropped(g, level, cfg, env, from, d);
    } else {
      RecoveryIsOk(t1, level, env.recoverOrder, d.tag, from.ip, env.tw);
      if RecoverByTag(t1, env.recoverOrder, d.tag, from.ip, env.tw).1.Some? {
        FoundByRecovery(g, level, cfg, env, from, d);
      } else {
        FallsThrough(g, level, cfg, env, from, d);
      }
    }
  }

  lemma FoundOrDropped(g: State, level: Level, cfg: Config, env: Env, from: Addr, d: Datagram)
    requires AllAgree(g.table, level) && AllAgree(Lookup(g.table, env.refreshOrder, d.tag, env.tw).0, level)
    requires EnoughDraws(cfg, env)
    requires d.size >= TAG_SIZE + 2 ==>
               Lookup(g.table, env.refreshOrder, d.tag, env.tw).1.Some? || GetByTag(g.table, d.tag).Some?
    ensures var (g', path) := HandlePacket(g, cfg, env, from, d);
            && AllAgree(g'.table, level) && PacketLevel(level, g, cfg, env, from, d) == level
            && !Clashes(g, cfg, env, from, d)
  {
    hide AllAgree, Finish, Lookup, RecoverByTag, Handshake, Lost, Shares, Attempts;
    var (t1, found) := Lookup(g.table, env.refreshOrder, d.tag, env.tw);
    if found.Some? && found.value.0 in t1.sessions {
      FinishKeeps(t1, level, found.value.0, found.value.1, found.value.2, false, env, from, d);
    }
  }

  lemma FoundByRecovery(g: State, level: Level, cfg: Config, env: Env, from: Addr, d: Datagram)
    requires EnoughDraws(cfg, env) && d.size >= TAG_SIZE + 2 && GetByTag(g.table, d.tag).None?
    requires var (t1, found) := Lookup(g.table, env.refreshOrder, d.tag, env.tw);
             && found.None? && SameButIndex(g.table, t1) && AllAgree(t1, level)
             && RecoverByTag(t1, env.recoverOrder, d.tag, from.ip, env.tw).1.Some?
    ensures var (g', path) := HandlePacket(g, cfg, env, from, d);
            && AllAgree(g'.table, PacketLevel(level, g, cfg, env, from, d))
            && path.Recovered? && !Clashes(g, cfg, env, from, d)
  {
    hide AllAgree, Finish, Lookup, RecoverByTag, Handshake, Lost, Shares, Attempts;
    var t1 := Lookup(g.table, env.refreshOrder, d.tag, env.tw).0;
    RecoveryIsOk(t1, level, env.recoverOrder, d.tag, from.ip, env.tw);
    var (t2, recovered) := RecoverByTag(t1, env.recoverOrder, d.tag, from.ip, env.tw);
    var (sid, c, ratcheted) := recovered.value;
    var kept := if t1.sessions[sid].isRatcheted then level else Lowered(level);
    FinishKeeps(t2, kept, sid, c, ratcheted, false, env, from, d);
  }

  lemma FallsThrough(g: State, level: Level, cfg: Config, env: Env, from: Addr, d: Datagram)
    requires AllAgree(g.table, level) && EnoughDraws(cfg, env)
    requires ReachesHandshake(g, env, from, d) ==> FreshDraws(g.table, env)
    requires var (t1, found) := Lookup(g.table, env.refreshOrder, d.tag, env.tw);
             && d.size >= TAG_SIZE + 2 && GetByTag(g.table, d.tag).None? && found.None?
             && RecoverByTag(t1, env.recoverOrder, d.tag, from.ip, env.tw) == (t1, None)
    ensures var (g', path) := HandlePacket(g, cfg, env, from, d);
            && AllAgree(g'.table, PacketLevel(level, g, cfg, env, from, d))
            && (level == Full && path.Rejected? ==> (AllAgree(g'.table, Full) <==> !Clashes(g, cfg, env, from, d)))
  {
    hide AllAgree, FreshDraws, Lookup, RecoverByTag, Handshake, FailedTags, Attempt, FreshSecrets;
    LookupIsOk(g.table, level, env.refreshOrder, d.tag, env.tw);
    var g1 := AfterLookup(g, env, d);
    assert Attempts(g1, env, from, d) == Attempts(g, env, from, d);
    if Attempts(g, env, from, d) {
      QuietKeepsFresh(g.table, g1.table, env);
    }
    HandshakeOutcome(g1, level, cfg, env, from, d);
  }

  // ---- Every run --------------------------------------------------------------------------------

  /** What happens to the table between packets: sessions expire, packets from the tunnel are sent
      to the session holding the destination address, and a session is sent a new mask. */
  datatype Event =
    | Packet(cfg: Config, env: Env, from: Addr, d: Datagram)
    | Expire(sid: Sid)
    | FromTunnel(ip: Ip)
    | MaskUpdate(sid: Sid)

  /** The session a packet of the server's own goes to. */
  function Addressee(g: State, e: Event): Option<Sid> {
    match e
    case FromTunnel(ip) => GetByVpnIp(g.table, ip)
    case MaskUpdate(sid) => if sid in g.table.sessions then Some(sid) else None
    case _ => None
  }

  function Step(g: State, e: Event): (State, Path)
    requires e.Packet? ==> EnoughDraws(e.cfg, e.env)
  {
    match e
    case Packet(cfg, env, from, d) => HandlePacket(g, cfg, env, from, d)
    case Expire(sid) => (g.(table := Remove(g.table, sid)), Rejected)
    case _ =>
      var sid := Addressee(g, e);
      if sid.None? then (g, Rejected)
      else (g.(table := SetSession(g.table, sid.value, g.table.sessions[sid.value].NextSend())), Rejected)
  }

  /** The ids drawn in a step are unused there, and iteration covers the sessions. */
  ghost predicate Fresh(g: State, e: Event) {
    e.Packet? ==>
      && EnoughDraws(e.cfg, e.env) && Covers(e.env.refreshOrder, g.table)
      && (ReachesHandshake(g, e.env, e.from, e.d) ==> FreshDraws(g.table, e.env))
  }

  ghost predicate IsRun(states: seq<State>, events: seq<Event>) {
    && |states| == |events| + 1
    && (forall i :: 0 <= i < |events| ==> Fresh(states[i], events[i]) && states[i + 1] == Step(states[i], events[i]).0)
  }

  ghost predicate StepDoubles(g: State, e: Event)
    requires Fresh(g, e)
  {
    e.Packet? && Doubles(g, e.cfg, e.env, e.from, e.d)
  }

  /** A step that may cost the index its completeness. */
  ghost predicate StepGaps(g: State, e: Event)
    requires Fresh(g, e)
  {
    e.Packet? && (Clashes(g, e.cfg, e.env, e.from, e.d)
                  || EarlyRecovery(g.table, HandlePacket(g, e.cfg, e.env, e.from, e.d).1))
  }

  ghost predicate NeverDoubles(states: seq<State>, events: seq<Event>)
    requires IsRun(states, events)
  {
    forall i :: 0 <= i < |events| ==> !StepDoubles(states[i], events[i])
  }

  ghost predicate NeverGaps(states: seq<State>, events: seq<Event>)
    requires IsRun(states, events)
  {
    forall i :: 0 <= i < |events| ==> !StepGaps(states[i], events[i])
  }

  const EmptyState: State := State(Table(map[], map[], map[], 2), map[])

  lemma EmptyIsOk(level: Level)
    ensures AllAgree(EmptyState.table, level)
  {}

  /** Recovery does leave a gap: with one new session at the server, its client's counter 300 is
      recovered and the session's tags for the next keys are gone from the index. */
  lemma RecoveryGapHappens(id: Identity, draw: Draw, from: Addr, eph: Pub, psk: Option<Key>, tw: nat, sid: Sid)
    requires Build(id, draw, from, eph, psk, tw).Some?
    ensures var s := Build(id, draw, from, eph, psk, tw).value;
            var t := Insert(EmptyState.table, sid, s, (None, 2));
            var (t', found) := RecoverByTag(t, [sid], Tag(s.keys.tagSecret, 300, tw), from.ip, tw);
            && IndexAgrees(t) && found == Some((sid, 300, false))
            && NoStale(t'.tagMap, Owned(t')) && !NoMissing(t'.tagMap, Owned(t'))
  {
    hide WindowExact, Build, OwnTags, Insert, RecoverByTag;
    var s := BuiltSession(id, draw, from, eph, psk, tw);
    var t := Insert(EmptyState.table, sid, s, (None, 2));
    EmptyIsOk(Full);
    InsertKeeps(EmptyState.table, Full, sid, s, (None, 2));
    InsertedHas(EmptyState.table, sid, s, (None, 2));
    BuiltIsUnswitched(id, draw, from, eph, psk, tw);
    RecoveredAlone(t, sid, from, tw);
    RecoveryKeepsNoStale(t, Full, [sid], Tag(s.keys.tagSecret, 300, tw), from.ip, tw);
  }

  lemma RecoveredAlone(t: Table, sid: Sid, from: Addr, tw: nat)
    requires sid in t.sessions && t.sessions[sid].counter == 0 && t.sessions[sid].addr == from
    ensures RecoverByTag(t, [sid], Tag(t.sessions[sid].keys.tagSecret, 300, tw), from.ip, tw).1
         == Some((sid, 300, false))
  {
    hide SessionState.Recover, Without, Assign;
  }

  lemma BuiltIsUnswitched(id: Identity, draw: Draw, from: Addr, eph: Pub, psk: Option<Key>, tw: nat)
    requires Build(id, draw, from, eph, psk, tw).Some?
    ensures var s := Build(id, draw, from, eph, psk, tw).value; !s.isRatcheted && s.counter == 0 && s.addr == from
  {}

  lemma StepKeeps(g: State, level: Level, e: Event)
    requires AllAgree(g.table, level) && Fresh(g, e)
    requires level != Basic ==> !StepDoubles(g, e)
    requires level == Full ==> !StepGaps(g, e)
    ensures AllAgree(Step(g, e).0.table, level)
  {
    hide AllAgree, FreshDraws, HandlePacket, Remove, Clashes, Doubles;
    match e
    case Packet(cfg, env, from, d) => PacketKeeps(g, level, cfg, env, from, d);
    case Expire(sid) => RemoveIsOk(g.table, level, sid);
    case _ =>
      var sid := Addressee(g, e);
      if sid.Some? {
        ReplyKeeps(g.table, level, sid.value, ControlMessage(TelemetryRequest));
      }
  }

  lemma {:induction false} RunKeeps(states: seq<State>, level: Level, events: seq<Event>)
    requires IsRun(states, events) && AllAgree(states[0].table, level)
    requires level != Basic ==> NeverDoubles(states, events)
    requires level == Full ==> NeverGaps(states, events)
    ensures AllAgree(states[|events|].table, level)
    decreases |events|
  {
    hide AllAgree, Step, Fresh, StepDoubles, StepGaps;
    if events != [] {
      var n := |events| - 1;
      RunPrefix(states, events, n);
      assert level != Basic ==> NeverDoubles(states[..n + 1], events[..n]);
      assert level == Full ==> NeverGaps(states[..n + 1], events[..n]);
      RunKeeps(states[..n + 1], level, events[..n]);
      StepKeeps(states[n], level, events[n]);
    }
  }

  lemma RunPrefix(states: seq<State>, events: seq<Event>, n: nat)
    requires IsRun(states, events) && n <= |events|
    ensures IsRun(states[..n + 1], events[..n])
  {
    hide Step, Fresh;
  }

  /** After every run from an empty server, nothing in the index is stale, every tag window is exact
      and the address map is the inverse of the sessions' addresses.  If no session was opened with
      a live session's secret, the sessions share no secret; and if besides no failed attempt
      clashed with the index and no session was recovered before its ratchet, the index answers
      exactly what a scan of all live sessions answers. */
  lemma RunsAgree(states: seq<State>, events: seq<Event>)
    requires IsRun(states, events) && states[0] == EmptyState
    ensures var t := states[|events|].table;
            && NoStale(t.tagMap, Owned(t)) && IpInverse(t) && WindowsExact(t)
            && (NeverDoubles(states, events) ==>
                  SecretsApart(t) && (NeverGaps(states, events) ==> IndexAgrees(t)))
  {
    hide Step, Fresh, StepDoubles, StepGaps;
    var level := if !NeverDoubles(states, events) then Basic else if NeverGaps(states, events) then Full else Apart;
    EmptyIsOk(level);
    RunKeeps(states, level, events);
  }

  /** So over every such run, without a doubled secret, the lookup finds every genuine tag of every
      live session, with its counter and key epoch, whatever the index has lost meanwhile. */
  lemma GenuineIsAlwaysFound(states: seq<State>, events: seq<Event>, order: seq<Sid>, sid: Sid, tag: Tag,
                             ratcheted: bool, tw: nat)
    requires IsRun(states, events) && states[0] == EmptyState && NeverDoubles(states, events)
    requires var t := states[|events|].table;
             sid in t.sessions && Covers(order, t) && Genuine(t.sessions[sid], tag, ratcheted, tw)
    ensures Lookup(states[|events|].table, order, tag, tw).1 == Some((sid, tag.counter, ratcheted))
  {
    hide Step, Fresh, StepDoubles, Genuine, SecretsApart, SoleHolder, Secrets, Lookup, NoStale, WindowsExact, IpInverse;
    var t := states[|events|].table;
    RunsAgree(states, events);
    GenuineSecret(t.sessions[sid], tag, ratcheted, tw);
    ApartMeansSole(t, sid, tag.secret);
    LookupFindsGenuine(t, order, sid, tag, ratcheted, tw);
  }
}
