/** Who gets a session: the handshake over all registered clients establishes one exactly for a
    datagram whose tag was made with a key derived from an enabled client's pre-shared key. */
module Handshakes {
  import opened Wrappers
  import opened Crypto
  import opened Datagram
  import opened Session
  import opened SessionTable
  import opened TableInvariants
  import opened AddressMap
  import opened Gateway
  import opened GatewayInvariants
  import PacketRuns

  /** The tag is among those the session built for this client would take at first. */
  predicate Proves(id: Identity, client: Registered, draw: Draw, from: Addr, d: Datagram, tw: nat) {
    var built := Build(id, draw, from, d.eph, Some(client.psk), tw);
    && built.Some? && d.tag.secret in Secrets(built.value)
    && d.tag.counter < 256 && NearWindow(tw, d.tag.window)
  }

  lemma FirstTags(s: SessionState, tag: Tag, tw: nat, from: Addr, eph: Pub, initial: SessionKeys,
                  ratcheted: SessionKeys,
                  serverEph: Pub, signature: Signature)
    requires s == NewSession(from, eph, initial, ratcheted, serverEph, signature, tw)
    ensures s.ValidateTag(tag, tw).Some? <==>
              tag.secret in Secrets(s) && tag.counter < 256 && NearWindow(tw, tag.window)
  {
    assert s.expectedTags == TagsFor(initial.tagSecret, 0, 255, tw);
    assert s.ratchetedTags == TagsFor(ratcheted.tagSecret, 0, 255, tw);
  }

  /** An attempt succeeds exactly for an enabled client whose key the tag proves, within the limits. */
  lemma MatchIsProof(t: Table, id: Identity, client: Registered, draw: Draw, from: Addr, d: Datagram, tw: nat)
    ensures HeadMatches(t, id, client, draw, from, d, tw) <==>
              client.enabled && WithinLimits(t, from.ip) && Proves(id, client, draw, from, d, tw)
  {
    hide NewSession, SessionState.ValidateTag, WithinLimits, Secrets;
    var built := Build(id, draw, from, d.eph, Some(client.psk), tw);
    if built.Some? {
      var initial := DeriveSessionKeys(ComputeShared(id.scalar, d.eph).value, Some(client.psk), d.eph);
      var next := DeriveSessionKeys(ComputeShared(draw.serverEph, d.eph).value, Some(initial.sessionKey), d.eph);
      FirstTags(built.value, d.tag, tw, from, d.eph, initial, next, Pub(draw.serverEph),
                Signature(id.signer, Pub(draw.serverEph), d.eph));
    }
  }

  ghost predicate Admits(g: State, clients: seq<Registered>, id: Identity, env: Env, from: Addr, d: Datagram, i: nat)
    requires i < |clients| <= |env.draws|
  {
    clients[i].enabled && WithinLimits(g.table, from.ip) && Proves(id, clients[i], env.draws[i], from, d, env.tw)
  }

  /** A handshake establishes a session exactly when the tag proves the key of some enabled
      client, within the limits; the session is the first such client's, at its address. */
  lemma EstablishedExactly(g: State, cfg: Config, env: Env, from: Addr, d: Datagram) returns (i: nat)
    requires AllAgree(g.table, Basic) && EnoughDraws(cfg, env) && cfg.clients.Some?
    requires Attempts(g, env, from, d) && FreshDraws(g.table, env)
    ensures var (g', path) := Handshake(g, cfg, env, from, d);
            var clients := cfg.clients.value;
            && i <= |clients| && (forall j :: 0 <= j < i ==> !Admits(g, clients, cfg.id, env, from, d, j))
            && (path.Established? <==> i < |clients|)
            && (i < |clients| ==>
                  && Admits(g, clients, cfg.id, env, from, d, i) && path.sid == env.draws[i].sid
                  && OneAdded(g.table, g'.table, path.sid)
                  && g'.table.sessions[path.sid].clientId == Some(clients[i].clientId)
                  && g'.table.sessions[path.sid].vpnIp == Some(clients[i].vpnIp)
                  && var m := Match(env.draws[i], Some(clients[i].psk), (Some(clients[i].vpnIp), g.table.nextOctet));
                     && BuiltFor(cfg, env, from, d, m).Some?
                     && BuiltFor(cfg, env, from, d, m).value.ValidateTag(d.tag, env.tw).Some?
                     && g'.table.sessions[path.sid] == Opened(cfg, env, from, d, m, Some(clients[i].clientId))
                     && g'.cooldowns == g.cooldowns - {from.ip})
  {
    hide AllAgree, HeadMatches, Proves, WithinLimits, Covers, Handshake, BuiltFor, Build, Burnt, Insert, Attempts,
         SessionState.ValidateTag, SessionState.Accept, OneAdded, Tries;
    var (t, clients) := (g.table, cfg.clients.value);
    Inverse(t, Basic);
    i := TryClientsOutcome(t, cfg.id, clients, env.draws, from, d, env.tw);
    forall j | 0 <= j < |clients|
      ensures HeadMatches(t, cfg.id, clients[j], env.draws[j], from, d, env.tw)
         <==> Admits(g, clients, cfg.id, env, from, d, j)
    {
      MatchIsProof(t, cfg.id, clients[j], env.draws[j], from, d, env.tw);
    }
    if i == |clients| {
      NothingFound(g, cfg, env, from, d);
    } else {
      EstablishedFor(g, cfg, env, from, d, i);
    }
  }

  /** What becomes of the session of matching client `i`. */
  lemma EstablishedFor(g: State, cfg: Config, env: Env, from: Addr, d: Datagram, i: nat)
    requires AllAgree(g.table, Basic) && EnoughDraws(cfg, env) && cfg.clients.Some? && i < |cfg.clients.value|
    requires Attempts(g, env, from, d) && FreshDraws(g.table, env)
    requires Outcome(g.table, TryClients(g.table, cfg.id, cfg.clients.value, env.draws, from, d, env.tw),
                     cfg.id, cfg.clients.value, env.draws, from, d, env.tw, i)
    ensures var (g', path) := Handshake(g, cfg, env, from, d);
            var client := cfg.clients.value[i];
            var m := Match(env.draws[i], Some(client.psk), (Some(client.vpnIp), g.table.nextOctet));
            && path == Established(env.draws[i].sid) && OneAdded(g.table, g'.table, path.sid)
            && g'.table.sessions[path.sid].clientId == Some(client.clientId)
            && g'.table.sessions[path.sid].vpnIp == Some(client.vpnIp)
            && BuiltFor(cfg, env, from, d, m).Some?
            && BuiltFor(cfg, env, from, d, m).value.ValidateTag(d.tag, env.tw).Some?
            && g'.table.sessions[path.sid] == Opened(cfg, env, from, d, m, Some(client.clientId))
            && g'.cooldowns == g.cooldowns - {from.ip}
  {
    hide AllAgree, HeadMatches, Handshake, Covers, Burnt, Insert, Attempts, SessionState.ValidateTag,
         SessionState.Accept, Build, OneAdded, TryClients, NoneBefore;
    var (t, client) := (g.table, cfg.clients.value[i]);
    var lost := Burnt(t, cfg.id, cfg.clients.value, env.draws, from, d, env.tw);
    var m := Match(env.draws[i], Some(client.psk), (Some(client.vpnIp), t.nextOctet));
    MatchTries(t, cfg.id, client, env.draws[i], from, d, env.tw);
    LosingKeeps(t, Basic, lost, t.nextOctet);
    MatchEstablishes(g, t.(tagMap := t.tagMap - lost), Basic, cfg, env, from, d, m);
    var s := BuiltFor(cfg, env, from, d, m).value;
    var (c, ratcheted) := s.ValidateTag(d.tag, env.tw).value;
    AcceptKeepsFields(s.(vpnIp := m.chosen.0, clientId := Some(client.clientId)).NextSend(), d, c, ratcheted, true,
                      from, env.tw);
  }

  // ---- A client's first packet -----------------------------------------------------------

  /** No live session holds the secret the tag was made with. */
  ghost predicate Foreign(t: Table, tag: Tag) {
    forall sid :: sid in t.sessions ==> tag.secret !in Secrets(t.sessions[sid])
  }

  lemma ForeignIsUnindexed(t: Table, tag: Tag)
    requires Inv(t, Basic) && Foreign(t, tag)
    ensures GetByTag(t, tag) == None
  {
    if tag in t.tagMap {
      OwnSecrets(t.sessions[t.tagMap[tag]]);
    }
  }

  lemma RefreshedStaysForeign(t: Table, sid: Sid, tag: Tag, tw: nat)
    requires Foreign(t, tag) && sid in t.sessions && WindowExact(t.sessions[sid])
    ensures Foreign(RefreshOne(t, sid, tw), tag) && RefreshOne(t, sid, tw).sessions[sid].ValidateTag(tag, tw) == None
  {
    hide Assign, TagsFor;
    var s := t.sessions[sid];
    UpdateKeepsWindow(s, tw);
    RatchetedUpdateKeepsWindow(s.UpdateTagWindow(tw), tw);
    PacketRuns.ForeignTagFails(s.UpdateTagWindow(tw).UpdateRatchetedTagWindow(tw), tag, tw);
  }

  lemma {:induction false} RefreshFindsNothing(t: Table, order: seq<Sid>, tag: Tag, tw: nat)
    requires Inv(t, Basic) && Foreign(t, tag)
    ensures var (t', found) := RefreshAndFind(t, order, tag, tw); found == None && Inv(t', Basic) && Foreign(t', tag)
    decreases |order|
  {
    hide Inv, Foreign, RefreshOne;
    if order != [] {
      var t' := RefreshOne(t, order[0], tw);
      RefreshOneKeeps(t, Basic, order[0], tw);
      if order[0] in t.sessions {
        WindowIn(t, Basic, order[0]);
        RefreshedStaysForeign(t, order[0], tag, tw);
      } else {
        assert t' == t by { AbsentIsQuiet(t, order[0], tw); }
      }
      RefreshFindsNothing(t', order[1..], tag, tw);
    }
  }

  lemma AbsentIsQuiet(t: Table, sid: Sid, tw: nat)
    requires sid !in t.sessions
    ensures RefreshOne(t, sid, tw) == t
  {}

  /** A tag of a foreign secret reaches the handshake. */
  lemma ForeignReachesHandshake(g: State, env: Env, from: Addr, d: Datagram)
    requires Inv(g.table, Basic) && Foreign(g.table, d.tag) && Attempts(g, env, from, d)
    ensures PacketRuns.ReachesHandshake(g, env, from, d)
    ensures var t1 := Lookup(g.table, env.refreshOrder, d.tag, env.tw).0;
            && Foreign(t1, d.tag) && Inv(t1, Basic)
            && RecoverByTag(t1, env.recoverOrder, d.tag, from.ip, env.tw) == (t1, None)
  {
    hide Inv, Foreign, RefreshAndFind;
    ForeignIsUnindexed(g.table, d.tag);
    RefreshFindsNothing(g.table, env.refreshOrder, d.tag, env.tw);
    var t1 := Lookup(g.table, env.refreshOrder, d.tag, env.tw).0;
    NothingToRecover(t1, env.recoverOrder, d.tag, from.ip, env.tw);
  }

  lemma NothingToRecover(t: Table, order: seq<Sid>, tag: Tag, ip: Ip, tw: nat)
    requires Foreign(t, tag)
    ensures RecoverByTag(t, order, tag, ip, tw) == (t, None)
  {
    FindSpec(order, t, Recoverable(ip, tag, tw));
  }

  /** The first packet a client seals: with its ephemeral key, under the keys of its pre-shared key. */
  predicate FirstPacket(d: Datagram, server: Identity, scalar: nat, psk: Key, tw: nat) {
    var keys := DeriveSessionKeys(ComputeShared(scalar, Pub(server.scalar)).value, Some(psk), Pub(scalar));
    && d.eph == Pub(scalar) && d.size >= TAG_SIZE + MDH_LEN + EPH_LEN
    && d.tag.secret == keys.tagSecret && d.tag.counter < 256 && NearWindow(tw, d.tag.window)
  }

  /** Registered keys are 32 bytes each and distinct. */
  predicate DistinctKeys(clients: seq<Registered>) {
    && (forall i :: 0 <= i < |clients| ==> clients[i].psk.Raw?)
    && (forall i, j :: 0 <= i < j < |clients| ==> clients[i].psk != clients[j].psk)
  }

  /** Only the client's own key is proved by its first packet. */
  lemma ProvesOwnKeyOnly(id: Identity, client: Registered, draw: Draw, from: Addr, d: Datagram, scalar: nat, psk: Key,
                         tw: nat)
    requires FirstPacket(d, id, scalar, psk, tw) && client.psk.Raw? && psk.Raw?
    ensures Proves(id, client, draw, from, d, tw) <==> client.psk == psk
    ensures client.psk == psk ==> d.tag.secret in Secrets(Build(id, draw, from, d.eph, Some(psk), tw).value)
  {
    hide TagsFor;
    SharedCommutes(scalar, id.scalar);
  }

  /** A registered client gets in: unless a live session has its first keys already, its first
      packet establishes a session for that very client at its address, within the limits and
      outside a cooldown. */
  lemma FirstPacketEstablishes(g: State, cfg: Config, env: Env, from: Addr, d: Datagram, scalar: nat, i: nat)
    requires AllAgree(g.table, Basic) && EnoughDraws(cfg, env) && FreshDraws(g.table, env)
    requires cfg.clients.Some? && i < |cfg.clients.value| && cfg.clients.value[i].enabled
    requires DistinctKeys(cfg.clients.value)
    requires FirstPacket(d, cfg.id, scalar, cfg.clients.value[i].psk, env.tw) && Foreign(g.table, d.tag)
    requires WithinLimits(g.table, from.ip) && !CoolingDown(g, from.ip, env.now)
    ensures var (g', path) := HandlePacket(g, cfg, env, from, d);
            var client := cfg.clients.value[i];
            var m := Match(env.draws[i], Some(client.psk), (Some(client.vpnIp), g.table.nextOctet));
            && PacketRuns.ReachesHandshake(g, env, from, d)
            && path == Established(env.draws[i].sid) && path.sid in g'.table.sessions
            && g'.table.sessions[path.sid].clientId == Some(client.clientId)
            && g'.table.sessions[path.sid].vpnIp == Some(client.vpnIp)
            && BuiltFor(cfg, env, from, d, m).Some?
            && BuiltFor(cfg, env, from, d, m).value.ValidateTag(d.tag, env.tw).Some?
            && g'.table.sessions[path.sid] == Opened(cfg, env, from, d, m, Some(client.clientId))
            && g'.table.sessions.Keys <= g.table.sessions.Keys + {path.sid}
            && g'.cooldowns == g.cooldowns - {from.ip}
  {
    hide AllAgree, FirstPacket, Proves, Foreign, Covers, Lookup, RecoverByTag, Handshake, WithinLimits, Build,
         SessionState.ValidateTag, SessionState.Accept;
    var (t, clients) := (g.table, cfg.clients.value);
    AttemptsFirst(g, cfg, env, from, d, scalar, i);
    assert Inv(t, Basic) by { AgreedInv(t); }
    ForeignReachesHandshake(g, env, from, d);
    PacketRuns.LookupIsOk(t, Basic, env.refreshOrder, d.tag, env.tw);
    var t1 := Lookup(t, env.refreshOrder, d.tag, env.tw).0;
    PacketRuns.QuietKeepsFresh(t, t1, env);
    QuietKeepsLimits(t, t1, from.ip);
    var g1 := g.(table := t1);
    var k := EstablishedExactly(g1, cfg, env, from, d);
    forall j | 0 <= j < |clients|
      ensures Proves(cfg.id, clients[j], env.draws[j], from, d, env.tw) <==> j == i
    {
      ProvesOwnKeyOnly(cfg.id, clients[j], env.draws[j], from, d, scalar, clients[i].psk, env.tw);
    }
    assert Admits(g1, clients, cfg.id, env, from, d, i);
    assert k == i;
  }

  lemma AgreedInv(t: Table)
    requires AllAgree(t, Basic)
    ensures Inv(t, Basic)
  {}

  lemma AttemptsFirst(g: State, cfg: Config, env: Env, from: Addr, d: Datagram, scalar: nat, i: nat)
    requires cfg.clients.Some? && i < |cfg.clients.value|
    requires FirstPacket(d, cfg.id, scalar, cfg.clients.value[i].psk, env.tw) && !CoolingDown(g, from.ip, env.now)
    ensures Attempts(g, env, from, d)
  {}

  lemma QuietKeepsLimits(t: Table, t': Table, from: Ip)
    requires PacketRuns.SameButIndex(t, t') && WithinLimits(t, from)
    ensures WithinLimits(t', from)
  {
    hide PacketRuns.SameButIndex;
    SameCounts(t, t', from);
  }

  lemma SameCounts(t: Table, t': Table, from: Ip)
    requires PacketRuns.SameButIndex(t, t')
    ensures |t.sessions| == |t'.sessions| && IpCount(t, from) == IpCount(t', from)
  {
    assert |t.sessions| == |t.sessions.Keys| && |t'.sessions| == |t'.sessions.Keys|;
    assert SessionsFrom(t, from) == SessionsFrom(t', from);
  }

  // ---- A first packet that comes late -------------------------------------------------------

  /** A tag of a time window that is not near fails on every refreshed session. */
  lemma LateTagFails(s: SessionState, tag: Tag, tw: nat)
    requires WindowExact(s) && !NearWindow(tw, tag.window)
    ensures s.Refreshed(tw).ValidateTag(tag, tw) == None
  {
    RefreshedTags(s, tw);
  }

  /** Such a tag is found nowhere. */
  lemma {:induction false} LateFindsNothing(t: Table, order: seq<Sid>, tag: Tag, tw: nat)
    requires Inv(t, Basic) && !NearWindow(tw, tag.window)
    ensures RefreshAndFind(t, order, tag, tw).1 == None
    decreases |order|
  {
    hide Inv, RefreshOne, SessionState.Refreshed, SessionState.ValidateTag;
    if order != [] {
      RefreshOneKeeps(t, Basic, order[0], tw);
      PacketRuns.OneRefreshed(t, order[0], tw);
      if order[0] in t.sessions {
        WindowIn(t, Basic, order[0]);
        LateTagFails(t.sessions[order[0]], tag, tw);
      }
      LateFindsNothing(RefreshOne(t, order[0], tw), order[1..], tag, tw);
    }
  }

  /** The tags of every attempt that is made count as lost when none matches. */
  lemma {:induction false} BurntHas(t: Table, id: Identity, clients: seq<Registered>, draws: seq<Draw>,
                                    from: Addr, d: Datagram, tw: nat, i: nat)
    requires i < |clients| <= |draws| && Tries(t, id, clients[i], draws[i], from, d, tw)
    requires NoneBefore(t, id, clients, draws, from, d, tw, |clients|)
    ensures OwnTags(Build(id, draws[i], from, d.eph, Some(clients[i].psk), tw).value)
         <= Burnt(t, id, clients, draws, from, d, tw)
    decreases |clients|
  {
    hide Tries, HeadMatches, Build, OwnTags;
    assert !HeadMatches(t, id, clients[0], draws[0], from, d, tw);
    if i > 0 {
      forall k | 0 <= k < |clients[1..]|
        ensures !HeadMatches(t, id, clients[1..][k], draws[1..][k], from, d, tw)
      {
        assert !HeadMatches(t, id, clients[k + 1], draws[k + 1], from, d, tw);
      }
      BurntHas(t, id, clients[1..], draws[1..], from, d, tw, i - 1);
    }
  }

  /** A live session that client `i` opened with the ephemeral key of `d`, still on its first keys
      and with its first 256 counters still in the window. */
  predicate Unswitched(t: Table, sid: Sid, id: Identity, client: Registered, d: Datagram) {
    && sid in t.sessions && !t.sessions[sid].isRatcheted && Back(t.sessions[sid].counter) < 256
    && var dh := ComputeShared(id.scalar, d.eph);
       dh.Some? && t.sessions[sid].keys == DeriveSessionKeys(dh.value, Some(client.psk), d.eph)
  }

  /** The session and the attempt for the same client have a tag in common. */
  lemma SharedTag(t: Table, sid: Sid, id: Identity, client: Registered, draw: Draw, from: Addr, d: Datagram, tw: nat)
      returns (tag: Tag)
    requires Unswitched(t, sid, id, client, d)
    ensures Build(id, draw, from, d.eph, Some(client.psk), tw).Some?
    ensures tag in OwnTags(Build(id, draw, from, d.eph, Some(client.psk), tw).value)
    ensures tag in OwnTags(t.sessions[sid].Refreshed(tw))
  {
    var s, built := t.sessions[sid], Build(id, draw, from, d.eph, Some(client.psk), tw).value;
    var k := Back(s.counter);
    tag := Tag(s.keys.tagSecret, k, tw);
    assert built.expectedTags == TagsFor(s.keys.tagSecret, 0, 255, tw);
    assert s.Refreshed(tw).expectedTags == TagsFor(s.keys.tagSecret, k, s.counter + 255, tw);
    assert built.expectedTags[k] == tag && s.Refreshed(tw).expectedTags[k] == tag;
  }

  lemma LateReachesHandshake(g: State, env: Env, from: Addr, d: Datagram, sid: Sid)
    requires Inv(g.table, Basic) && Attempts(g, env, from, d) && !NearWindow(env.tw, d.tag.window)
    requires d.tag !in g.table.tagMap && sid in g.table.sessions && sid in env.refreshOrder
    ensures PacketRuns.ReachesHandshake(g, env, from, d)
    ensures var t1 := PacketRuns.AfterLookup(g, env, d).table;
            sid in t1.sessions && t1.sessions[sid] == g.table.sessions[sid].Refreshed(env.tw)
  {
    hide Inv, RefreshAndFind;
    LateFindsNothing(g.table, env.refreshOrder, d.tag, env.tw);
    PacketRuns.RefreshMisses(g.table, env.refreshOrder, d.tag, env.tw, sid);
    FindSpec(env.recoverOrder, PacketRuns.AfterLookup(g, env, d).table, Recoverable(from.ip, d.tag, env.tw));
  }

  /** None of the clients' attempts takes a late tag. */
  lemma LateIsRejected(g: State, cfg: Config, env: Env, from: Addr, d: Datagram)
    requires AllAgree(g.table, Basic) && EnoughDraws(cfg, env) && cfg.clients.Some? && FreshDraws(g.table, env)
    requires Attempts(g, env, from, d) && !NearWindow(env.tw, d.tag.window)
    ensures Handshake(g, cfg, env, from, d).1 == Rejected
    ensures NoneBefore(g.table, cfg.id, cfg.clients.value, env.draws, from, d, env.tw, |cfg.clients.value|)
    ensures !Shares(g, cfg, env, from, d)
  {
    hide AllAgree, HeadMatches, Burnt, Covers, WithinLimits, Build, Attempts;
    Inverse(g.table, Basic);
    var clients := cfg.clients.value;
    var i := TryClientsOutcome(g.table, cfg.id, clients, env.draws, from, d, env.tw);
    forall j | 0 <= j < |clients|
      ensures !HeadMatches(g.table, cfg.id, clients[j], env.draws[j], from, d, env.tw)
    {
      MatchIsProof(g.table, cfg.id, clients[j], env.draws[j], from, d, env.tw);
    }
    NothingFound(g, cfg, env, from, d);
  }

  /** A first packet that comes once more, too late for its time window, while the session it
      opened has not switched keys: it is rejected and no session changes but for its refreshed
      tags, yet the index has lost tags of that session. */
  lemma LateFirstPacketLeavesGap(g: State, cfg: Config, env: Env, from: Addr, d: Datagram, sid: Sid, i: nat)
    requires AllAgree(g.table, Full) && EnoughDraws(cfg, env) && FreshDraws(g.table, env)
    requires Covers(env.refreshOrder, g.table)
    requires cfg.clients.Some? && i < |cfg.clients.value| && cfg.clients.value[i].enabled
    requires Unswitched(g.table, sid, cfg.id, cfg.clients.value[i], d)
    requires d.tag !in g.table.tagMap && !NearWindow(env.tw, d.tag.window)
    requires Attempts(g, env, from, d) && WithinLimits(g.table, from.ip)
    ensures var (g', path) := HandlePacket(g, cfg, env, from, d);
            && path == Rejected && g'.table.sessions == PacketRuns.AfterLookup(g, env, d).table.sessions
            && PacketRuns.Clashes(g, cfg, env, from, d)
            && AllAgree(g'.table, Apart) && !NoMissing(g'.table.tagMap, Owned(g'.table))
  {
    hide IpInverse, Inv, Lookup, RecoverByTag, Handshake, WithinLimits, Build, Burnt, HeadMatches, Attempts, FreshDraw,
         OwnTags, NoneBefore, PacketRuns.SameButIndex, SessionState.Refreshed, Unswitched;
    assert Inv(g.table, Basic) by { FullIsBasic(g.table); }
    SessionIsCovered(g.table, env.refreshOrder, sid, cfg.id, cfg.clients.value[i], d);
    LateReachesHandshake(g, env, from, d, sid);
    var g1 := PacketRuns.AfterLookup(g, env, d);
    PacketRuns.LookupIsOk(g.table, Full, env.refreshOrder, d.tag, env.tw);
    FullIsBasic(g1.table);
    PacketRuns.QuietKeepsFresh(g.table, g1.table, env);
    QuietKeepsLimits(g.table, g1.table, from.ip);
    PacketRuns.HandsOver(g, cfg, env, from, d);
    LateIsRejected(g1, cfg, env, from, d);
    HandshakeOutcome(g1, Full, cfg, env, from, d);
    TagIsLost(g.table, g1, cfg, env, from, d, sid, i);
    PacketRuns.PacketKeeps(g, Full, cfg, env, from, d);
    GapIsMissing(HandlePacket(g, cfg, env, from, d).0.table);
  }

  lemma FullIsBasic(t: Table)
    requires AllAgree(t, Full)
    ensures Inv(t, Basic) && AllAgree(t, Basic) && NoMissing(t.tagMap, Owned(t))
  {}

  lemma GapIsMissing(t: Table)
    requires AllAgree(t, Apart)
    ensures AllAgree(t, Full) <==> NoMissing(t.tagMap, Owned(t))
  {}

  lemma SessionIsCovered(t: Table, order: seq<Sid>, sid: Sid, id: Identity, client: Registered, d: Datagram)
    requires Covers(order, t) && Unswitched(t, sid, id, client, d)
    ensures sid in t.sessions && sid in order
  {}

  /** An indexed tag of the session is among those the failed attempts take away. */
  lemma TagIsLost(t: Table, g1: State, cfg: Config, env: Env, from: Addr, d: Datagram, sid: Sid, i: nat)
    requires EnoughDraws(cfg, env) && cfg.clients.Some? && i < |cfg.clients.value| && cfg.clients.value[i].enabled
    requires Unswitched(t, sid, cfg.id, cfg.clients.value[i], d) && NoMissing(g1.table.tagMap, Owned(g1.table))
    requires sid in g1.table.sessions && g1.table.sessions[sid] == t.sessions[sid].Refreshed(env.tw)
    requires NoneBefore(g1.table, cfg.id, cfg.clients.value, env.draws, from, d, env.tw, |cfg.clients.value|)
    requires Attempts(g1, env, from, d) && WithinLimits(g1.table, from.ip)
    ensures !(g1.table.tagMap.Keys !! Lost(g1, cfg, env, from, d))
  {
    hide Build, HeadMatches, OwnTags, WithinLimits, Attempts, NoneBefore, Burnt, SessionState.Refreshed, Unswitched;
    var client := cfg.clients.value[i];
    var tag := SharedTag(t, sid, cfg.id, client, env.draws[i], from, d, env.tw);
    BurntHas(g1.table, cfg.id, cfg.clients.value, env.draws, from, d, env.tw, i);
    assert tag in Owned(g1.table)[sid];
    assert tag in g1.table.tagMap && tag in Lost(g1, cfg, env, from, d);
  }
}
