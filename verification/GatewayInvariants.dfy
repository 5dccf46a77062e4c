/** What every packet keeps, and what the lookup and the handshake promise. */
module GatewayInvariants {
  import opened Wrappers
  import opened Crypto
  import opened Datagram
  import opened Session
  import opened SessionTable
  import opened TableInvariants
  import opened AddressMap
  import opened Gateway
  import RW = RecvWindow

  /** Index, windows, secrets and addresses; levels as in `SessionTable.Inv`. */
  ghost predicate AllAgree(t: Table, level: Level) {
    Inv(t, level) && IpInverse(t)
  }

  // ---- Fresh sessions ----------------------------------------------------------------

  lemma {:induction false} PskIsShallower(k: Key, dh: Dh, eph: Pub, context: Context)
    ensures Depth(Derived(context, dh, Some(k), eph)) > Depth(k)
  {}

  lemma BuiltIsExact(id: Identity, draw: Draw, from: Addr, eph: Pub, psk: Option<Key>, tw: nat)
    requires Build(id, draw, from, eph, psk, tw).Some?
    ensures var s := Build(id, draw, from, eph, psk, tw).value;
            WindowExact(s) && s.bits == {} && s.counter == 0 && s.sendCounter == 0 && s.vpnIp == None
  {
    var initial := DeriveSessionKeys(ComputeShared(id.scalar, eph).value, psk, eph);
    var dh2 := ComputeShared(draw.serverEph, eph).value;
    PskIsShallower(initial.sessionKey, dh2, eph, TagSecretContext);
    PskIsShallower(initial.sessionKey, dh2, eph, SessionKeyContext);
    SameDepth(initial);
  }

  lemma SameDepth(keys: SessionKeys)
    ensures forall dh, psk, eph :: keys == DeriveSessionKeys(dh, psk, eph) ==>
              Depth(keys.tagSecret) == Depth(keys.sessionKey)
  {}

  /** A draw whose id is unused; its iteration order covers the sessions. */
  ghost predicate FreshDraw(t: Table, draw: Draw) {
    draw.sid !in t.sessions && Covers(draw.rollbackOrder, t)
  }

  ghost predicate FreshDraws(t: Table, env: Env) {
    Covers(env.cleanupOrder, t) && forall i :: 0 <= i < |env.draws| ==> FreshDraw(t, env.draws[i])
  }

  // ---- The handshake loop --------------------------------------------------------------

  /** One attempt, created and rolled back, leaves sessions and addresses as they were, and takes
      its own tags out of the index: a gap exactly when one of them was there. */
  lemma AttemptIsUndone(t: Table, level: Level, id: Identity, draw: Draw, from: Addr, eph: Pub,
                        psk: Option<Key>, staticIp: Option<Ip>, tw: nat)
    requires AllAgree(t, level) && FreshDraw(t, draw)
    requires Create(t, id, draw, from, eph, psk, staticIp, tw).Some?
    ensures var t1 := Create(t, id, draw, from, eph, psk, staticIp, tw).value;
            var own := OwnTags(Build(id, draw, from, eph, psk, tw).value);
            var t' := Rollback(t1, draw.sid, draw.rollbackOrder);
            && t' == t.(tagMap := t.tagMap - own, nextOctet := t1.nextOctet)
            && (staticIp.Some? ==> t1.nextOctet == t.nextOctet)
            && AllAgree(t', Lowered(level))
            && (level == Full ==> (AllAgree(t', Full) <==> t.tagMap.Keys !! own))
  {
    var s := Build(id, draw, from, eph, psk, tw).value;
    var chosen := ChooseIp(t, draw.createOrder, from.ip, staticIp);
    hide Inv, IpInverse, Covers, Build, Insert, Rollback;
    InsertThenRollback(t, draw.sid, s, chosen, draw.rollbackOrder);
    LosingTags(t, level, OwnTags(s), chosen.1);
    SameIpsKeepInverse(t, t.(tagMap := t.tagMap - OwnTags(s), nextOctet := chosen.1));
  }

  /** An attempt is made for the client. */
  predicate Tries(t: Table, id: Identity, client: Registered, draw: Draw, from: Addr, d: Datagram, tw: nat) {
    client.enabled && WithinLimits(t, from.ip) && Build(id, draw, from, d.eph, Some(client.psk), tw).Some?
  }

  /** The attempt is made and its session validates the tag. */
  predicate HeadMatches(t: Table, id: Identity, client: Registered, draw: Draw, from: Addr, d: Datagram, tw: nat) {
    && Tries(t, id, client, draw, from, d, tw)
    && Build(id, draw, from, d.eph, Some(client.psk), tw).value.ValidateTag(d.tag, tw).Some?
  }

  /** The tags of all attempts that are made and rolled back: those before the first match. */
  function Burnt(t: Table, id: Identity, clients: seq<Registered>, draws: seq<Draw>, from: Addr, d: Datagram,
                 tw: nat): set<Tag>
    requires |draws| >= |clients|
    decreases |clients|
  {
    if clients == [] || HeadMatches(t, id, clients[0], draws[0], from, d, tw) then {}
    else
      var rest := Burnt(t, id, clients[1..], draws[1..], from, d, tw);
      if Tries(t, id, clients[0], draws[0], from, d, tw)
      then OwnTags(Build(id, draws[0], from, d.eph, Some(clients[0].psk), tw).value) + rest
      else rest
  }

  lemma TriesIgnoreIndex(t: Table, t': Table, id: Identity, client: Registered, draw: Draw, from: Addr, d: Datagram,
                         tw: nat)
    requires t'.sessions == t.sessions
    ensures Tries(t', id, client, draw, from, d, tw) == Tries(t, id, client, draw, from, d, tw)
    ensures HeadMatches(t', id, client, draw, from, d, tw) == HeadMatches(t, id, client, draw, from, d, tw)
  {
    hide Build, SessionState.ValidateTag;
  }

  /** Attempts depend on the sessions, not on the index. */
  lemma {:induction false} BurntIgnoresIndex(t: Table, t': Table, id: Identity, clients: seq<Registered>,
                                             draws: seq<Draw>,
                                             from: Addr, d: Datagram, tw: nat)
    requires |draws| >= |clients| && t'.sessions == t.sessions
    ensures Burnt(t', id, clients, draws, from, d, tw) == Burnt(t, id, clients, draws, from, d, tw)
    decreases |clients|
  {
    hide Build, HeadMatches, Tries, OwnTags;
    if clients != [] {
      TriesIgnoreIndex(t, t', id, clients[0], draws[0], from, d, tw);
      BurntIgnoresIndex(t, t', id, clients[1..], draws[1..], from, d, tw);
    }
  }

  /** None of the first `i` clients matches. */
  ghost predicate NoneBefore(t: Table, id: Identity, clients: seq<Registered>, draws: seq<Draw>,
                             from: Addr, d: Datagram, tw: nat, i: nat)
    requires |draws| >= |clients|
  {
    forall j :: 0 <= j < i && j < |clients| ==> !HeadMatches(t, id, clients[j], draws[j], from, d, tw)
  }

  /** The loop ends at the first match `i`, or with `i == |clients|`.  Nothing has changed but
      that the tags of the failed attempts left the index, and the session of client `i` is added. */
  ghost predicate Outcome(t: Table, r: (Table, Option<(Sid, nat)>), id: Identity, clients: seq<Registered>,
                          draws: seq<Draw>, from: Addr, d: Datagram, tw: nat, i: nat)
    requires |draws| >= |clients|
  {
    var left := t.(tagMap := t.tagMap - Burnt(t, id, clients, draws, from, d, tw));
    && i <= |clients| && NoneBefore(t, id, clients, draws, from, d, tw, i)
    && (i == |clients| ==> r == (left, None))
    && (i < |clients| ==>
          && HeadMatches(t, id, clients[i], draws[i], from, d, tw)
          && r == (Insert(left, draws[i].sid, Build(id, draws[i], from, d.eph, Some(clients[i].psk), tw).value,
                          (Some(clients[i].vpnIp), t.nextOctet)),
                   Some((draws[i].sid, clients[i].clientId))))
  }

  lemma {:induction false} TryClientsOutcome(t: Table, id: Identity, clients: seq<Registered>, draws: seq<Draw>,
                                             from: Addr, d: Datagram, tw: nat) returns (i: nat)
    requires |draws| >= |clients| && IpInverse(t)
    requires forall k :: 0 <= k < |clients| ==> FreshDraw(t, draws[k])
    ensures Outcome(t, TryClients(t, id, clients, draws, from, d, tw), id, clients, draws, from, d, tw, i)
    decreases |clients|
  {
    hide FreshDraw, HeadMatches, Tries, IpInverse, Create, Rollback, Build, OwnTags, Insert;
    i := 0;
    if clients == [] {
      assert t.tagMap - {} == t.tagMap;
    } else if HeadMatches(t, id, clients[0], draws[0], from, d, tw) {
      HeadIsTaken(t, id, clients, draws, from, d, tw);
    } else {
      var t1 := AfterHead(t, id, clients[0], draws[0], from, d, tw);
      HeadIsUndone(t, id, clients, draws, from, d, tw);
      forall k | 0 <= k < |clients[1..]|
        ensures FreshDraw(t1, draws[1..][k])
      {
        FreshInSame(t, t1, draws[k + 1]);
      }
      SameIpsKeepInverse(t, t1);
      var j := TryClientsOutcome(t1, id, clients[1..], draws[1..], from, d, tw);
      LaterOutcome(t, t1, TryClients(t1, id, clients[1..], draws[1..], from, d, tw), id, clients, draws, from, d, tw,
                   j);
      i := j + 1;
    }
  }

  lemma FreshInSame(t: Table, t': Table, draw: Draw)
    requires FreshDraw(t, draw) && t'.sessions.Keys == t.sessions.Keys
    ensures FreshDraw(t', draw)
  {}

  /** The table once the first client has been tried in vain. */
  function AfterHead(t: Table, id: Identity, client: Registered, draw: Draw, from: Addr, d: Datagram, tw: nat): Table {
    if Tries(t, id, client, draw, from, d, tw)
    then t.(tagMap := t.tagMap - OwnTags(Build(id, draw, from, d.eph, Some(client.psk), tw).value))
    else t
  }

  lemma HeadIsTaken(t: Table, id: Identity, clients: seq<Registered>, draws: seq<Draw>, from: Addr, d: Datagram,
                    tw: nat)
    requires |draws| >= |clients| > 0 && HeadMatches(t, id, clients[0], draws[0], from, d, tw)
    ensures Outcome(t, TryClients(t, id, clients, draws, from, d, tw), id, clients, draws, from, d, tw, 0)
  {
    hide Build, SessionState.ValidateTag, OwnTags, Assign;
    var s := Build(id, draws[0], from, d.eph, Some(clients[0].psk), tw).value;
    AddressIsIrrelevant(s, Some(clients[0].vpnIp), d.tag, tw);
    assert t.tagMap - {} == t.tagMap;
  }

  lemma AddressIsIrrelevant(s: SessionState, ip: Option<Ip>, tag: Tag, tw: nat)
    ensures s.(vpnIp := ip).ValidateTag(tag, tw) == s.ValidateTag(tag, tw)
  {}

  lemma HeadIsUndone(t: Table, id: Identity, clients: seq<Registered>, draws: seq<Draw>, from: Addr, d: Datagram,
                     tw: nat)
    requires |draws| >= |clients| > 0 && IpInverse(t) && FreshDraw(t, draws[0])
    requires !HeadMatches(t, id, clients[0], draws[0], from, d, tw)
    ensures TryClients(t, id, clients, draws, from, d, tw)
         == TryClients(AfterHead(t, id, clients[0], draws[0], from, d, tw), id, clients[1..], draws[1..], from, d, tw)
  {
    hide Build, SessionState.ValidateTag, OwnTags, Assign, Rollback, IpInverse, Covers;
    if Tries(t, id, clients[0], draws[0], from, d, tw) {
      var s := Build(id, draws[0], from, d.eph, Some(clients[0].psk), tw).value;
      AddressIsIrrelevant(s, Some(clients[0].vpnIp), d.tag, tw);
      InsertThenRollback(t, draws[0].sid, s, (Some(clients[0].vpnIp), t.nextOctet), draws[0].rollbackOrder);
    }
  }

  /** The outcome for the later clients is the outcome for all. */
  lemma LaterOutcome(t: Table, t1: Table, r: (Table, Option<(Sid, nat)>), id: Identity, clients: seq<Registered>,
                     draws: seq<Draw>,
                     from: Addr, d: Datagram, tw: nat, j: nat)
    requires |draws| >= |clients| > 0 && !HeadMatches(t, id, clients[0], draws[0], from, d, tw)
    requires t1 == AfterHead(t, id, clients[0], draws[0], from, d, tw)
    requires Outcome(t1, r, id, clients[1..], draws[1..], from, d, tw, j)
    ensures Outcome(t, r, id, clients, draws, from, d, tw, j + 1)
  {
    hide Build, HeadMatches, Tries, Burnt, AfterHead, Insert;
    LeftAlike(t, t1, id, clients, draws, from, d, tw);
    forall k | 0 <= k < j + 1 && k < |clients|
      ensures !HeadMatches(t, id, clients[k], draws[k], from, d, tw)
    {
      if k > 0 {
        assert clients[1..][k - 1] == clients[k] && draws[1..][k - 1] == draws[k];
        TriesIgnoreIndex(t, t1, id, clients[k], draws[k], from, d, tw);
      }
    }
    if j + 1 < |clients| {
      assert clients[1..][j] == clients[j + 1] && draws[1..][j] == draws[j + 1];
      TriesIgnoreIndex(t, t1, id, clients[j + 1], draws[j + 1], from, d, tw);
    }
  }

  lemma LeftAlike(t: Table, t1: Table, id: Identity, clients: seq<Registered>, draws: seq<Draw>, from: Addr,
                  d: Datagram, tw: nat)
    requires |draws| >= |clients| > 0 && !HeadMatches(t, id, clients[0], draws[0], from, d, tw)
    requires t1 == AfterHead(t, id, clients[0], draws[0], from, d, tw)
    ensures t1.sessions == t.sessions && t1.nextOctet == t.nextOctet
    ensures t1.(tagMap := t1.tagMap - Burnt(t1, id, clients[1..], draws[1..], from, d, tw))
         == t.(tagMap := t.tagMap - Burnt(t, id, clients, draws, from, d, tw))
  {
    hide Build, HeadMatches, OwnTags;
    BurntIgnoresIndex(t, t1, id, clients[1..], draws[1..], from, d, tw);
    var rest := Burnt(t, id, clients[1..], draws[1..], from, d, tw);
    if Tries(t, id, clients[0], draws[0], from, d, tw) {
      LosingTwice(t.tagMap, OwnTags(Build(id, draws[0], from, d.eph, Some(clients[0].psk), tw).value), rest);
    }
  }

  lemma LosingTwice(m: map<Tag, Sid>, a: set<Tag>, b: set<Tag>)
    ensures m - a - b == m - (a + b)
  {}

  // ---- After the session is found ------------------------------------------------------

  /** A session change that touches neither tags, secrets nor address. */
  lemma SetQuietlyKeeps(t: Table, level: Level, sid: Sid, s: SessionState)
    requires AllAgree(t, level) && sid in t.sessions && s.vpnIp == t.sessions[sid].vpnIp
    requires WindowExact(s) && Secrets(s) == Secrets(t.sessions[sid]) && OwnTags(s) == OwnTags(t.sessions[sid])
    ensures AllAgree(SetSession(t, sid, s), level)
  {
    hide Inv, WindowExact, OwnTags;
    SetSameTagsKeeps(t, level, sid, s);
    SameIpsKeepInverse(t, SetSession(t, sid, s));
  }

  lemma SetLoudlyKeeps(t: Table, level: Level, sid: Sid, s: SessionState)
    requires AllAgree(t, level) && sid in t.sessions && s.vpnIp == t.sessions[sid].vpnIp
    requires WindowExact(s) && Secrets(s) <= Secrets(t.sessions[sid])
    ensures AllAgree(RefreshSessionTags(SetSession(t, sid, s), sid), level)
  {
    hide Inv, WindowExact, OwnTags, Without, Assign;
    SetAndRefreshKeeps(t, level, sid, s);
    SameIpsKeepInverse(t, RefreshSessionTags(SetSession(t, sid, s), sid));
  }

  lemma RatchetStepKeeps(t: Table, level: Level, sid: Sid)
    requires AllAgree(t, level) && sid in t.sessions
    ensures var t' := RefreshSessionTags(CompleteSessionRatchet(t, sid), sid);
            && AllAgree(t', level) && sid in t'.sessions
            && t'.sessions[sid] == t.sessions[sid].CompleteRatchet()
  {
    hide AllAgree, OwnTags, Without, Assign, WindowExact;
    var t1 := CompleteSessionRatchet(t, sid);
    RatchetedIsOk(t, level, sid);
    SetToItself(t1, sid);
    SetLoudlyKeeps(t1, level, sid, t1.sessions[sid]);
  }

  lemma SetToItself(t: Table, sid: Sid)
    requires sid in t.sessions
    ensures SetSession(t, sid, t.sessions[sid]) == t
  {}

  lemma RatchetedIsOk(t: Table, level: Level, sid: Sid)
    requires AllAgree(t, level) && sid in t.sessions
    ensures var t1 := CompleteSessionRatchet(t, sid);
            AllAgree(t1, level) && sid in t1.sessions && WindowExact(t1.sessions[sid])
  {
    hide Inv, WindowExact, Assign, OwnTags;
    RatchetKeeps(t, level, sid);
    SameIpsKeepInverse(t, CompleteSessionRatchet(t, sid));
    assert AllAgree(CompleteSessionRatchet(t, sid), level);
    WindowOf(CompleteSessionRatchet(t, sid), level, sid);
  }

  lemma WindowOf(t: Table, level: Level, sid: Sid)
    requires AllAgree(t, level) && sid in t.sessions
    ensures WindowExact(t.sessions[sid])
  {}

  lemma RemoveIsOk(t: Table, level: Level, sid: Sid)
    requires AllAgree(t, level)
    ensures AllAgree(Remove(t, sid), level)
  {
    hide Inv, IpInverse;
    RemoveKeeps(t, level, sid);
    RemoveKeepsInverse(t, sid);
  }

  lemma ReplyKeeps(t: Table, level: Level, sid: Sid, content: Content)
    requires AllAgree(t, level) && sid in t.sessions
    ensures AllAgree(Reply(t, sid, content), level)
  {
    hide AllAgree, WindowExact, Remove, OwnTags, Secrets;
    WindowOf(t, level, sid);
    SameWindow(t.sessions[sid], t.sessions[sid].NextSend());
    SetQuietlyKeeps(t, level, sid, t.sessions[sid].NextSend());
    RemoveIsOk(t, level, sid);
  }

  /** Fields outside keys, counter and tags do not matter to the window. */
  lemma SameWindow(s: SessionState, s': SessionState)
    requires WindowExact(s) && s'.counter == s.counter && s'.windowBase == s.windowBase && s'.keys == s.keys
    requires s'.expectedTags == s.expectedTags && s'.ratchetedKeys == s.ratchetedKeys
    requires s'.ratchetedTags == s.ratchetedTags && s'.isRatcheted == s.isRatcheted
    ensures WindowExact(s') && Secrets(s') == Secrets(s) && OwnTags(s') == OwnTags(s)
  {}

  lemma ReceiveKeepsSecrets(s: SessionState, c: nat, isNew: bool, from: Addr, tw: nat)
    ensures var r := s.Receive(c, isNew, from, tw);
            && r.vpnIp == s.vpnIp && Secrets(r) == Secrets(s)
            && (c < s.windowBase + REFRESH_DISTANCE ==> OwnTags(r) == OwnTags(s))
  {
    hide SessionState.Receive;
    ReceiveKeepsFields(s, c, isNew, from, tw);
  }

  predicate SameFields(s: SessionState, s': SessionState) {
    && s'.vpnIp == s.vpnIp && s'.clientId == s.clientId && s'.keys == s.keys && s'.ratchetedKeys == s.ratchetedKeys
    && s'.ratchetedTags == s.ratchetedTags && s'.isRatcheted == s.isRatcheted && s'.serverEphPub == s.serverEphPub
  }

  lemma ReceiveKeepsFields(s: SessionState, c: nat, isNew: bool, from: Addr, tw: nat)
    ensures var r := s.Receive(c, isNew, from, tw);
            && SameFields(s, r) && (c < s.windowBase + REFRESH_DISTANCE ==> r.expectedTags == s.expectedTags)
  {
    hide SessionState.MarkTagReceived, SessionState.UpdateTagWindow;
    MarkKeepsFields(s, c);
    WindowMoveKeepsFields(s.MarkTagReceived(c), tw);
    WindowMoveKeepsFields(s.MarkTagReceived(c).(addr := from), tw);
  }

  lemma MarkKeepsFields(s: SessionState, c: nat)
    ensures var r := s.MarkTagReceived(c);
            SameFields(s, r) && r.expectedTags == s.expectedTags && r.windowBase == s.windowBase
  {
    hide RW.Above;
  }

  lemma WindowMoveKeepsFields(s: SessionState, tw: nat)
    ensures SameFields(s, s.UpdateTagWindow(tw))
  {
    hide TagsFor;
  }

  lemma ReceiveStepKeeps(t: Table, level: Level, sid: Sid, c: nat, isNew: bool, from: Addr, tw: nat)
    requires AllAgree(t, level) && sid in t.sessions
    ensures var s := t.sessions[sid];
            var t2 := SetSession(t, sid, s.Receive(c, isNew, from, tw));
            AllAgree(if c >= s.windowBase + REFRESH_DISTANCE then RefreshSessionTags(t2, sid) else t2, level)
  {
    hide AllAgree, WindowExact, RefreshSessionTags, OwnTags, Secrets;
    var s := t.sessions[sid];
    WindowOf(t, level, sid);
    ReceiveKeepsWindow(s, c, isNew, from, tw);
    ReceiveKeepsSecrets(s, c, isNew, from, tw);
    if c >= s.windowBase + REFRESH_DISTANCE {
      SetLoudlyKeeps(t, level, sid, s.Receive(c, isNew, from, tw));
    } else {
      SetQuietlyKeeps(t, level, sid, s.Receive(c, isNew, from, tw));
    }
  }

  /** Opening, ratchet, marking, window move and reply keep index, windows and addresses. */
  lemma FinishKeeps(t: Table, level: Level, sid: Sid, c: nat, ratcheted: bool, isNew: bool, env: Env, from: Addr,
                    d: Datagram)
    requires AllAgree(t, level) && sid in t.sessions
    ensures AllAgree(Finish(t, sid, c, ratcheted, isNew, env, from, d).0, level)
  {
    hide AllAgree, CompleteSessionRatchet, Reply;
    var s := t.sessions[sid];
    if s.Opens(d, c, ratcheted, isNew) {
      var t1 := if ratcheted then RefreshSessionTags(CompleteSessionRatchet(t, sid), sid) else t;
      RatchetStepKeeps(t, level, sid);
      if d.sealed.plain.Plain? {
        var s1 := t1.sessions[sid];
        ReceiveStepKeeps(t1, level, sid, c, isNew, from, env.tw);
        var t2 := SetSession(t1, sid, s1.Receive(c, isNew, from, env.tw));
        var t3 := if c >= s1.windowBase + REFRESH_DISTANCE then RefreshSessionTags(t2, sid) else t2;
        ReplyKeeps(t3, level, sid, d.sealed.plain.content);
      }
    }
  }

  /** Whether the session answers a control message, using a send counter. */
  predicate Answers(s: SessionState, content: Content) {
    match content
    case ControlMessage(Keepalive) => s.isRatcheted || s.serverEphPub.Some?
    case ControlMessage(TelemetryRequest) => true
    case _ => false
  }

  predicate Delivers(d: Datagram, accepted: bool, isNew: bool) {
    accepted && !isNew && d.sealed.Sealed? && d.sealed.plain.Plain?
  }

  /** What finishing made of a table: the session moved to `s'`, then sent if it answers, or went if
      the content was a shutdown; no other session changed. */
  ghost predicate Finished(t: Table, t': Table, sid: Sid, s': SessionState, d: Datagram, ok: bool, isNew: bool) {
    && (sid !in t'.sessions <==> Delivers(d, ok, isNew) && d.sealed.plain.content == ControlMessage(Shutdown))
    && (sid in t'.sessions ==>
          t'.sessions[sid] == if Delivers(d, ok, isNew) && Answers(s', d.sealed.plain.content) then s'.NextSend()
          else s')
    && OthersStay(t, t', sid)
  }

  /** In the table, the session a packet was found for moves exactly as `Accept` says. */
  lemma FinishIsAccept(t: Table, sid: Sid, c: nat, ratcheted: bool, isNew: bool, env: Env, from: Addr, d: Datagram)
    requires sid in t.sessions
    ensures var (t', ok) := Finish(t, sid, c, ratcheted, isNew, env, from, d);
            var (s', accepted) := t.sessions[sid].Accept(d, c, ratcheted, isNew, from, env.tw);
            ok == accepted && Finished(t, t', sid, s', d, ok, isNew)
  {
    hide SessionState.Accept, SessionState.Opens, Finish, Finished;
    var s := t.sessions[sid];
    if !s.Opens(d, c, ratcheted, isNew) {
      NotOpened(t, sid, c, ratcheted, isNew, env, from, d);
    } else {
      OpensIsSealed(s, d, c, ratcheted, isNew);
      if d.sealed.plain.Plain? {
        OpenedPlain(t, sid, c, ratcheted, isNew, env, from, d);
      } else {
        OpenedMalformed(t, sid, c, ratcheted, isNew, env, from, d);
      }
    }
  }

  lemma NotOpened(t: Table, sid: Sid, c: nat, ratcheted: bool, isNew: bool, env: Env, from: Addr, d: Datagram)
    requires sid in t.sessions && !t.sessions[sid].Opens(d, c, ratcheted, isNew)
    ensures var (t', ok) := Finish(t, sid, c, ratcheted, isNew, env, from, d);
            var (s', accepted) := t.sessions[sid].Accept(d, c, ratcheted, isNew, from, env.tw);
            ok == accepted && Finished(t, t', sid, s', d, ok, isNew)
  {}

  lemma OpenedMalformed(t: Table, sid: Sid, c: nat, ratcheted: bool, isNew: bool, env: Env, from: Addr, d: Datagram)
    requires sid in t.sessions && t.sessions[sid].Opens(d, c, ratcheted, isNew)
    requires d.sealed.Sealed? && d.sealed.plain.Malformed?
    ensures var (t', ok) := Finish(t, sid, c, ratcheted, isNew, env, from, d);
            var (s', accepted) := t.sessions[sid].Accept(d, c, ratcheted, isNew, from, env.tw);
            ok == accepted && Finished(t, t', sid, s', d, ok, isNew)
  {
    hide SessionState.Opens, SessionState.CompleteRatchet, SessionState.Receive, Reply, Answers,
         RefreshSessionTags, CompleteSessionRatchet;
    OneSessionRatchets(t, sid);
  }

  lemma OpenedPlain(t: Table, sid: Sid, c: nat, ratcheted: bool, isNew: bool, env: Env, from: Addr, d: Datagram)
    requires sid in t.sessions && t.sessions[sid].Opens(d, c, ratcheted, isNew)
    requires d.sealed.Sealed? && d.sealed.plain.Plain?
    ensures var (t', ok) := Finish(t, sid, c, ratcheted, isNew, env, from, d);
            var (s', accepted) := t.sessions[sid].Accept(d, c, ratcheted, isNew, from, env.tw);
            ok == accepted && Finished(t, t', sid, s', d, ok, isNew)
  {
    hide SessionState.Receive, SessionState.CompleteRatchet, SessionState.Opens, Reply, Finish, Answers;
    var t3 := BeforeReply(t, sid, c, ratcheted, isNew, env, from, d);
    ReplyIsAnswer(t3, sid, d.sealed.plain.content);
  }

  /** The table just before a reply: only the one session has moved. */
  lemma BeforeReply(t: Table, sid: Sid, c: nat, ratcheted: bool, isNew: bool, env: Env, from: Addr, d: Datagram)
      returns (t3: Table)
    requires sid in t.sessions && t.sessions[sid].Opens(d, c, ratcheted, isNew) && d.sealed.plain.Plain?
    ensures var s1 := if ratcheted then t.sessions[sid].CompleteRatchet() else t.sessions[sid];
            t3.sessions == t.sessions[sid := s1.Receive(c, isNew, from, env.tw)]
    ensures Finish(t, sid, c, ratcheted, isNew, env, from, d)
         == (if isNew then t3 else Reply(t3, sid, d.sealed.plain.content), true)
  {
    hide SessionState.Opens, SessionState.CompleteRatchet, SessionState.Receive, Reply, RefreshSessionTags,
         CompleteSessionRatchet, SetSession;
    OneSessionRatchets(t, sid);
    var t1 := if ratcheted then RefreshSessionTags(CompleteSessionRatchet(t, sid), sid) else t;
    var s1 := t1.sessions[sid];
    OneSessionSet(t1, sid, s1.Receive(c, isNew, from, env.tw));
    var t2 := SetSession(t1, sid, s1.Receive(c, isNew, from, env.tw));
    t3 := if c >= s1.windowBase + REFRESH_DISTANCE then RefreshSessionTags(t2, sid) else t2;
  }

  lemma OpensIsSealed(s: SessionState, d: Datagram, c: nat, ratcheted: bool, isNew: bool)
    requires s.Opens(d, c, ratcheted, isNew)
    ensures d.sealed.Sealed?
  {}

  lemma OneSessionRatchets(t: Table, sid: Sid)
    requires sid in t.sessions
    ensures RefreshSessionTags(CompleteSessionRatchet(t, sid), sid).sessions
         == t.sessions[sid := t.sessions[sid].CompleteRatchet()]
  {}

  lemma OneSessionSet(t: Table, sid: Sid, s: SessionState)
    ensures SetSession(t, sid, s).sessions == t.sessions[sid := s]
    ensures RefreshSessionTags(SetSession(t, sid, s), sid).sessions == t.sessions[sid := s]
  {}

  ghost predicate OthersStay(t: Table, t': Table, sid: Sid) {
    && t'.sessions.Keys <= t.sessions.Keys <= t'.sessions.Keys + {sid}
    && (forall id :: id in t.sessions && id != sid ==> t'.sessions[id] == t.sessions[id])
  }

  lemma ReplyIsAnswer(t: Table, sid: Sid, content: Content)
    requires sid in t.sessions
    ensures var t' := Reply(t, sid, content);
            && OthersStay(t, t', sid)
            && (sid !in t'.sessions <==> content == ControlMessage(Shutdown))
            && (sid in t'.sessions ==>
                  t'.sessions[sid] == if Answers(t.sessions[sid], content) then t.sessions[sid].NextSend()
                  else t.sessions[sid])
  {}

  // ---- The whole packet ------------------------------------------------------------------

  /** An inserted session once the former holders of its address are gone. */
  lemma InsertIsInv(t: Table, level: Level, sid: Sid, s: SessionState, chosen: (Option<Ip>, nat), order: seq<Sid>)
    requires AllAgree(t, level) && sid !in t.sessions && WindowExact(s)
    ensures Inv(TakenOver(t, sid, s, chosen, order), Basic)
    ensures FreshSecrets(t, s) ==> Inv(TakenOver(t, sid, s, chosen, order), level)
  {
    hide IpInverse, WindowExact, FreshSecrets, Insert, Inv;
    InsertKeeps(t, level, sid, s, chosen);
    if chosen.0.Some? {
      var gone := Holders(Insert(t, sid, s, chosen), chosen.0.value, sid, order);
      RemoveAllKeeps(Insert(t, sid, s, chosen), Basic, gone);
      if FreshSecrets(t, s) {
        RemoveAllKeeps(Insert(t, sid, s, chosen), level, gone);
      }
    }
  }

  lemma {:induction false} RemoveAllKeeps(t: Table, level: Level, sids: seq<Sid>)
    requires Inv(t, level)
    ensures Inv(RemoveAll(t, sids), level)
    decreases |sids|
  {
    hide Inv, Remove;
    if sids != [] {
      RemoveAllKeeps(t, level, sids[..|sids| - 1]);
      RemoveKeeps(RemoveAll(t, sids[..|sids| - 1]), level, sids[|sids| - 1]);
    }
  }

  /** An inserted session once the former holder of its address is gone. */
  function TakenOver(t: Table, sid: Sid, s: SessionState, chosen: (Option<Ip>, nat), order: seq<Sid>): Table {
    if chosen.0.Some? then CleanupForVpnIp(Insert(t, sid, s, chosen), chosen.0.value, sid, order)
    else Insert(t, sid, s, chosen)
  }

  lemma TakenOverSessions(t: Table, sid: Sid, s: SessionState, chosen: (Option<Ip>, nat), order: seq<Sid>)
    requires IpInverse(t) && sid !in t.sessions && s.vpnIp == None && Covers(order, t)
    ensures var t' := TakenOver(t, sid, s, chosen, order);
            && IpInverse(t')
            && t'.sessions == (t.sessions - FormerHolder(t, chosen.0))[sid := s.(vpnIp := chosen.0)]
  {
    if chosen.0.Some? {
      TakeOverKeepsInverse(t, sid, s, chosen.0.value, chosen.1, order);
    } else {
      assert t.sessions - {} == t.sessions;
      InsertWithoutIpKeepsInverse(t, sid, s, chosen.1);
    }
  }

  /** A validated attempt, established: one session was added and only the former holder of its
      address is gone; nothing is stale, and with fresh secrets all that was known stays known. */
  lemma EstablishKeeps(t: Table, level: Level, sid: Sid, s: SessionState, chosen: (Option<Ip>, nat),
                       clientId: Option<nat>, order: seq<Sid>)
    requires AllAgree(t, level) && sid !in t.sessions && WindowExact(s) && s.vpnIp == None && Covers(order, t)
    ensures var t' := Establish(Insert(t, sid, s, chosen), sid, clientId, order);
            && AllAgree(t', Basic)
            && (FreshSecrets(t, s) ==> AllAgree(t', level))
            && (var s' := s.(vpnIp := chosen.0, clientId := clientId).NextSend();
                t'.sessions == (t.sessions - FormerHolder(t, chosen.0))[sid := s'])
  {
    hide Inv, IpInverse, WindowExact, Covers, FreshSecrets, FormerHolder, Establish, Insert, TakenOver, OwnTags,
         Secrets;
    InsertIsInv(t, level, sid, s, chosen, order);
    TakenOverSessions(t, sid, s, chosen, order);
    EstablishIsSet(t, sid, s, chosen, clientId, order);
    var t2 := TakenOver(t, sid, s, chosen, order);
    var s2 := s.(vpnIp := chosen.0);
    SameWindow(s, s2.(clientId := clientId).NextSend());
    SameWindow(s, s2);
    SetQuietlyKeeps(t2, Basic, sid, s2.(clientId := clientId).NextSend());
    if FreshSecrets(t, s) {
      SetQuietlyKeeps(t2, level, sid, s2.(clientId := clientId).NextSend());
    }
    SetTwice(t.sessions - FormerHolder(t, chosen.0), sid, s2, s2.(clientId := clientId).NextSend());
  }

  lemma EstablishIsSet(t: Table, sid: Sid, s: SessionState, chosen: (Option<Ip>, nat), clientId: Option<nat>,
                       order: seq<Sid>)
    requires var t2 := TakenOver(t, sid, s, chosen, order);
             sid in t2.sessions && t2.sessions[sid] == s.(vpnIp := chosen.0)
    ensures Establish(Insert(t, sid, s, chosen), sid, clientId, order)
         == SetSession(TakenOver(t, sid, s, chosen, order), sid, s.(vpnIp := chosen.0, clientId := clientId).NextSend())
  {
    hide CleanupForVpnIp, OwnTags, Assign;
  }

  lemma SetTwice<K, V>(m: map<K, V>, k: K, v: V, w: V)
    ensures m[k := v][k := w] == m[k := w]
  {}

  /** The tags of all attempts this handshake makes and rolls back. */
  function FailedTags(t: Table, cfg: Config, env: Env, from: Addr, d: Datagram): set<Tag>
    requires EnoughDraws(cfg, env)
  {
    match cfg.clients
    case Some(clients) => Burnt(t, cfg.id, clients, env.draws, from, d, env.tw)
    case None =>
      var built := Build(cfg.id, env.draws[0], from, d.eph, None, env.tw);
      if !WithinLimits(t, from.ip) || built.None? || built.value.ValidateTag(d.tag, env.tw).Some? then {}
      else OwnTags(built.value)
  }

  /** The pre-shared keys a handshake may find. */
  predicate MayMatch(cfg: Config, psk: Option<Key>, clientId: Option<nat>) {
    match cfg.clients
    case None => psk == None && clientId == None
    case Some(clients) =>
      exists i :: 0 <= i < |clients| && clients[i].enabled
                  && psk == Some(clients[i].psk) && clientId == Some(clients[i].clientId)
  }

  /** One match: the draw and the key of the session, and the address it gets. */
  datatype Match = Match(draw: Draw, psk: Option<Key>, chosen: (Option<Ip>, nat))

  function BuiltFor(cfg: Config, env: Env, from: Addr, d: Datagram, m: Match): Option<SessionState> {
    Build(cfg.id, m.draw, from, d.eph, m.psk, env.tw)
  }

  /** What all attempts together leave behind: the tags of the failed ones are gone from the
      index, and if one matched exactly its session is added. */
  lemma AttemptOutcome(t: Table, cfg: Config, env: Env, from: Addr, d: Datagram) returns (m: Match)
    requires IpInverse(t) && EnoughDraws(cfg, env) && FreshDraws(t, env)
    ensures var (t', found) := Attempt(t, cfg, env, from, d);
            var left := t.(tagMap := t.tagMap - FailedTags(t, cfg, env, from, d));
            if found.None? then t' == left.(nextOctet := t'.nextOctet)
            else
              var s := BuiltFor(cfg, env, from, d, m);
              && s.Some? && s.value.ValidateTag(d.tag, env.tw).Some? && WithinLimits(t, from.ip)
              && m.draw in env.draws && found.value.0 == m.draw.sid && MayMatch(cfg, m.psk, found.value.1)
              && t' == Insert(left, m.draw.sid, s.value, m.chosen)
  {
    hide WindowExact, Build, Insert, Covers, IpInverse, Tries, SessionState.ValidateTag;
    m := Match(Draw(0, 0, [], []), None, (None, 0));
    if cfg.clients.Some? {
      var clients := cfg.clients.value;
      var i := TryClientsOutcome(t, cfg.id, clients, env.draws, from, d, env.tw);
      if i < |clients| {
        MatchTries(t, cfg.id, clients[i], env.draws[i], from, d, env.tw);
        m := Match(env.draws[i], Some(clients[i].psk), (Some(clients[i].vpnIp), t.nextOctet));
      }
    } else {
      OneAttempt(t, cfg, env, from, d);
      m := Match(env.draws[0], None, ChooseIp(t, env.draws[0].createOrder, from.ip, None));
    }
  }

  lemma MatchTries(t: Table, id: Identity, client: Registered, draw: Draw, from: Addr, d: Datagram, tw: nat)
    requires HeadMatches(t, id, client, draw, from, d, tw)
    ensures client.enabled && WithinLimits(t, from.ip) && Build(id, draw, from, d.eph, Some(client.psk), tw).Some?
    ensures Build(id, draw, from, d.eph, Some(client.psk), tw).value.ValidateTag(d.tag, tw).Some?
  {}

  /** The one attempt of a server without client database. */
  lemma OneAttempt(t: Table, cfg: Config, env: Env, from: Addr, d: Datagram)
    requires IpInverse(t) && EnoughDraws(cfg, env) && FreshDraws(t, env) && cfg.clients.None?
    ensures var (t', found) := Attempt(t, cfg, env, from, d);
            var left := t.(tagMap := t.tagMap - FailedTags(t, cfg, env, from, d));
            var draw := env.draws[0];
            if found.None? then t' == left.(nextOctet := t'.nextOctet)
            else
              var s := Build(cfg.id, draw, from, d.eph, None, env.tw);
              && s.Some? && s.value.ValidateTag(d.tag, env.tw).Some? && WithinLimits(t, from.ip)
              && found.value == (draw.sid, None)
              && t' == Insert(left, draw.sid, s.value, ChooseIp(t, draw.createOrder, from.ip, None))
  {
    hide Build, SessionState.ValidateTag, OwnTags, Rollback, IpInverse, Covers, WithinLimits, ChooseIp;
    var draw := env.draws[0];
    var chosen := ChooseIp(t, draw.createOrder, from.ip, None);
    var built := Build(cfg.id, draw, from, d.eph, None, env.tw);
    assert t.(tagMap := t.tagMap - {}) == t;
    if WithinLimits(t, from.ip) && built.Some? {
      AddressIsIrrelevant(built.value, chosen.0, d.tag, env.tw);
      InsertedHas(t, draw.sid, built.value, chosen);
      assert FreshDraw(t, draw);
      hide Insert;
      InsertThenRollback(t, draw.sid, built.value, chosen, draw.rollbackOrder);
    }
  }

  lemma InsertedHas(t: Table, sid: Sid, s: SessionState, chosen: (Option<Ip>, nat))
    ensures Insert(t, sid, s, chosen).sessions == t.sessions[sid := s.(vpnIp := chosen.0)]
  {}

  lemma BuiltSession(id: Identity, draw: Draw, from: Addr, eph: Pub, psk: Option<Key>, tw: nat)
      returns (s: SessionState)
    requires Build(id, draw, from, eph, psk, tw).Some?
    ensures s == Build(id, draw, from, eph, psk, tw).value
    ensures WindowExact(s) && s.vpnIp == None && s.ephPub == eph && s.addr == from
  {
    s := Build(id, draw, from, eph, psk, tw).value;
    BuiltIsExact(id, draw, from, eph, psk, tw);
  }

  /** `t'` is `t` with session `sid` added and the former holder of its address gone. */
  ghost predicate OneAdded(t: Table, t': Table, sid: Sid) {
    && sid !in t.sessions && sid in t'.sessions
    && t'.sessions.Keys == (t.sessions.Keys - FormerHolder(t, t'.sessions[sid].vpnIp)) + {sid}
    && (forall id :: id in t'.sessions && id != sid ==> id in t.sessions && t'.sessions[id] == t.sessions[id])
  }

  function FormerHolder(t: Table, ip: Option<Ip>): set<Sid> {
    if ip.Some? then HoldersOf(t, ip.value) else {}
  }

  lemma EstablishedIsAdded(t: Table, sid: Sid, s: SessionState, ip: Option<Ip>, t': Table)
    requires sid !in t.sessions && s.vpnIp == ip
    requires t'.sessions == (t.sessions - FormerHolder(t, ip))[sid := s]
    ensures OneAdded(t, t', sid)
  {}

  lemma AcceptKeepsFields(s: SessionState, d: Datagram, c: nat, ratcheted: bool, isNew: bool, from: Addr, tw: nat)
    ensures var s' := s.Accept(d, c, ratcheted, isNew, from, tw).0; s'.vpnIp == s.vpnIp && s'.clientId == s.clientId
  {
    hide SessionState.Receive, SessionState.Opens, TagsFor;
    ReceiveKeepsFields(if ratcheted then s.CompleteRatchet() else s, c, isNew, from, tw);
  }

  lemma AddedThenFinished(t0: Table, t: Table, sid: Sid, c: nat, ratcheted: bool, env: Env, from: Addr, d: Datagram)
    requires OneAdded(t0, t, sid)
    ensures OneAdded(t0, Finish(t, sid, c, ratcheted, true, env, from, d).0, sid)
  {
    hide Finish, SessionState.Accept;
    FinishIsAccept(t, sid, c, ratcheted, true, env, from, d);
    AcceptKeepsFields(t.sessions[sid], d, c, ratcheted, true, from, env.tw);
  }

  /** The tags this handshake takes out of the index. */
  function Lost(g: State, cfg: Config, env: Env, from: Addr, d: Datagram): set<Tag>
    requires EnoughDraws(cfg, env)
  {
    if Attempts(g, env, from, d) then FailedTags(g.table, cfg, env, from, d) else {}
  }

  /** The session this handshake opens has a secret that a live session has. */
  ghost predicate Shares(g: State, cfg: Config, env: Env, from: Addr, d: Datagram)
    requires EnoughDraws(cfg, env)
  {
    && Attempts(g, env, from, d)
    && var (t', found) := Attempt(g.table, cfg, env, from, d);
       found.Some? && found.value.0 in t'.sessions && !FreshSecrets(g.table, t'.sessions[found.value.0])
  }

  /** What is still known after a handshake. */
  ghost function Afterwards(level: Level, g: State, cfg: Config, env: Env, from: Addr, d: Datagram): Level
    requires EnoughDraws(cfg, env)
  {
    if Shares(g, cfg, env, from, d) then Basic
    else if g.table.tagMap.Keys !! Lost(g, cfg, env, from, d) then level
    else Lowered(level)
  }

  /** A handshake that fails changes sessions and addresses in nothing, and takes exactly the tags
      of its attempts out of the index, so that a gap is left exactly when one of them was there;
      one that succeeds adds exactly one session and removes exactly the former holder of its
      address.  Nothing becomes stale in either case. */
  lemma HandshakeOutcome(g: State, level: Level, cfg: Config, env: Env, from: Addr, d: Datagram)
    requires AllAgree(g.table, level) && EnoughDraws(cfg, env)
    requires Attempts(g, env, from, d) ==> FreshDraws(g.table, env)
    ensures var (g', path) := Handshake(g, cfg, env, from, d);
            var lost := Lost(g, cfg, env, from, d);
            && AllAgree(g'.table, Afterwards(level, g, cfg, env, from, d))
            && (path.Rejected? || path.Established?)
            && (path.Rejected? ==>
                  && g'.table == g.table.(tagMap := g.table.tagMap - lost, nextOctet := g'.table.nextOctet)
                  && (level == Full ==> (AllAgree(g'.table, Full) <==> g.table.tagMap.Keys !! lost)))
            && (path.Established? ==> OneAdded(g.table, g'.table, path.sid))
  {
    hide AllAgree, OneAdded, Attempt, Handshake, Covers, FailedTags, BuiltFor, Insert, Attempts, Shares,
         SessionState.ValidateTag;
    if !Attempts(g, env, from, d) {
      NothingAttempted(g, level, cfg, env, from, d);
    } else {
      Inverse(g.table, level);
      var m := AttemptOutcome(g.table, cfg, env, from, d);
      var lost := Lost(g, cfg, env, from, d);
      var (t1, found) := Attempt(g.table, cfg, env, from, d);
      if found.None? {
        NothingFound(g, cfg, env, from, d);
        LosingKeeps(g.table, level, lost, t1.nextOctet);
      } else {
        LosingKeeps(g.table, level, lost, g.table.nextOctet);
        var left := g.table.(tagMap := g.table.tagMap - lost);
        MatchEstablishes(g, left, Afterwards(level, g, cfg, env, from, d), cfg, env, from, d, m);
      }
    }
  }

  lemma NothingAttempted(g: State, level: Level, cfg: Config, env: Env, from: Addr, d: Datagram)
    requires AllAgree(g.table, level) && EnoughDraws(cfg, env) && !Attempts(g, env, from, d)
    ensures Lost(g, cfg, env, from, d) == {} && Afterwards(level, g, cfg, env, from, d) == level
    ensures g.table.(tagMap := g.table.tagMap - {}) == g.table
    ensures Handshake(g, cfg, env, from, d) == (g, Rejected)
  {
    hide AllAgree, Attempt, Attempts, FailedTags, FreshSecrets, Finish, Establish, Rollback, SessionState.ValidateTag;
  }

  lemma NothingFound(g: State, cfg: Config, env: Env, from: Addr, d: Datagram)
    requires EnoughDraws(cfg, env) && Attempts(g, env, from, d) && Attempt(g.table, cfg, env, from, d).1.None?
    ensures !Shares(g, cfg, env, from, d)
    ensures var (g', path) := Handshake(g, cfg, env, from, d);
            path == Rejected && g'.table == Attempt(g.table, cfg, env, from, d).0
  {
    hide Attempt, Attempts;
  }

  lemma Inverse(t: Table, level: Level)
    requires AllAgree(t, level)
    ensures IpInverse(t)
  {}

  lemma LosingKeeps(t: Table, level: Level, lost: set<Tag>, octet: nat)
    requires AllAgree(t, level)
    ensures var t' := t.(tagMap := t.tagMap - lost, nextOctet := octet);
            && AllAgree(t', if t.tagMap.Keys !! lost then level else Lowered(level)) && AllAgree(t', Basic)
            && (level == Full ==> (AllAgree(t', Full) <==> t.tagMap.Keys !! lost))
  {
    hide WindowExact, Secrets, NoStale, NoMissing;
    LosingTags(t, level, lost, octet);
    SameIpsKeepInverse(t, t.(tagMap := t.tagMap - lost, nextOctet := octet));
  }

  /** The session of a match once its ServerHello is sent and its first packet received. */
  function Opened(cfg: Config, env: Env, from: Addr, d: Datagram, m: Match, clientId: Option<nat>): SessionState
    requires BuiltFor(cfg, env, from, d, m).Some?
    requires BuiltFor(cfg, env, from, d, m).value.ValidateTag(d.tag, env.tw).Some?
  {
    var s := BuiltFor(cfg, env, from, d, m).value;
    var (c, ratcheted) := s.ValidateTag(d.tag, env.tw).value;
    s.(vpnIp := m.chosen.0, clientId := clientId).NextSend().Accept(d, c, ratcheted, true, from, env.tw).0
  }

  /** The match found, established and finished. */
  lemma MatchEstablishes(g: State, left: Table, level: Level, cfg: Config, env: Env, from: Addr, d: Datagram, m: Match)
    requires EnoughDraws(cfg, env) && Attempts(g, env, from, d) && Covers(env.cleanupOrder, g.table)
    requires AllAgree(left, Basic) && left.sessions == g.table.sessions && m.draw.sid !in left.sessions
    requires level != Basic ==> AllAgree(left, level) && !Shares(g, cfg, env, from, d)
    requires var (t1, found) := Attempt(g.table, cfg, env, from, d);
             && found.Some? && found.value.0 == m.draw.sid
             && var s := BuiltFor(cfg, env, from, d, m);
                s.Some? && s.value.ValidateTag(d.tag, env.tw).Some? && t1 == Insert(left, m.draw.sid, s.value, m.chosen)
    ensures var (g', path) := Handshake(g, cfg, env, from, d);
            && path == Established(m.draw.sid) && AllAgree(g'.table, level) && OneAdded(g.table, g'.table, m.draw.sid)
            && (var clientId := Attempt(g.table, cfg, env, from, d).1.value.1;
                g'.table.sessions[m.draw.sid] == Opened(cfg, env, from, d, m, clientId))
            && g'.cooldowns == g.cooldowns - {from.ip}
  {
    hide Inv, IpInverse, OneAdded, Attempt, Finish, Establish, WindowExact, FreshSecrets, Covers, Attempts, Build,
         OwnTags, SessionState.ValidateTag;
    var (t1, found) := Attempt(g.table, cfg, env, from, d);
    var sid, clientId := m.draw.sid, found.value.1;
    var s := BuiltSession(cfg.id, m.draw, from, d.eph, m.psk, env.tw);
    var s' := s.(vpnIp := m.chosen.0, clientId := clientId).NextSend();
    AddressIsIrrelevant(s, m.chosen.0, d.tag, env.tw);
    FreshAnyAddress(g.table, left, s, m.chosen.0);
    CoversSame(g.table, left, env.cleanupOrder);
    EstablishKeeps(left, Basic, sid, s, m.chosen, clientId, env.cleanupOrder);
    if level != Basic {
      EstablishKeeps(left, level, sid, s, m.chosen, clientId, env.cleanupOrder);
    }
    var t2 := Establish(t1, sid, clientId, env.cleanupOrder);
    EstablishedIsAdded(left, sid, s', m.chosen.0, t2);
    AddedAlike(left, g.table, t2, sid);
    var v := t1.sessions[sid].ValidateTag(d.tag, env.tw);
    FinishKeeps(t2, level, sid, v.value.0, v.value.1, true, env, from, d);
    AddedThenFinished(g.table, t2, sid, v.value.0, v.value.1, env, from, d);
    FinishIsAccept(t2, sid, v.value.0, v.value.1, true, env, from, d);
  }

  lemma CoversSame(t: Table, t': Table, order: seq<Sid>)
    requires Covers(order, t) && t'.sessions.Keys == t.sessions.Keys
    ensures Covers(order, t')
  {}

  lemma FreshAnyAddress(t: Table, t': Table, s: SessionState, ip: Option<Ip>)
    requires t'.sessions == t.sessions
    ensures FreshSecrets(t', s) <==> FreshSecrets(t, s.(vpnIp := ip))
  {}

  lemma AddedAlike(t: Table, t': Table, t2: Table, sid: Sid)
    requires t'.sessions == t.sessions && OneAdded(t, t2, sid)
    ensures OneAdded(t', t2, sid)
  {}
}
