/** `handle_packet`: lookup, refresh, recovery, handshake, opening, ratchet and reply. */
module Gateway {
  import opened Wrappers
  import opened Crypto
  import opened Datagram
  import opened Session
  import opened SessionTable
  import opened TableInvariants
  import opened AddressMap

  datatype Registered = Registered(clientId: nat, psk: Key, vpnIp: Ip, enabled: bool)

  /** Without a client database (`clients` is None) the handshake runs without pre-shared key. */
  datatype Config = Config(id: Identity, clients: Option<seq<Registered>>)

  /** What one call reads from its surroundings: the time, map iteration orders, fresh values. */
  datatype Env = Env(now: nat, tw: nat, refreshOrder: seq<Sid>, recoverOrder: seq<Sid>,
                     draws: seq<Draw>, cleanupOrder: seq<Sid>)

  datatype Cooldown = Cooldown(failures: nat, last: nat)

  datatype State = State(table: Table, cooldowns: map<Ip, Cooldown>)

  datatype Path = Rejected | Known | Refreshed | Recovered(sid: Sid) | Established(sid: Sid)

  // ---- Finding the session ------------------------------------------------------

  /** Index lookup and validation, else a refresh of all sessions. */
  function Lookup(t: Table, order: seq<Sid>, tag: Tag, tw: nat): (Table, Option<(Sid, nat, bool)>) {
    match GetByTag(t, tag)
    case Some(sid) =>
      (match t.sessions[sid].ValidateTag(tag, tw)
       case None => (t, None)
       case Some((c, ratcheted)) => (t, Some((sid, c, ratcheted))))
    case None => RefreshAndFind(t, order, tag, tw)
  }

  // ---- The handshake --------------------------------------------------------------

  /** Every enabled client's key is tried by creating a session and rolling it back. */
  function TryClients(t: Table, id: Identity, clients: seq<Registered>, draws: seq<Draw>,
                      from: Addr, d: Datagram, tw: nat): (Table, Option<(Sid, nat)>)
    requires |draws| >= |clients|
    decreases |clients|
  {
    if clients == [] then (t, None)
    else if !clients[0].enabled then TryClients(t, id, clients[1..], draws[1..], from, d, tw)
    else
      var sid := draws[0].sid;
      match Create(t, id, draws[0], from, d.eph, Some(clients[0].psk), Some(clients[0].vpnIp), tw)
      case None => TryClients(t, id, clients[1..], draws[1..], from, d, tw)
      case Some(t1) =>
        if t1.sessions[sid].ValidateTag(d.tag, tw).Some? then (t1, Some((sid, clients[0].clientId)))
        else TryClients(Rollback(t1, sid, draws[0].rollbackOrder), id, clients[1..], draws[1..], from, d, tw)
  }

  /** The table after the handshake attempts, and the new session with its client, if any. */
  function Attempt(t: Table, cfg: Config, env: Env, from: Addr, d: Datagram): (Table, Option<(Sid, Option<nat>)>)
    requires EnoughDraws(cfg, env)
  {
    match cfg.clients
    case Some(clients) =>
      var (t', found) := TryClients(t, cfg.id, clients, env.draws, from, d, env.tw);
      (t', if found.Some? then Some((found.value.0, Some(found.value.1))) else None)
    case None =>
      var sid := env.draws[0].sid;
      match Create(t, cfg.id, env.draws[0], from, d.eph, None, None, env.tw)
      case None => (t, None)
      case Some(t1) =>
        if t1.sessions[sid].ValidateTag(d.tag, env.tw).Some? then (t1, Some((sid, None)))
        else (Rollback(t1, sid, env.draws[0].rollbackOrder), None)
  }

  predicate EnoughDraws(cfg: Config, env: Env) {
    |env.draws| >= (if cfg.clients.Some? then |cfg.clients.value| else 1)
  }

  /** After a validated attempt: the former holder of the address goes, the client is noted,
      and the ServerHello consumes a send counter. */
  function Establish(t: Table, sid: Sid, clientId: Option<nat>, order: seq<Sid>): Table
    requires sid in t.sessions
  {
    var ip := t.sessions[sid].vpnIp;
    var t1 := if ip.Some? then CleanupForVpnIp(t, ip.value, sid, order) else t;
    if sid !in t1.sessions then t1
    else SetSession(t1, sid, t1.sessions[sid].(clientId := clientId).NextSend())
  }

  // ---- After the session is found ----------------------------------------------------

  /** Opening, ratchet, marking and tag window of a found session; Established sessions are new. */
  function Finish(t: Table, sid: Sid, c: nat, ratcheted: bool, isNew: bool, env: Env, from: Addr, d: Datagram)
    : (Table, bool)
    requires sid in t.sessions
  {
    var s := t.sessions[sid];
    if !s.Opens(d, c, ratcheted, isNew) then (t, false) else
    var t1 := if ratcheted then RefreshSessionTags(CompleteSessionRatchet(t, sid), sid) else t;
    if d.sealed.plain.Malformed? then (t1, false) else
    var s1 := t1.sessions[sid];
    var t2 := SetSession(t1, sid, s1.Receive(c, isNew, from, env.tw));
    var t3 := if c >= s1.windowBase + REFRESH_DISTANCE then RefreshSessionTags(t2, sid) else t2;
    (if isNew then t3 else Reply(t3, sid, d.sealed.plain.content), true)
  }

  /** What a control message makes of the session: a reply consumes a send counter, a
      shutdown removes the session. */
  function Reply(t: Table, sid: Sid, content: Content): Table
    requires sid in t.sessions
  {
    var s := t.sessions[sid];
    match content
    case ControlMessage(Keepalive) =>
      if !s.isRatcheted && s.serverEphPub.None? then t else SetSession(t, sid, s.NextSend())
    case ControlMessage(TelemetryRequest) => SetSession(t, sid, s.NextSend())
    case ControlMessage(Shutdown) => Remove(t, sid)
    case _ => t
  }

  predicate CoolingDown(g: State, ip: Ip, now: nat) {
    ip in g.cooldowns && now < g.cooldowns[ip].last + 250 * Doubled(g.cooldowns[ip].failures)
  }

  /** `1 << failures.min(4)`. */
  function Doubled(failures: nat): nat {
    if failures == 0 then 1
    else if failures == 1 then 2
    else if failures == 2 then 4
    else if failures == 3 then 8
    else 16
  }

  /** One whole call.  A packet whose tag is indexed but not accepted is dropped at once. */
  function HandlePacket(g: State, cfg: Config, env: Env, from: Addr, d: Datagram): (State, Path)
    requires EnoughDraws(cfg, env)
  {
    if d.size < TAG_SIZE + 2 then (g, Rejected) else
    var indexed := GetByTag(g.table, d.tag).Some?;
    var (t1, found) := Lookup(g.table, env.refreshOrder, d.tag, env.tw);
    if found.Some? then
      var (sid, c, ratcheted) := found.value;
      if sid !in t1.sessions then (g.(table := t1), Rejected) else
      var (t2, ok) := Finish(t1, sid, c, ratcheted, false, env, from, d);
      (g.(table := t2), if !ok then Rejected else if indexed then Known else Refreshed)
    else if indexed then (g.(table := t1), Rejected)
    else
      var (t2, recovered) := RecoverByTag(t1, env.recoverOrder, d.tag, from.ip, env.tw);
      if recovered.Some? then
        var (sid, c, ratcheted) := recovered.value;
        if sid !in t2.sessions then (g.(table := t2), Rejected) else
        (g.(table := Finish(t2, sid, c, ratcheted, false, env, from, d).0), Recovered(sid))
      else Handshake(g.(table := t2), cfg, env, from, d)
  }

  /** No cooldown is running and the datagram has room for an ephemeral key. */
  predicate Attempts(g: State, env: Env, from: Addr, d: Datagram) {
    !CoolingDown(g, from.ip, env.now) && d.size >= TAG_SIZE + MDH_LEN + EPH_LEN
  }

  function Handshake(g: State, cfg: Config, env: Env, from: Addr, d: Datagram): (State, Path)
    requires EnoughDraws(cfg, env)
  {
    if !Attempts(g, env, from, d) then (g, Rejected) else
    var (t1, found) := Attempt(g.table, cfg, env, from, d);
    if found.None? then
      var failures := if from.ip in g.cooldowns then g.cooldowns[from.ip].failures else 0;
      (State(t1, if cfg.clients.Some? then g.cooldowns[from.ip := Cooldown(failures + 1, env.now)] else g.cooldowns),
       Rejected)
    else
      var (sid, clientId) := found.value;
      var v := if sid in t1.sessions then t1.sessions[sid].ValidateTag(d.tag, env.tw) else None;
      if v.None? || sid !in t1.sessions then (g.(table := Rollback(t1, sid, env.cleanupOrder)), Rejected) else
      var t2 := Establish(t1, sid, clientId, env.cleanupOrder);
      if sid !in t2.sessions then (g.(table := t2), Rejected) else
      (State(Finish(t2, sid, v.value.0, v.value.1, true, env, from, d).0, g.cooldowns - {from.ip}), Established(sid))
  }
}
