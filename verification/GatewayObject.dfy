/** `handle_packet` over the session manager object: each branch does what `Gateway` says. */
module GatewayObject {
  import opened Wrappers
  import opened Crypto
  import opened Datagram
  import opened Session
  import opened SessionObject
  import opened SessionTable
  import SM = SessionManager
  import opened Gateway

  class GatewayServer {
    const manager: SM.SessionManager
    var config: Config
    var cooldowns: map<Ip, Cooldown>

    ghost predicate Valid()
      reads this, manager
    {
      manager.Valid() && manager.identity == config.id
    }

    ghost function View(): State
      reads this, manager, manager.sessions.Values
    {
      State(manager.View(), cooldowns)
    }

    constructor (manager: SM.SessionManager, config: Config)
      requires manager.Valid() && manager.identity == config.id
      ensures Valid() && this.manager == manager && this.config == config && cooldowns == map[]
    {
      this.manager, this.config, cooldowns := manager, config, map[];
    }

    /** The registered clients change while the server runs. */
    method UpdateClients(clients: Option<seq<Registered>>)
      requires Valid()
      modifies this`config
      ensures Valid() && config == old(config).(clients := clients) && View() == old(View())
    {
      config := config.(clients := clients);
    }

    // ---- Lookup ----------------------------------------------------------------

    method LookupSession(order: seq<Sid>, tag: Tag, tw: nat) returns (indexed: bool, r: Option<(Sid, nat, bool)>)
      requires Valid()
      modifies manager`tagMap, manager.sessions.Values
      ensures indexed == GetByTag(old(manager.View()), tag).Some?
      ensures (manager.View(), r) == Lookup(old(manager.View()), order, tag, tw)
    {
      hide SM.SessionManager.View, SM.SessionManager.Sessions, RefreshAndFind, SessionState.ValidateTag;
      var sid := manager.GetSessionByTag(tag);
      indexed := sid.Some?;
      if indexed {
        manager.ViewAt(sid.value);
        var v := manager.sessions[sid.value].ValidateTag(tag, tw);
        r := if v.None? then None else Some((sid.value, v.value.0, v.value.1));
      } else {
        r := manager.RefreshAndFindByTag(order, tag, tw);
      }
    }

    // ---- Opening -----------------------------------------------------------------

    static method OpensUnder(s: ServerSession, d: Datagram, c: nat, ratcheted: bool, isNew: bool) returns (ok: bool)
      ensures ok == s.View().Opens(d, c, ratcheted, isNew)
      ensures ok ==> d.sealed.Sealed?
    {
      var retry := !isNew && !ratcheted && !s.isRatcheted && d.size >= TAG_SIZE + MDH_LEN + EPH_LEN + AEAD_LEN;
      var offset := if isNew || retry then TAG_SIZE + MDH_LEN + EPH_LEN else TAG_SIZE + MDH_LEN;
      if d.size <= offset {
        return false;
      }
      if ratcheted {
        return s.ratchetedKeys.Some? && d.Opens(s.ratchetedKeys.value.sessionKey, c, offset);
      }
      return d.Opens(s.keys.sessionKey, c, offset);
    }

    method FinishPacket(sid: Sid, c: nat, ratcheted: bool, isNew: bool, env: Env, from: Addr, d: Datagram)
        returns (ok: bool)
      requires Valid() && sid in manager.sessions
      modifies manager, manager.sessions.Values
      ensures Valid() && (manager.View(), ok) == Finish(old(manager.View()), sid, c, ratcheted, isNew, env, from, d)
    {
      hide SM.SessionManager.View, SM.SessionManager.Sessions, SessionState.Receive, SessionState.Opens,
        CompleteSessionRatchet, RefreshSessionTags, Reply;
      manager.ViewAt(sid);
      ok := OpensUnder(manager.sessions[sid], d, c, ratcheted, isNew);
      if !ok {
        return;
      }
      if ratcheted {
        manager.CompleteRatchetOf(sid);
        manager.RefreshTagsOf(sid);
      }
      if d.sealed.plain.Malformed? {
        return false;
      }
      manager.ViewAt(sid);
      var refreshTags := manager.ReceiveOn(sid, c, isNew, from, env.tw);
      if refreshTags {
        manager.RefreshTagsOf(sid);
      }
      if !isNew {
        ProcessContent(sid, d.sealed.plain.content);
      }
    }

    method ProcessContent(sid: Sid, content: Content)
      requires Valid() && sid in manager.sessions
      modifies manager, manager.sessions.Values
      ensures Valid() && manager.View() == Reply(old(manager.View()), sid, content)
    {
      hide SM.SessionManager.View, SM.SessionManager.Sessions, Remove;
      manager.ViewAt(sid);
      match content
      case ControlMessage(Keepalive) =>
        var s := manager.sessions[sid];
        if s.isRatcheted || s.serverEphPub.Some? {
          manager.NextSendOn(sid);
        }
      case ControlMessage(TelemetryRequest) => manager.NextSendOn(sid);
      case ControlMessage(Shutdown) => manager.RemoveSession(sid);
      case _ =>
    }

    // ---- Handshake -----------------------------------------------------------------

    /** One attempt: a real session is created, tried with the tag, and rolled back if it fails. */
    method TryOne(draw: Draw, psk: Option<Key>, staticIp: Option<Ip>, from: Addr, d: Datagram, tw: nat)
        returns (matched: bool)
      requires Valid() && draw.sid !in manager.sessions
      modifies manager
      ensures Valid() && fresh(manager.sessions.Values - old(manager.sessions.Values))
      ensures !matched ==> manager.sessions == old(manager.sessions)
      ensures matched ==> draw.sid in manager.sessions
      ensures var created := Create(old(manager.View()), config.id, draw, from, d.eph, psk, staticIp, tw);
              && matched == (created.Some? && created.value.sessions[draw.sid].ValidateTag(d.tag, tw).Some?)
              && manager.View() == (if created.None? then old(manager.View())
                                    else if matched then created.value
                                    else Rollback(created.value, draw.sid, draw.rollbackOrder))
    {
      hide SM.SessionManager.View, SM.SessionManager.Sessions, Create, Rollback, SessionState.ValidateTag;
      var created := manager.CreateSession(draw, from, d.eph, psk, staticIp, tw);
      if created.None? {
        return false;
      }
      manager.ViewAt(draw.sid);
      var v := created.value.ValidateTag(d.tag, tw);
      if v.Some? {
        return true;
      }
      manager.RollbackFailedSession(draw.sid, draw.rollbackOrder);
      assert manager.sessions == old(manager.sessions);
      return false;
    }

    method TryAllClients(clients: seq<Registered>, draws: seq<Draw>, from: Addr, d: Datagram, tw: nat)
        returns (found: Option<(Sid, nat)>)
      requires Valid() && |draws| >= |clients| && forall i :: 0 <= i < |draws| ==> draws[i].sid !in manager.sessions
      modifies manager
      ensures Valid() && fresh(manager.sessions.Values - old(manager.sessions.Values))
      ensures found.Some? ==> found.value.0 in manager.sessions
      ensures (manager.View(), found) == TryClients(old(manager.View()), config.id, clients, draws, from, d, tw)
    {
      hide SM.SessionManager.View, SM.SessionManager.Sessions, Create, Rollback, SessionState.ValidateTag;
      for i := 0 to |clients|
        invariant Valid() && manager.sessions == old(manager.sessions)
        invariant TryClients(old(manager.View()), config.id, clients, draws, from, d, tw)
               == TryClients(manager.View(), config.id, clients[i..], draws[i..], from, d, tw)
      {
        assert clients[i..][1..] == clients[i + 1..] && draws[i..][1..] == draws[i + 1..];
        if clients[i].enabled {
          var matched := TryOne(draws[i], Some(clients[i].psk), Some(clients[i].vpnIp), from, d, tw);
          if matched {
            return Some((draws[i].sid, clients[i].clientId));
          }
        }
      }
      return None;
    }

    method AttemptHandshake(env: Env, from: Addr, d: Datagram) returns (found: Option<(Sid, Option<nat>)>)
      requires Valid() && EnoughDraws(config, env) && forall i :: 0 <= i < |env.draws| ==>
                 env.draws[i].sid !in manager.sessions
      modifies manager
      ensures Valid() && fresh(manager.sessions.Values - old(manager.sessions.Values))
      ensures found.Some? ==> found.value.0 in manager.sessions
      ensures (manager.View(), found) == Attempt(old(manager.View()), config, env, from, d)
    {
      hide SM.SessionManager.View, SM.SessionManager.Sessions, Create, Rollback, SessionState.ValidateTag, TryClients;
      if config.clients.Some? {
        var r := TryAllClients(config.clients.value, env.draws, from, d, env.tw);
        found := if r.Some? then Some((r.value.0, Some(r.value.1))) else None;
      } else {
        var matched := TryOne(env.draws[0], None, None, from, d, env.tw);
        found := if matched then Some((env.draws[0].sid, None)) else None;
      }
    }

    method EstablishSession(sid: Sid, clientId: Option<nat>, order: seq<Sid>)
      requires Valid() && sid in manager.sessions
      modifies manager, manager.sessions.Values
      ensures Valid() && manager.View() == Establish(old(manager.View()), sid, clientId, order)
      ensures sid in manager.sessions <==> sid in manager.View().sessions
      ensures manager.sessions.Values <= old(manager.sessions.Values)
    {
      hide SM.SessionManager.View, SM.SessionManager.Sessions, CleanupForVpnIp;
      manager.ViewAt(sid);
      var vpnIp := manager.sessions[sid].vpnIp;
      if vpnIp.Some? {
        manager.CleanupOldSessionsForVpnIp(vpnIp.value, sid, order);
      }
      manager.ViewAt(sid);
      if sid in manager.sessions {
        manager.GreetOn(sid, clientId);
        manager.ViewAt(sid);
      }
    }

    method DoHandshake(env: Env, from: Addr, d: Datagram) returns (path: Path)
      requires Valid() && EnoughDraws(config, env) && forall i :: 0 <= i < |env.draws| ==>
                 env.draws[i].sid !in manager.sessions
      modifies this`cooldowns, manager, manager.sessions.Values
      ensures Valid() && (View(), path) == Handshake(old(View()), config, env, from, d)
    {
      hide SM.SessionManager.View, SM.SessionManager.Sessions, Attempt, Establish, Finish, SessionState.ValidateTag;
      if from.ip in cooldowns && env.now < cooldowns[from.ip].last + 250 * Doubled(cooldowns[from.ip].failures) {
        return Rejected;
      }
      if d.size < TAG_SIZE + MDH_LEN + EPH_LEN {
        return Rejected;
      }
      var found := AttemptHandshake(env, from, d);
      if found.None? {
        if config.clients.Some? {
          var failures := if from.ip in cooldowns then cooldowns[from.ip].failures else 0;
          cooldowns := cooldowns[from.ip := Cooldown(failures + 1, env.now)];
        }
        return Rejected;
      }
      var (sid, clientId) := found.value;
      manager.ViewAt(sid);
      var v := manager.sessions[sid].ValidateTag(d.tag, env.tw);
      if v.None? {
        manager.RollbackFailedSession(sid, env.cleanupOrder);
        return Rejected;
      }
      EstablishSession(sid, clientId, env.cleanupOrder);
      if sid !in manager.sessions {
        return Rejected;
      }
      cooldowns := cooldowns - {from.ip};
      var _ := FinishPacket(sid, v.value.0, v.value.1, true, env, from, d);
      return Established(sid);
    }

    /** One whole packet.  Fresh draws carry unused session ids. */
    method ReceivePacket(env: Env, from: Addr, d: Datagram) returns (path: Path)
      requires Valid() && EnoughDraws(config, env) && forall i :: 0 <= i < |env.draws| ==>
                 env.draws[i].sid !in manager.sessions
      modifies this`cooldowns, manager, manager.sessions.Values
      ensures Valid() && (View(), path) == HandlePacket(old(View()), config, env, from, d)
    {
      hide SM.SessionManager.View, SM.SessionManager.Sessions, Lookup, RecoverByTag, Finish, Handshake;
      if d.size < TAG_SIZE + 2 {
        return Rejected;
      }
      var indexed, found := LookupSession(env.refreshOrder, d.tag, env.tw);
      if found.Some? {
        var (sid, c, ratcheted) := found.value;
        manager.ViewAt(sid);
        if sid !in manager.sessions {
          return Rejected;
        }
        var ok := FinishPacket(sid, c, ratcheted, false, env, from, d);
        return if !ok then Rejected else if indexed then Known else Refreshed;
      }
      if indexed {
        return Rejected;
      }
      var recovered := manager.RecoverSessionByTag(env.recoverOrder, d.tag, from.ip, env.tw);
      if recovered.Some? {
        var (sid, c, ratcheted) := recovered.value;
        manager.ViewAt(sid);
        if sid !in manager.sessions {
          return Rejected;
        }
        var _ := FinishPacket(sid, c, ratcheted, false, env, from, d);
        return Recovered(sid);
      }
      path := DoHandshake(env, from, d);
    }
  }
}
