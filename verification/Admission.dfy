/** Which sources a session is opened, reused or recovered for: limits and addresses over every run. */
module Admission {
  import opened Wrappers
  import opened Crypto
  import opened Datagram
  import opened Session
  import opened SessionTable
  import opened TableInvariants
  import opened AddressMap
  import opened Gateway
  import opened GatewayInvariants
  import opened PacketRuns
  import opened ServerRuns
  import SR = SessionRun
  import Handshakes

  // ---- Limits ------------------------------------------------------------------------------

  /** There is room for one more session: fewer than 500 in all, fewer than 5 of this source. */
  predicate Room(t: Table, from: Ip) {
    |t.sessions| < 500 && |set sid | sid in t.sessions && t.sessions[sid].addr.ip == from| < 5
  }

  lemma LimitsAreRoom(t: Table, from: Ip)
    ensures WithinLimits(t, from) <==> Room(t, from)
  {
    assert SessionsFrom(t, from) == set sid | sid in t.sessions && t.sessions[sid].addr.ip == from;
  }

  /** A step opens a session only where there is room, and then only that one. */
  lemma OpeningHasRoom(g: State, e: Event)
    requires AllAgree(g.table, Basic) && Fresh(g, e)
    ensures Step(g, e).1.Established? ==> e.Packet? && Room(g.table, e.from.ip)
    ensures |Step(g, e).0.table.sessions| <= |g.table.sessions| + (if Step(g, e).1.Established? then 1 else 0)
  {
    hide AllAgree, FreshDraws, ReachesHandshake, HandlePacket, Room;
    if Step(g, e).1.Established? {
      OpeningPacket(g, e.cfg, e.env, e.from, e.d);
      LimitsAreRoom(g.table, e.from.ip);
    }
    var g', path := Step(g, e).0, Step(g, e).1;
    var added := if path.Established? then {path.sid} else {};
    forall sid | sid in g'.table.sessions
      ensures sid in g.table.sessions.Keys + added
    {
      LiveAfter(g, e, sid);
    }
    Fewer(g'.table.sessions.Keys, g.table.sessions.Keys + added);
    assert |g'.table.sessions| == |g'.table.sessions.Keys| && |g.table.sessions| == |g.table.sessions.Keys|;
  }

  lemma Fewer(a: set<Sid>, b: set<Sid>)
    requires a <= b
    ensures |a| <= |b|
  {
    assert b == a + (b - a);
  }

  lemma OpeningPacket(g: State, cfg: Config, env: Env, from: Addr, d: Datagram)
    requires AllAgree(g.table, Basic) && Fresh(g, Packet(cfg, env, from, d))
    requires HandlePacket(g, cfg, env, from, d).1.Established?
    ensures WithinLimits(g.table, from.ip)
  {
    hide AllAgree, FreshDraws, Lookup, RecoverByTag, Finish, Attempt, BuiltFor, Insert, MayMatch, Covers, FailedTags,
         Establish, Rollback, WithinLimits, SessionState.ValidateTag;
    LookupIsOk(g.table, Basic, env.refreshOrder, d.tag, env.tw);
    var g1 := AfterLookup(g, env, d);
    HandsOver(g, cfg, env, from, d);
    QuietKeepsFresh(g.table, g1.table, env);
    Inverse(g1.table, Basic);
    var m := AttemptOutcome(g1.table, cfg, env, from, d);
    QuietKeepsLimits(g1.table, g.table, from.ip) by {
      QuietBack(g.table, g1.table);
    }
  }

  lemma QuietBack(t: Table, t': Table)
    requires SameButIndex(t, t')
    ensures SameButIndex(t', t)
  {}

  lemma QuietKeepsLimits(t: Table, t': Table, from: Ip)
    requires SameButIndex(t, t') && WithinLimits(t, from)
    ensures WithinLimits(t', from)
  {
    Handshakes.QuietKeepsLimits(t, t', from);
  }

  /** Over every run there are at most 500 sessions, and each was opened while its source had fewer
      than five. */
  lemma {:induction false} NeverCrowded(states: seq<State>, events: seq<Event>, n: nat)
    requires IsRun(states, events) && states[0] == EmptyState && n <= |events|
    ensures |states[n].table.sessions| <= 500
    ensures n > 0 && Step(states[n - 1], events[n - 1]).1.Established? ==>
              events[n - 1].Packet? && Room(states[n - 1].table, events[n - 1].from.ip)
    decreases n
  {
    hide Step, FreshDraws, ReachesHandshake, AllAgree;
    if n > 0 {
      NeverCrowded(states, events, n - 1);
      BasicAt(states, events, n - 1);
      assert states[n] == Step(states[n - 1], events[n - 1]).0;
      OpeningHasRoom(states[n - 1], events[n - 1]);
    }
  }

  // ---- Addresses ---------------------------------------------------------------------------

  /** Some live session of this source has the address. */
  predicate InUse(t: Table, from: Ip, ip: Ip) {
    exists sid :: sid in t.sessions && t.sessions[sid].addr.ip == from && t.sessions[sid].vpnIp == Some(ip)
  }

  /** A registered client gets its own address; anyone else the address of a live session of the
      same source, if one has any, and otherwise the next of 10.0.0.2 to 10.0.0.254. */
  lemma AddressChosen(t: Table, order: seq<Sid>, from: Ip, staticIp: Option<Ip>)
    requires Covers(order, t)
    ensures var (chosen, next) := ChooseIp(t, order, from, staticIp);
            if staticIp.Some? then chosen == staticIp && next == t.nextOctet
            else if exists ip :: InUse(t, from, ip) then
              chosen.Some? && InUse(t, from, chosen.value) && next == t.nextOctet
            else
              && chosen == (if t.nextOctet < 255 then Some(Ip(10, 0, 0, t.nextOctet)) else None)
              && next == (t.nextOctet + 1) % 0x1_0000_0000
  {
    hide Find, Covers, InUse;
    var found := Find(order, t, Reusable(from));
    if found.Some? {
      ReusableInUse(t, order, from);
    } else {
      NothingInUse(t, order, from);
    }
  }

  lemma ReusableInUse(t: Table, order: seq<Sid>, from: Ip)
    requires Find(order, t, Reusable(from)).Some?
    ensures var sid := Find(order, t, Reusable(from)).value;
            sid in t.sessions && t.sessions[sid].vpnIp.Some? && InUse(t, from, t.sessions[sid].vpnIp.value)
  {
    FindSpec(order, t, Reusable(from));
  }

  lemma NothingInUse(t: Table, order: seq<Sid>, from: Ip)
    requires Covers(order, t) && Find(order, t, Reusable(from)).None?
    ensures forall ip :: !InUse(t, from, ip)
  {
    FindSpec(order, t, Reusable(from));
  }

  // ---- Recovery ----------------------------------------------------------------------------

  /** A session of this source whose current key gives the tag, of a near time window, with the
      highest counter it received or one 256 to 65535 above it. */
  predicate Drifted(s: SessionState, from: Ip, tag: Tag, tw: nat) {
    && s.addr.ip == from && tag.secret == s.keys.tagSecret && NearWindow(tw, tag.window)
    && ((tag.counter == s.counter && 0 in s.bits) || s.counter + 256 <= tag.counter < s.counter + 65536)
  }

  /** A packet whose tag no session takes recovers exactly a session of its own source that has
      drifted. */
  lemma RecoveredExactly(g: State, cfg: Config, env: Env, from: Addr, d: Datagram)
    requires AllAgree(g.table, Basic) && EnoughDraws(cfg, env) && d.size >= TAG_SIZE + 2
    requires Covers(env.refreshOrder, g.table) && Covers(env.recoverOrder, g.table)
    requires GetByTag(g.table, d.tag).None? && Lookup(g.table, env.refreshOrder, d.tag, env.tw).1.None?
    ensures var (path, t) := (HandlePacket(g, cfg, env, from, d).1, g.table);
            && (path.Recovered? ==> path.sid in t.sessions && Drifted(t.sessions[path.sid], from.ip, d.tag, env.tw))
            && (path.Recovered? <==>
                  exists sid :: sid in t.sessions && Drifted(t.sessions[sid], from.ip, d.tag, env.tw))
  {
    hide AllAgree, Lookup, Finish, Handshake, Wanted.Matches, Drifted, SessionState.Recover;
    var t1 := Lookup(g.table, env.refreshOrder, d.tag, env.tw).0;
    var w := Recoverable(from.ip, d.tag, env.tw);
    LookupIsQuiet(g.table, env.refreshOrder, d.tag, env.tw);
    FindSpec(env.recoverOrder, t1, w);
    NeverRecoveredThere(g.(table := t1), cfg, env, from, d);
    forall sid | sid in g.table.sessions
      ensures w.Matches(t1.sessions[sid]) <==> Drifted(g.table.sessions[sid], from.ip, d.tag, env.tw)
    {
      DriftedMatches(g, env, from, d, sid);
    }
    if sid :| sid in g.table.sessions && Drifted(g.table.sessions[sid], from.ip, d.tag, env.tw) {
      CoversHas(g.table, env.recoverOrder, sid);
    }
  }

  lemma NeverRecoveredThere(g: State, cfg: Config, env: Env, from: Addr, d: Datagram)
    requires EnoughDraws(cfg, env)
    ensures !Handshake(g, cfg, env, from, d).1.Recovered?
  {
    hide Attempts, Attempt, Establish, Finish, Rollback, SessionState.ValidateTag;
  }

  lemma DriftedMatches(g: State, env: Env, from: Addr, d: Datagram, sid: Sid)
    requires AllAgree(g.table, Basic) && Covers(env.refreshOrder, g.table) && sid in g.table.sessions
    requires GetByTag(g.table, d.tag).None? && Lookup(g.table, env.refreshOrder, d.tag, env.tw).1.None?
    ensures var t1 := Lookup(g.table, env.refreshOrder, d.tag, env.tw).0;
            sid in t1.sessions
            && (Recoverable(from.ip, d.tag, env.tw).Matches(t1.sessions[sid]) <==>
                Drifted(g.table.sessions[sid], from.ip, d.tag, env.tw))
  {
    hide AllAgree, Lookup, WindowExact, SessionState.ValidateTag, SessionState.Refreshed, Wanted.Matches, Drifted,
         SameButTags;
    WindowOf(g.table, Basic, sid);
    MissedBefore(g.table, env.refreshOrder, d.tag, env.tw, sid);
    RefreshTwice(g.table.sessions[sid], env.tw);
    LookupIsQuiet(g.table, env.refreshOrder, d.tag, env.tw);
    MissedMatches(g.table.sessions[sid], Lookup(g.table, env.refreshOrder, d.tag, env.tw).0.sessions[sid], from.ip,
                  d.tag, env.tw);
  }

  lemma MissedMatches(s: SessionState, s': SessionState, from: Ip, tag: Tag, tw: nat)
    requires WindowExact(s) && SameButTags(s, s') && s.Refreshed(tw).ValidateTag(tag, tw).None?
    ensures Recoverable(from, tag, tw).Matches(s') <==> Drifted(s, from, tag, tw)
  {
    hide WindowExact, SessionState.ValidateTag, SessionState.Refreshed;
    SR.RecoverableExactly(Begin(s), tag, tw);
  }
}
