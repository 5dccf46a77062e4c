/** When a source's handshakes are refused unread: from the history of its failed ones. */
module Cooldowns {
  import opened Wrappers
  import opened Crypto
  import opened Datagram
  import opened Session
  import opened SessionTable
  import opened TableInvariants
  import opened AddressMap
  import opened Gateway
  import opened GatewayInvariants
  import opened PacketRuns
  import SR = ServerRuns

  /** The packet was tried against the registered clients, and none matched. */
  predicate Fails(g: State, e: Event, ip: Ip)
    requires e.Packet? ==> EnoughDraws(e.cfg, e.env)
  {
    && e.Packet? && e.from.ip == ip && e.cfg.clients.Some?
    && ReachesHandshake(g, e.env, e.from, e.d) && Step(g, e).1.Rejected?
  }

  predicate Succeeds(g: State, e: Event, ip: Ip)
    requires e.Packet? ==> EnoughDraws(e.cfg, e.env)
  {
    e.Packet? && e.from.ip == ip && Step(g, e).1.Established?
  }

  /** The failed handshakes of an address since it last opened a session, and when the last was. */
  ghost function Failures(states: seq<State>, events: seq<Event>, ip: Ip, n: nat): (nat, nat)
    requires IsRun(states, events) && n <= |events|
  {
    if n == 0 then (0, 0)
    else
      var (g, e) := (states[n - 1], events[n - 1]);
      if Succeeds(g, e, ip) then (0, 0)
      else if Fails(g, e, ip) then (Failures(states, events, ip, n - 1).0 + 1, e.env.now)
      else Failures(states, events, ip, n - 1)
  }

  /** Half a second after the first failure, doubled by each further one, four seconds at most. */
  predicate Waiting(failures: (nat, nat), now: nat) {
    && failures.0 > 0
    && now < failures.1 + (if failures.0 == 1 then 500 else if failures.0 == 2 then 1000
                           else if failures.0 == 3 then 2000 else 4000)
  }

  // ---- One step ------------------------------------------------------------------------

  predicate Counts(g: State, ip: Ip, failures: (nat, nat)) {
    if failures.0 == 0 then ip !in g.cooldowns
    else ip in g.cooldowns && g.cooldowns[ip] == Cooldown(failures.0, failures.1)
  }

  /** What a handshake does to the counts: a match forgets the source's, no match adds one. */
  lemma HandshakeCounts(g: State, cfg: Config, env: Env, from: Addr, d: Datagram, ip: Ip, before: (nat, nat))
    requires AllAgree(g.table, Basic) && EnoughDraws(cfg, env)
    requires Attempts(g, env, from, d) ==> FreshDraws(g.table, env)
    requires Counts(g, ip, before)
    ensures var (g', path) := Handshake(g, cfg, env, from, d);
            Counts(g', ip,
                   if from.ip == ip && path.Established? then (0, 0)
                   else if from.ip == ip && cfg.clients.Some? && Attempts(g, env, from, d) && path.Rejected?
                   then (before.0 + 1, env.now) else before)
  {
    hide AllAgree, Attempt, Attempts, Handshake, FreshDraws;
    if !Attempts(g, env, from, d) {
      NotTried(g, cfg, env, from, d);
    } else if Attempt(g.table, cfg, env, from, d).1.Some? {
      MatchForgets(g, cfg, env, from, d);
    } else {
      NoMatchCounts(g, cfg, env, from, d);
    }
  }

  lemma MatchForgets(g: State, cfg: Config, env: Env, from: Addr, d: Datagram)
    requires AllAgree(g.table, Basic) && EnoughDraws(cfg, env) && FreshDraws(g.table, env)
    requires Attempts(g, env, from, d) && Attempt(g.table, cfg, env, from, d).1.Some?
    ensures var (g', path) := Handshake(g, cfg, env, from, d);
            path.Established? && g'.cooldowns == g.cooldowns - {from.ip}
  {
    hide AllAgree, OneAdded, Attempt, Covers, BuiltFor, Insert, Attempts, FailedTags, Shares, Handshake,
         MayMatch, SessionState.ValidateTag;
    Inverse(g.table, Basic);
    var m := AttemptOutcome(g.table, cfg, env, from, d);
    var lost := FailedTags(g.table, cfg, env, from, d);
    LosingKeeps(g.table, Basic, lost, g.table.nextOctet);
    MatchEstablishes(g, g.table.(tagMap := g.table.tagMap - lost), Basic, cfg, env, from, d, m);
  }

  lemma NoMatchCounts(g: State, cfg: Config, env: Env, from: Addr, d: Datagram)
    requires EnoughDraws(cfg, env) && Attempts(g, env, from, d) && Attempt(g.table, cfg, env, from, d).1.None?
    ensures var (g', path) := Handshake(g, cfg, env, from, d);
            var failed := if from.ip in g.cooldowns then g.cooldowns[from.ip].failures else 0;
            && path == Rejected
            && g'.cooldowns
               == if cfg.clients.Some? then g.cooldowns[from.ip := Cooldown(failed + 1, env.now)] else g.cooldowns
  {
    hide Attempt, Attempts;
  }

  lemma StepCounts(g: State, e: Event, ip: Ip, before: (nat, nat))
    requires AllAgree(g.table, Basic) && Fresh(g, e) && Counts(g, ip, before)
    ensures Counts(Step(g, e).0, ip,
                   if Succeeds(g, e, ip) then (0, 0) else if Fails(g, e, ip) then (before.0 + 1, e.env.now) else before)
  {
    hide AllAgree, FreshDraws, HandlePacket, ReachesHandshake;
    if e.Packet? {
      PacketCounts(g, e.cfg, e.env, e.from, e.d, ip, before);
    }
  }

  lemma PacketCounts(g: State, cfg: Config, env: Env, from: Addr, d: Datagram, ip: Ip, before: (nat, nat))
    requires AllAgree(g.table, Basic) && Fresh(g, Packet(cfg, env, from, d)) && Counts(g, ip, before)
    ensures var (g', path) := HandlePacket(g, cfg, env, from, d);
            Counts(g', ip,
                   if from.ip == ip && path.Established? then (0, 0)
                   else if from.ip == ip && cfg.clients.Some? && ReachesHandshake(g, env, from, d) && path.Rejected?
                   then (before.0 + 1, env.now) else before)
  {
    hide AllAgree, FreshDraws, Lookup, RecoverByTag, Finish, Handshake, Attempts;
    if d.size >= TAG_SIZE + 2 && GetByTag(g.table, d.tag).None? {
      var (t1, found) := Lookup(g.table, env.refreshOrder, d.tag, env.tw);
      if found.None? && RecoverByTag(t1, env.recoverOrder, d.tag, from.ip, env.tw).1.None? {
        LookupIsOk(g.table, Basic, env.refreshOrder, d.tag, env.tw);
        HandsOver(g, cfg, env, from, d);
        if Attempts(g, env, from, d) {
          QuietKeepsFresh(g.table, t1, env);
        }
        HandshakeCounts(AfterLookup(g, env, d), cfg, env, from, d, ip, before);
      }
    }
  }

  // ---- Every run -------------------------------------------------------------------------

  lemma {:induction false} FailuresAreCounted(states: seq<State>, events: seq<Event>, ip: Ip, n: nat)
    requires IsRun(states, events) && states[0] == EmptyState && n <= |events|
    ensures Counts(states[n], ip, Failures(states, events, ip, n))
    decreases n
  {
    hide Step, FreshDraws, ReachesHandshake, Counts, Succeeds, Fails, AllAgree;
    if n == 0 {
      NothingCounted(ip);
    } else {
      FailuresAreCounted(states, events, ip, n - 1);
      SR.BasicAt(states, events, n - 1);
      assert states[n] == Step(states[n - 1], events[n - 1]).0;
      StepCounts(states[n - 1], events[n - 1], ip, Failures(states, events, ip, n - 1));
    }
  }

  lemma NothingCounted(ip: Ip)
    ensures Counts(EmptyState, ip, (0, 0))
  {}

  /** Over every run, a packet that no session takes is tried against the clients exactly when it has
      room for a key and its source is not waiting after failed handshakes; one that is not tried
      changes nothing but the refreshed tags, and is not counted. */
  lemma RefusedExactly(states: seq<State>, events: seq<Event>, n: nat)
    requires IsRun(states, events) && states[0] == EmptyState && n < |events| && events[n].Packet?
    requires var (g, e) := (states[n], events[n]);
             var (t1, found) := Lookup(g.table, e.env.refreshOrder, e.d.tag, e.env.tw);
             && e.d.size >= 10 && GetByTag(g.table, e.d.tag).None? && found.None?
             && RecoverByTag(t1, e.env.recoverOrder, e.d.tag, e.from.ip, e.env.tw).1.None?
    ensures var (g, e) := (states[n], events[n]);
            var refused := e.d.size < 44 || Waiting(Failures(states, events, e.from.ip, n), e.env.now);
            && (ReachesHandshake(g, e.env, e.from, e.d) <==> !refused)
            && (refused ==> Step(g, e) == (AfterLookup(g, e.env, e.d), Rejected))
  {
    hide AllAgree, FreshDraws, Lookup, RecoverByTag, Handshake, Failures;
    var (g, e) := (states[n], events[n]);
    FailuresAreCounted(states, events, e.from.ip, n);
    HandsOver(g, e.cfg, e.env, e.from, e.d);
    if !ReachesHandshake(g, e.env, e.from, e.d) {
      NotTried(AfterLookup(g, e.env, e.d), e.cfg, e.env, e.from, e.d);
    }
  }

  lemma NotTried(g: State, cfg: Config, env: Env, from: Addr, d: Datagram)
    requires EnoughDraws(cfg, env) && !Attempts(g, env, from, d)
    ensures Handshake(g, cfg, env, from, d) == (g, Rejected)
  {}
}
