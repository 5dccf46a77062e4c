/** The server as one sender: when it seals or accepts one (session key, counter) pair twice, over
    all its sessions.

    The first keys of a session are fixed by the server's identity, the pre-shared key and the
    ephemeral key in the packet; they come again when that packet opens a session again. */
module KeyReuse {
  import opened Wrappers
  import opened Logs
  import opened Crypto
  import opened Datagram
  import opened Session
  import opened SessionTable
  import opened Gateway
  import opened GatewayInvariants
  import opened PacketRuns
  import opened ServerRuns
  import Handshakes
  import TableInvariants
  import AddressMap
  import SR = SessionRun

  // ---- First keys ------------------------------------------------------------------------

  /** The pre-shared keys registered when a packet arrives are raw bytes, not derived keys. */
  predicate RawKeys(e: Event) {
    e.Packet? && e.cfg.clients.Some? ==>
      forall i :: 0 <= i < |e.cfg.clients.value| ==> e.cfg.clients.value[i].psk.Raw?
  }

  predicate AllRaw(events: seq<Event>) {
    forall i :: 0 <= i < |events| ==> RawKeys(events[i])
  }

  predicate IsFirst(k: Key) {
    k.Derived? && (k.psk.Some? ==> k.psk.value.Raw?)
  }

  /** The first key of the session a key belongs to. */
  function RootOf(k: Key): Key {
    if k.Derived? && k.psk.Some? && k.psk.value.Derived? then k.psk.value else k
  }

  /** First keys are the same exactly for the same ephemeral key and the same pre-shared key. */
  lemma SameFirstKey(id: Identity, eph: Pub, psk: Option<Key>, eph': Pub, psk': Option<Key>)
    requires ComputeShared(id.scalar, eph).Some? && ComputeShared(id.scalar, eph').Some?
    ensures var k := DeriveSessionKeys(ComputeShared(id.scalar, eph).value, psk, eph).sessionKey;
            var k' := DeriveSessionKeys(ComputeShared(id.scalar, eph').value, psk', eph').sessionKey;
            k == k' <==> eph == eph' && psk == psk'
  {}

  /** A session on its first keys, with next keys derived from them, or on such next keys. */
  predicate Chained(s: SessionState) {
    var k := s.keys.sessionKey;
    match s.ratchetedKeys
    case Some(next) => IsFirst(k) && next.sessionKey.Derived? && next.sessionKey.psk == Some(k)
    case None => k.Derived? && k.psk.Some? && IsFirst(k.psk.value)
  }

  function Root(s: SessionState): Key { RootOf(s.keys.sessionKey) }

  lemma NewbornIsChained(s: SessionState, e: Event, m: Match)
    requires IsNewborn(s, e, m) && RawKeys(e)
    ensures Chained(s) && Root(s) == s.keys.sessionKey
  {
    NewbornIsExact(s, e, m);
  }

  /** A session keeps its root, and seals and accepts only under keys of that root. */
  lemma StepKeepsRoot(r: SR.Run, e: SR.Event, root: Key)
    requires WindowExact(r.s) && Chained(r.s) && Root(r.s) == root
    requires forall p :: p in r.sent || p in r.accepted ==> RootOf(p.0) == root
    ensures var x := r.Step(e);
            && WindowExact(x.s) && Chained(x.s) && Root(x.s) == root
            && (forall p :: p in x.sent || p in x.accepted ==> RootOf(p.0) == root)
  {
    hide WindowExact, SessionState.Accept, SessionState.ValidateTag, TagsFor, RootOf, Chained;
    SR.StepKeepsWindow(r, e);
    match e
    case Send => SameKeysSameRoot(r.s, r.s.NextSend());
    case Refresh(tw) => SameKeysSameRoot(r.s, r.s.UpdateTagWindow(tw).UpdateRatchetedTagWindow(tw));
    case Receive(d, isNew, from, tw) =>
      var v := r.s.ValidateTag(d.tag, tw);
      if v.Some? {
        AcceptKeepsRoot(r.s, d, v.value.0, v.value.1, isNew, from, tw);
      }
    case Recovered(d, from, tw) =>
      var s := r.s.Recover(d.tag.counter, tw);
      SameKeysSameRoot(r.s, s);
      RecoverKeepsWindow(r.s, d.tag.counter, tw);
      AcceptKeepsRoot(s, d, d.tag.counter, false, false, from, tw);
  }

  lemma SameKeysSameRoot(s: SessionState, s': SessionState)
    requires Chained(s) && s'.keys == s.keys && s'.ratchetedKeys == s.ratchetedKeys
    ensures Chained(s') && Root(s') == Root(s)
  {}

  lemma AcceptKeepsRoot(s: SessionState, d: Datagram, c: nat, ratcheted: bool, isNew: bool, from: Addr, tw: nat)
    requires WindowExact(s) && Chained(s)
    ensures var s' := s.Accept(d, c, ratcheted, isNew, from, tw).0; Chained(s') && Root(s') == Root(s)
  {
    hide WindowExact, SessionState.Accept, SessionState.Opens;
    AcceptAndKeys(s, d, c, ratcheted, isNew, from, tw);
  }

  lemma {:induction false} ExtendKeepsRoot(s: SessionState, es: seq<SR.Event>)
    requires WindowExact(s) && Chained(s)
    ensures var x := SR.Extend(Begin(s), es);
            && WindowExact(x.s) && Chained(x.s) && Root(x.s) == Root(s)
            && (forall p :: p in x.sent || p in x.accepted ==> RootOf(p.0) == Root(s))
    decreases |es|
  {
    hide WindowExact, Chained, RootOf, SR.Run.Step;
    if es != [] {
      ExtendKeepsRoot(s, es[..|es| - 1]);
      StepKeepsRoot(SR.Extend(Begin(s), es[..|es| - 1]), es[|es| - 1], Root(s));
    }
  }

  // ---- The log of the whole server ----------------------------------------------------------

  function Pair(entry: Option<(Sid, Key, nat)>): seq<(Key, nat)> {
    if entry.Some? then [(entry.value.1, entry.value.2)] else []
  }

  /** All pairs sealed in the first `n` steps, in order. */
  ghost function SealLog(states: seq<State>, events: seq<Event>, n: nat): seq<(Key, nat)>
    requires IsRun(states, events) && n <= |events|
  {
    if n == 0 then [] else SealLog(states, events, n - 1) + Pair(Seals(states[n - 1], events[n - 1]))
  }

  /** The session key of the ServerHello, if the step opened a session. */
  ghost function FirstKey(g: State, e: Event): seq<Key>
    requires Fresh(g, e)
  {
    if Step(g, e).1.Established? && Seals(g, e).Some? then [Seals(g, e).value.1] else []
  }

  /** The first keys of all sessions opened in the first `n` steps, in order. */
  ghost function FirstKeys(states: seq<State>, events: seq<Event>, n: nat): seq<Key>
    requires IsRun(states, events) && n <= |events|
  {
    if n == 0 then [] else FirstKeys(states, events, n - 1) + FirstKey(states[n - 1], events[n - 1])
  }

  // ---- What holds while no first key has come twice -------------------------------------------

  ghost predicate Tracked(s: SessionState, log: seq<(Key, nat)>, roots: seq<Key>) {
    WindowExact(s) && Chained(s) && Root(s) in roots && SR.SentBelow(SR.Run(s, [], log))
  }

  ghost predicate RootsApart(t: Table) {
    forall a, b :: a in t.sessions && b in t.sessions && a != b ==> Root(t.sessions[a]) != Root(t.sessions[b])
  }

  ghost predicate Separate(t: Table, log: seq<(Key, nat)>, roots: seq<Key>) {
    && NoRepeats(log)
    && (forall p :: p in log ==> RootOf(p.0) in roots)
    && (forall sid :: sid in t.sessions ==> Tracked(t.sessions[sid], log, roots))
    && RootsApart(t)
  }

  /** How one session of the step's outcome came about: from a session of the same root before, or
      newly opened with a root that was not there; `own` is what it sealed in the step. */
  ghost predicate CameFrom(t: Table, log: seq<(Key, nat)>, roots: seq<Key>, sid: Sid, s': SessionState,
                           own: seq<(Key, nat)>, first: seq<Key>) {
    && WindowExact(s') && Chained(s') && SR.SentBelow(SR.Run(s', [], log + own))
    && (forall p :: p in own ==> RootOf(p.0) == Root(s'))
    && (if sid in t.sessions then Root(s') == Root(t.sessions[sid]) else Root(s') !in roots && first == [Root(s')])
  }

  lemma StayedOn(g: State, e: Event, log: seq<(Key, nat)>, roots: seq<Key>, sid: Sid)
    requires AllAgree(g.table, Basic) && Fresh(g, e) && Separate(g.table, log, roots)
    requires sid in g.table.sessions && sid in Step(g, e).0.table.sessions
    ensures CameFrom(g.table, log, roots, sid, Step(g, e).0.table.sessions[sid], Own(Seals(g, e), sid), FirstKey(g, e))
  {
    hide AllAgree, FreshDraws, ReachesHandshake, Step, Seals, Accepts, WindowExact, Chained, RootOf, RootsApart,
         SR.SentBelow, FirstKey;
    var s := g.table.sessions[sid];
    assert Tracked(s, log, roots);
    var es := StepIsRun(g, e, sid);
    ExtendKeepsRoot(s, es);
    SR.ExtendKeepsNonces(SR.Run(s, [], log), es);
    SR.LogsCollect(SR.Run(s, [], log), es);
    LogOfAcceptedIsIrrelevant(SR.Extend(SR.Run(s, [], log), es));
  }

  lemma LogOfAcceptedIsIrrelevant(r: SR.Run)
    requires SR.SentBelow(r)
    ensures SR.SentBelow(SR.Run(r.s, [], r.sent))
  {}

  lemma CameNew(g: State, e: Event, log: seq<(Key, nat)>, roots: seq<Key>)
    requires AllAgree(g.table, Basic) && Fresh(g, e) && Separate(g.table, log, roots) && RawKeys(e)
    requires Step(g, e).1.Established? && NoRepeats(roots + FirstKey(g, e))
    ensures var (g', path) := Step(g, e);
            && path.sid in g'.table.sessions && path.sid !in g.table.sessions
            && Seals(g, e).Some? && Seals(g, e).value.0 == path.sid
            && CameFrom(g.table, log, roots, path.sid, g'.table.sessions[path.sid], Own(Seals(g, e), path.sid),
                        FirstKey(g, e))
  {
    hide AllAgree, FreshDraws, ReachesHandshake, Step, Seals, Accepts, WindowExact, Chained, RootOf, RootsApart,
         SR.SentBelow, IsNewborn, Tracked;
    var m, s, es := BirthIsRun(g, e);
    NewbornIsExact(s, e, m);
    NewbornIsChained(s, e, m);
    LastIsNew(roots, s.keys.sessionKey);
    ExtendKeepsRoot(s, es);
    UnusedIsBelow(s, log, roots);
    SR.ExtendKeepsNonces(SR.Run(s, [], log), es);
    SR.LogsCollect(SR.Run(s, [], log), es);
    LogOfAcceptedIsIrrelevant(SR.Extend(SR.Run(s, [], log), es));
  }

  /** Under a root that was never used nothing was sealed. */
  lemma UnusedIsBelow(s: SessionState, log: seq<(Key, nat)>, roots: seq<Key>)
    requires NoRepeats(log) && (forall p :: p in log ==> RootOf(p.0) in roots) && Chained(s) && Root(s) !in roots
    ensures SR.SentBelow(SR.Run(s, [], log))
  {}

  /** Sealing under another root does not concern a session. */
  lemma OtherSeals(s: SessionState, log: seq<(Key, nat)>, p: (Key, nat))
    requires Chained(s) && SR.SentBelow(SR.Run(s, [], log)) && NoRepeats(log + [p]) && RootOf(p.0) != Root(s)
    ensures SR.SentBelow(SR.Run(s, [], log + [p]))
  {}

  // ---- One step ---------------------------------------------------------------------------------

  lemma SeparateStep(g: State, e: Event, log: seq<(Key, nat)>, roots: seq<Key>)
    requires AllAgree(g.table, Basic) && Fresh(g, e) && Separate(g.table, log, roots) && RawKeys(e)
    requires NoRepeats(roots + FirstKey(g, e))
    ensures Separate(Step(g, e).0.table, log + Pair(Seals(g, e)), roots + FirstKey(g, e))
  {
    hide AllAgree, FreshDraws, ReachesHandshake, Step, Seals, CameFrom, Tracked, RootsApart, FirstKey, RootOf,
         NoRepeats;
    var t' := Step(g, e).0.table;
    var own, first := Seals(g, e), FirstKey(g, e);
    StepCameFrom(g, e, log, roots);
    SealedIsNew(g, e, log, roots);
    StayApart(g, e, log, roots);
    forall sid | sid in t'.sessions
      ensures Tracked(t'.sessions[sid], log + Pair(own), roots + first)
    {
      SealerElsewhere(g, e, log, roots, sid);
      TrackedAfter(g.table, log, roots, sid, t'.sessions[sid], own, first);
    }
  }

  ghost predicate AllCameFrom(g: State, e: Event, log: seq<(Key, nat)>, roots: seq<Key>)
    requires Fresh(g, e)
  {
    var t' := Step(g, e).0.table;
    forall sid :: sid in t'.sessions ==>
      CameFrom(g.table, log, roots, sid, t'.sessions[sid], Own(Seals(g, e), sid), FirstKey(g, e))
  }

  lemma StepCameFrom(g: State, e: Event, log: seq<(Key, nat)>, roots: seq<Key>)
    requires AllAgree(g.table, Basic) && Fresh(g, e) && Separate(g.table, log, roots) && RawKeys(e)
    requires NoRepeats(roots + FirstKey(g, e))
    ensures AllCameFrom(g, e, log, roots)
  {
    hide AllAgree, FreshDraws, ReachesHandshake, Step, Seals, CameFrom, Separate, FirstKey, RootOf, NoRepeats;
    var t' := Step(g, e).0.table;
    forall sid | sid in t'.sessions
      ensures CameFrom(g.table, log, roots, sid, t'.sessions[sid], Own(Seals(g, e), sid), FirstKey(g, e))
    {
      LiveAfter(g, e, sid);
      if sid in g.table.sessions {
        StayedOn(g, e, log, roots, sid);
      } else {
        CameNew(g, e, log, roots);
      }
    }
  }

  lemma StayApart(g: State, e: Event, log: seq<(Key, nat)>, roots: seq<Key>)
    requires AllAgree(g.table, Basic) && Fresh(g, e) && Separate(g.table, log, roots) && AllCameFrom(g, e, log, roots)
    ensures RootsApart(Step(g, e).0.table)
  {
    hide AllAgree, FreshDraws, ReachesHandshake, Step, Seals, FirstKey, RootOf, WindowExact, Chained, SR.SentBelow;
    var t' := Step(g, e).0.table;
    forall a, b | a in t'.sessions && b in t'.sessions && a != b
      ensures Root(t'.sessions[a]) != Root(t'.sessions[b])
    {
      LiveAfter(g, e, a);
      LiveAfter(g, e, b);
      RootAfter(g, e, log, roots, a);
      RootAfter(g, e, log, roots, b);
    }
  }

  lemma RootAfter(g: State, e: Event, log: seq<(Key, nat)>, roots: seq<Key>, sid: Sid)
    requires Fresh(g, e) && Separate(g.table, log, roots) && AllCameFrom(g, e, log, roots)
    requires sid in Step(g, e).0.table.sessions
    ensures var s' := Step(g, e).0.table.sessions[sid];
            if sid in g.table.sessions then Root(s') == Root(g.table.sessions[sid]) && Root(s') in roots
            else Root(s') !in roots
  {
    hide FreshDraws, ReachesHandshake, Step, Seals, FirstKey, RootOf, WindowExact, Chained, SR.SentBelow, RootsApart;
    if sid in g.table.sessions {
      assert Tracked(g.table.sessions[sid], log, roots);
    }
  }

  /** Whoever sealed in the step, if it was another session it was under another root. */
  lemma SealerElsewhere(g: State, e: Event, log: seq<(Key, nat)>, roots: seq<Key>, sid: Sid)
    requires AllAgree(g.table, Basic) && Fresh(g, e) && Separate(g.table, log, roots) && AllCameFrom(g, e, log, roots)
    requires sid in Step(g, e).0.table.sessions && RootsApart(Step(g, e).0.table)
    ensures var own := Seals(g, e);
            own.Some? && own.value.0 != sid ==> RootOf(own.value.1) != Root(Step(g, e).0.table.sessions[sid])
    ensures sid in g.table.sessions ==> Root(g.table.sessions[sid]) in roots
  {
    hide AllAgree, FreshDraws, ReachesHandshake, Step, Seals, FirstKey, RootOf, WindowExact, Chained, SR.SentBelow;
    RootAfter(g, e, log, roots, sid);
    var own := Seals(g, e);
    if own.Some? {
      SealerIsLive(g, e);
      var b := own.value.0;
      assert CameFrom(g.table, log, roots, b, Step(g, e).0.table.sessions[b], Own(own, b), FirstKey(g, e));
      assert (own.value.1, own.value.2) in Own(own, b);
    }
  }

  /** The pair sealed in the step was never sealed before, and is under a root of the list. */
  lemma SealedIsNew(g: State, e: Event, log: seq<(Key, nat)>, roots: seq<Key>)
    requires AllAgree(g.table, Basic) && Fresh(g, e) && Separate(g.table, log, roots)
    requires AllCameFrom(g, e, log, roots)
    ensures NoRepeats(log + Pair(Seals(g, e)))
    ensures forall p :: p in log + Pair(Seals(g, e)) ==> RootOf(p.0) in roots + FirstKey(g, e)
  {
    hide AllAgree, FreshDraws, ReachesHandshake, Step, Seals, FirstKey, RootOf, WindowExact, Chained, RootsApart;
    var own := Seals(g, e);
    if own.Some? {
      SealerIsLive(g, e);
      var b := own.value.0;
      var s' := Step(g, e).0.table.sessions[b];
      assert CameFrom(g.table, log, roots, b, s', Own(own, b), FirstKey(g, e));
      assert Pair(own) == Own(own, b);
      if b in g.table.sessions {
        assert Tracked(g.table.sessions[b], log, roots);
      }
      forall p | p in log + Pair(own)
        ensures RootOf(p.0) in roots + FirstKey(g, e)
      {
        assert p in log || p in Own(own, b);
      }
    } else {
      assert log + [] == log;
    }
  }

  lemma TrackedAfter(t: Table, log: seq<(Key, nat)>, roots: seq<Key>, sid: Sid, s': SessionState,
                     own: Option<(Sid, Key, nat)>, first: seq<Key>)
    requires CameFrom(t, log, roots, sid, s', Own(own, sid), first) && NoRepeats(log + Pair(own))
    requires sid in t.sessions ==> Root(t.sessions[sid]) in roots
    requires own.Some? && own.value.0 != sid ==> RootOf(own.value.1) != Root(s')
    ensures Tracked(s', log + Pair(own), roots + first)
  {
    hide WindowExact, Chained, RootOf, SR.SentBelow;
    if own.Some? && own.value.0 != sid {
      assert log + [] == log;
      OtherSeals(s', log, (own.value.1, own.value.2));
    } else {
      assert Pair(own) == Own(own, sid);
    }
  }

  // ---- Every run ----------------------------------------------------------------------------------

  /** As long as no first key comes twice, every session stays on keys of its own. */
  lemma {:induction false} StaySeparate(states: seq<State>, events: seq<Event>, n: nat)
    requires IsRun(states, events) && states[0] == EmptyState && AllRaw(events) && n <= |events|
    requires NoRepeats(FirstKeys(states, events, n))
    ensures Separate(states[n].table, SealLog(states, events, n), FirstKeys(states, events, n))
  {
    hide FreshDraws, ReachesHandshake, Step, Separate, FirstKey, Seals, AllAgree;
    if n == 0 {
      EmptyIsSeparate();
    } else {
      var before := FirstKeys(states, events, n - 1);
      PrefixHasNoRepeats(before, FirstKey(states[n - 1], events[n - 1]));
      StaySeparate(states, events, n - 1);
      BasicAt(states, events, n - 1);
      assert states[n - 1 + 1] == Step(states[n - 1], events[n - 1]).0;
      SeparateStep(states[n - 1], events[n - 1], SealLog(states, events, n - 1), before);
    }
  }

  lemma EmptyIsSeparate()
    ensures Separate(EmptyState.table, [], [])
  {}

  /** Each first key is in the log with counter 0, in the order the sessions were opened. */
  lemma {:induction false} FirstKeysAreSealed(states: seq<State>, events: seq<Event>, n: nat)
    requires IsRun(states, events) && states[0] == EmptyState && n <= |events|
    requires NoRepeats(SealLog(states, events, n))
    ensures forall k :: k in FirstKeys(states, events, n) ==> (k, 0) in SealLog(states, events, n)
    ensures NoRepeats(FirstKeys(states, events, n))
  {
    hide FreshDraws, ReachesHandshake, Step, Seals, AllAgree, IsNewborn;
    if n > 0 {
      var g, e := states[n - 1], events[n - 1];
      var before, log := FirstKeys(states, events, n - 1), SealLog(states, events, n - 1);
      PrefixHasNoRepeats(log, Pair(Seals(g, e)));
      FirstKeysAreSealed(states, events, n - 1);
      if Step(g, e).1.Established? {
        BasicAt(states, events, n - 1);
        var m, s, es := BirthIsRun(g, e);
        LastIsNew(log, (s.keys.sessionKey, 0));
      }
    }
  }

  lemma {:induction false} FirstKeyIsIn(states: seq<State>, events: seq<Event>, n: nat, k: Key)
    requires IsRun(states, events) && n <= |events|
    ensures k in FirstKeys(states, events, n) <==> exists i :: 0 <= i < n && FirstKey(states[i], events[i]) == [k]
  {
    hide FreshDraws, ReachesHandshake, Step, Seals;
    if n > 0 {
      FirstKeyIsIn(states, events, n - 1, k);
      var last := FirstKey(states[n - 1], events[n - 1]);
      assert k in last <==> last == [k];
    }
  }

  /** No two steps before `n` opened a session with the same first key. */
  ghost predicate OpenedOnce(states: seq<State>, events: seq<Event>, n: nat)
    requires IsRun(states, events) && n <= |events|
  {
    forall i, j :: 0 <= i < j < n && FirstKey(states[i], events[i]) != [] ==>
      FirstKey(states[i], events[i]) != FirstKey(states[j], events[j])
  }

  lemma {:induction false} FirstKeysByStep(states: seq<State>, events: seq<Event>, n: nat)
    requires IsRun(states, events) && n <= |events|
    ensures NoRepeats(FirstKeys(states, events, n)) <==> OpenedOnce(states, events, n)
  {
    hide FreshDraws, ReachesHandshake, Step, FirstKey, NoRepeats, FirstKeys;
    if n == 0 {
      NoFirstKeys(states, events);
    } else {
      FirstKeysByStep(states, events, n - 1);
      FirstKeysNext(states, events, n - 1);
      var before, last := FirstKeys(states, events, n - 1), FirstKey(states[n - 1], events[n - 1]);
      AtMostOne(states[n - 1], events[n - 1]);
      if last == [] {
        assert before + last == before;
      } else {
        FirstKeyIsIn(states, events, n - 1, last[0]);
        OneMoreRepeats(before, last[0]);
      }
    }
  }

  lemma NoFirstKeys(states: seq<State>, events: seq<Event>)
    requires IsRun(states, events)
    ensures NoRepeats(FirstKeys(states, events, 0))
  {
    hide Step, Fresh;
  }

  lemma AtMostOne(g: State, e: Event)
    requires Fresh(g, e)
    ensures FirstKey(g, e) == [] || FirstKey(g, e) == [FirstKey(g, e)[0]]
  {
    hide Step, Seals, FreshDraws, ReachesHandshake;
  }

  /** Over every run of the server, one session key seals with one counter twice if and only if
      two sessions were opened with the same first key. */
  lemma ServerNoncesExactly(states: seq<State>, events: seq<Event>)
    requires IsRun(states, events) && states[0] == EmptyState && AllRaw(events)
    ensures NoRepeats(SealLog(states, events, |events|)) <==> OpenedOnce(states, events, |events|)
  {
    hide FreshDraws, ReachesHandshake, Step, FirstKey, Seals, OpenedOnce;
    FirstKeysByStep(states, events, |events|);
    if NoRepeats(FirstKeys(states, events, |events|)) {
      StaySeparate(states, events, |events|);
    }
    if NoRepeats(SealLog(states, events, |events|)) {
      FirstKeysAreSealed(states, events, |events|);
    }
  }

  /** The first key of a session in terms of the packet that opened it, so that two are the same
      exactly when the packets had the same ephemeral key and matched the same pre-shared key. */
  lemma FirstKeyOfStep(g: State, e: Event) returns (psk: Option<Key>)
    requires AllAgree(g.table, Basic) && Fresh(g, e) && Step(g, e).1.Established?
    ensures var (g', path) := Step(g, e);
            var dh := ComputeShared(e.cfg.id.scalar, e.d.eph);
            && path.sid in g'.table.sessions && MayMatch(e.cfg, psk, g'.table.sessions[path.sid].clientId)
            && dh.Some? && FirstKey(g, e) == [DeriveSessionKeys(dh.value, psk, e.d.eph).sessionKey]
  {
    hide AllAgree, FreshDraws, ReachesHandshake, Step, Seals, MayMatch, Accepts;
    var m, s, es := BirthIsRun(g, e);
    NewbornIsExact(s, e, m);
    ClientStays(s, es);
    psk := m.psk;
  }

  lemma {:induction false} ClientStays(s: SessionState, es: seq<SR.Event>)
    ensures SR.Extend(Begin(s), es).s.clientId == s.clientId
    decreases |es|
  {
    hide SR.Run.Step;
    if es != [] {
      ClientStays(s, es[..|es| - 1]);
      ClientStaysInStep(SR.Extend(Begin(s), es[..|es| - 1]), es[|es| - 1]);
    }
  }

  lemma ClientStaysInStep(r: SR.Run, e: SR.Event)
    ensures r.Step(e).s.clientId == r.s.clientId
  {
    hide SessionState.Accept, SessionState.ValidateTag, TagsFor;
    match e
    case Receive(d, isNew, from, tw) =>
      var v := r.s.ValidateTag(d.tag, tw);
      if v.Some? {
        AcceptKeepsFields(r.s, d, v.value.0, v.value.1, isNew, from, tw);
      }
    case Recovered(d, from, tw) =>
      AcceptKeepsFields(r.s.Recover(d.tag.counter, tw), d, d.tag.counter, false, false, from, tw);
    case _ =>
  }

  // ---- Accepting twice ------------------------------------------------------------------------------

  /** What a step accepts is under the root of the session that accepts it. */
  lemma AcceptedUnderRoot(g: State, e: Event, log: seq<(Key, nat)>, roots: seq<Key>)
    requires AllAgree(g.table, Basic) && Fresh(g, e) && RawKeys(e) && Accepts(g, e).Some?
    requires Separate(g.table, log, roots)
    ensures var (sid, k, c) := Accepts(g, e).value;
            if sid in g.table.sessions then RootOf(k) == Root(g.table.sessions[sid])
            else
              var (g', path) := Step(g, e);
              path == Established(sid) && sid in g'.table.sessions && RootOf(k) == Root(g'.table.sessions[sid])
  {
    hide AllAgree, FreshDraws, ReachesHandshake, HandlePacket, Resolve, WindowExact, Chained, RootOf,
         SessionState.Accept, SR.SentBelow, RootsApart, IsNewborn;
    HandleResolves(g, e.cfg, e.env, e.from, e.d);
    var r := Resolve(g, e.cfg, e.env, e.from, e.d);
    if r.hello.Some? {
      var m, s, es := BirthIsRun(g, e);
      NewbornIsExact(s, e, m);
      NewbornIsChained(s, e, m);
      ExtendKeepsRoot(s, es);
      assert (Accepts(g, e).value.1, Accepts(g, e).value.2) in SR.Extend(Begin(s), es).accepted;
    } else {
      var es := FoundIsRun(g, e.cfg, e.env, e.from, e.d);
      assert Tracked(g.table.sessions[r.sid], log, roots);
      ExtendKeepsRoot(g.table.sessions[r.sid], es);
      FoundKeepsRoot(SR.Extend(Begin(g.table.sessions[r.sid]), es).s, r.t.sessions[r.sid]);
      AcceptKeepsRoot(r.t.sessions[r.sid], e.d, r.c, r.ratcheted, false, e.from, e.env.tw);
      AcceptKeepsKeyRoot(r.t.sessions[r.sid].Accept(e.d, r.c, r.ratcheted, false, e.from, e.env.tw).0);
    }
  }

  lemma AcceptKeepsKeyRoot(s: SessionState)
    ensures RootOf(s.keys.sessionKey) == Root(s)
  {}

  lemma FoundKeepsRoot(s: SessionState, s': SessionState)
    requires WindowExact(s) && Chained(s) && (s' == s || exists c: nat, tw: nat :: s' == s.Recover(c, tw))
    ensures WindowExact(s') && Chained(s') && Root(s') == Root(s)
  {
    if s' != s {
      var c: nat, tw: nat :| s' == s.Recover(c, tw);
      RecoverKeepsWindow(s, c, tw);
    }
  }

  /** While no first key comes twice, a key that accepted in step `i` belongs, at any later time,
      to that same session, still alive, or to none. */
  lemma {:induction false} KeyStaysWith(states: seq<State>, events: seq<Event>, i: nat, n: nat)
    requires IsRun(states, events) && states[0] == EmptyState && AllRaw(events) && i < n <= |events|
    requires NoRepeats(FirstKeys(states, events, n)) && Accepts(states[i], events[i]).Some?
    ensures var (a, k, c) := Accepts(states[i], events[i]).value;
            && RootOf(k) in FirstKeys(states, events, n)
            && forall sid :: sid in states[n].table.sessions && Root(states[n].table.sessions[sid]) == RootOf(k) ==>
                 sid == a && LiveThrough(states, a, i + 1, n)
    decreases n
  {
    hide AllAgree, FreshDraws, ReachesHandshake, Step, Seals, Accepts, FirstKey, RootOf, Separate, LiveThrough,
         AllCameFrom;
    var (a, k, c) := Accepts(states[i], events[i]).value;
    var g, e := states[n - 1], events[n - 1];
    assert states[n - 1 + 1] == Step(g, e).0;
    var log, roots := SealLog(states, events, n - 1), FirstKeys(states, events, n - 1);
    PrefixHasNoRepeats(roots, FirstKey(g, e));
    BasicAt(states, events, n - 1);
    StaySeparate(states, events, n - 1);
    StepCameFrom(g, e, log, roots);
    if i == n - 1 {
      AcceptedUnderRoot(g, e, log, roots);
      HolderAtStep(g, e, log, roots);
      OneStepLong(states, a, n);
    } else {
      KeyStaysWith(states, events, i, n - 1);
      forall sid | sid in states[n].table.sessions && Root(states[n].table.sessions[sid]) == RootOf(k)
        ensures sid == a && LiveThrough(states, a, i + 1, n)
      {
        RootAfter(g, e, log, roots, sid);
        LiveOneMore(states, a, i + 1, n - 1);
      }
    }
  }

  lemma OneStepLong(states: seq<State>, sid: Sid, n: nat)
    requires n < |states|
    ensures sid in states[n].table.sessions ==> LiveThrough(states, sid, n, n)
  {}

  lemma LiveOneMore(states: seq<State>, sid: Sid, i: nat, n: nat)
    requires n + 1 < |states|
    ensures LiveThrough(states, sid, i, n) && sid in states[n + 1].table.sessions ==> LiveThrough(states, sid, i, n + 1)
  {}

  /** Right after a step that accepted, only the session that did has the root. */
  lemma HolderAtStep(g: State, e: Event, log: seq<(Key, nat)>, roots: seq<Key>)
    requires AllAgree(g.table, Basic) && Fresh(g, e) && Separate(g.table, log, roots) && AllCameFrom(g, e, log, roots)
    requires Accepts(g, e).Some?
    requires var (a, k, c) := Accepts(g, e).value;
             if a in g.table.sessions then RootOf(k) == Root(g.table.sessions[a])
             else
               var (g', path) := Step(g, e);
               path == Established(a) && a in g'.table.sessions && RootOf(k) == Root(g'.table.sessions[a])
    ensures var (a, k, c) := Accepts(g, e).value;
            var t' := Step(g, e).0.table;
            && RootOf(k) in roots + FirstKey(g, e)
            && forall sid :: sid in t'.sessions && Root(t'.sessions[sid]) == RootOf(k) ==> sid == a
  {
    hide AllAgree, FreshDraws, ReachesHandshake, Step, Seals, Accepts, FirstKey, RootOf, WindowExact, Chained,
         SR.SentBelow;
    var (a, k, c) := Accepts(g, e).value;
    var t' := Step(g, e).0.table;
    if a in g.table.sessions {
      assert Tracked(g.table.sessions[a], log, roots);
    } else {
      assert CameFrom(g.table, log, roots, a, t'.sessions[a], Own(Seals(g, e), a), FirstKey(g, e));
    }
    forall sid | sid in t'.sessions && Root(t'.sessions[sid]) == RootOf(k)
      ensures sid == a
    {
      RootAfter(g, e, log, roots, sid);
      LiveAfter(g, e, sid);
    }
  }

  /** While no first key comes twice, one session key accepts only in the life of one session. */
  lemma AcceptedInOneLife(states: seq<State>, events: seq<Event>, i: nat, j: nat)
    requires IsRun(states, events) && states[0] == EmptyState && AllRaw(events) && i < j < |events|
    requires NoRepeats(FirstKeys(states, events, |events|))
    requires Accepts(states[i], events[i]).Some? && Accepts(states[j], events[j]).Some?
    requires Accepts(states[i], events[i]).value.1 == Accepts(states[j], events[j]).value.1
    ensures var a := Accepts(states[i], events[i]).value.0;
            a == Accepts(states[j], events[j]).value.0 && LiveThrough(states, a, i + 1, j)
  {
    hide AllAgree, FreshDraws, ReachesHandshake, Step, Seals, Accepts, FirstKey, FirstKeys, SealLog, RootOf, Separate,
         LiveThrough, NoRepeats;
    var log, roots := SealLog(states, events, j), FirstKeys(states, events, j);
    FirstKeysPrefix(states, events, j + 1, |events|);
    FirstKeysPrefix(states, events, j, |events|);
    FirstKeysNext(states, events, j);
    KeyStaysWith(states, events, i, j);
    BasicAt(states, events, j);
    StaySeparate(states, events, j);
    KnownRootIsLive(states[j], events[j], log, roots);
  }

  lemma FirstKeysNext(states: seq<State>, events: seq<Event>, n: nat)
    requires IsRun(states, events) && n < |events|
    ensures FirstKeys(states, events, n + 1) == FirstKeys(states, events, n) + FirstKey(states[n], events[n])
  {
    hide Step, FirstKey;
  }

  /** A key of a known root is accepted by the live session of that root. */
  lemma KnownRootIsLive(g: State, e: Event, log: seq<(Key, nat)>, roots: seq<Key>)
    requires AllAgree(g.table, Basic) && Fresh(g, e) && RawKeys(e) && Accepts(g, e).Some?
    requires Separate(g.table, log, roots) && NoRepeats(roots + FirstKey(g, e))
    requires RootOf(Accepts(g, e).value.1) in roots
    ensures var (b, k, c) := Accepts(g, e).value; b in g.table.sessions && Root(g.table.sessions[b]) == RootOf(k)
  {
    hide AllAgree, FreshDraws, ReachesHandshake, Step, Seals, Accepts, FirstKey, RootOf, Separate, AllCameFrom;
    StepCameFrom(g, e, log, roots);
    AcceptedUnderRoot(g, e, log, roots);
    var b := Accepts(g, e).value.0;
    if b !in g.table.sessions {
      RootAfter(g, e, log, roots, b);
    }
  }

  lemma {:induction false} FirstKeysPrefix(states: seq<State>, events: seq<Event>, n: nat, m: nat)
    requires IsRun(states, events) && n <= m <= |events| && NoRepeats(FirstKeys(states, events, m))
    ensures NoRepeats(FirstKeys(states, events, n))
    decreases m
  {
    hide FreshDraws, ReachesHandshake, Step, FirstKey, NoRepeats;
    if n < m {
      PrefixHasNoRepeats(FirstKeys(states, events, m - 1), FirstKey(states[m - 1], events[m - 1]));
      FirstKeysPrefix(states, events, n, m - 1);
    }
  }

  /** Every live session was opened in some step and has lived since. */
  lemma {:induction false} BornBefore(states: seq<State>, events: seq<Event>, n: nat, sid: Sid) returns (b: nat)
    requires IsRun(states, events) && states[0] == EmptyState && n <= |events| && sid in states[n].table.sessions
    ensures b < n && Step(states[b], events[b]).1 == Established(sid) && LiveThrough(states, sid, b + 1, n)
    decreases n
  {
    hide AllAgree, FreshDraws, ReachesHandshake, Step;
    b := 0;
    if n > 0 {
      BasicAt(states, events, n - 1);
      assert states[n - 1 + 1] == Step(states[n - 1], events[n - 1]).0;
      LiveAfter(states[n - 1], events[n - 1], sid);
      if sid in states[n - 1].table.sessions {
        b := BornBefore(states, events, n - 1, sid);
      } else {
        b := n - 1;
      }
    }
  }

  lemma {:induction false} AcceptedByHas(states: seq<State>, events: seq<Event>, sid: Sid, b: nat, i: nat, j: nat)
    requires IsRun(states, events) && b <= i < j <= |events|
    requires Accepts(states[i], events[i]).Some? && Accepts(states[i], events[i]).value.0 == sid
    ensures var (_, k, c) := Accepts(states[i], events[i]).value; (k, c) in AcceptedBy(states, events, sid, b, j)
    decreases j
  {
    hide FreshDraws, ReachesHandshake, Step, Accepts;
    var (_, k, c) := Accepts(states[i], events[i]).value;
    if j == i + 1 {
      assert (k, c) in Own(Accepts(states[i], events[i]), sid);
    } else {
      AcceptedByHas(states, events, sid, b, i, j - 1);
    }
  }

  /** Over every run of the server in which no two sessions were opened with the same first key, a
      pair of key and counter is accepted twice only within one life of one session, and only 256 or
      more behind its highest counter or by a recovery of the highest counter itself. */
  lemma ServerAcceptsTwice(states: seq<State>, events: seq<Event>, i: nat, j: nat) returns (b: nat)
    requires IsRun(states, events) && states[0] == EmptyState && AllRaw(events) && i < j < |events|
    requires OpenedOnce(states, events, |events|)
    requires Accepts(states[i], events[i]).Some? && Accepts(states[j], events[j]).Some?
    requires var (p, q) := (Accepts(states[i], events[i]).value, Accepts(states[j], events[j]).value);
             p.1 == q.1 && p.2 == q.2
    ensures var (a, k, c) := Accepts(states[j], events[j]).value;
            && a == Accepts(states[i], events[i]).value.0
            && b <= i && Step(states[b], events[b]).1 == Established(a) && LiveThrough(states, a, b + 1, j)
            && a in states[j].table.sessions
            && TakenAgain(states[j].table.sessions[a], c, Step(states[j], events[j]).1, a)
  {
    hide AllAgree, FreshDraws, ReachesHandshake, Step, Accepts, FirstKey, Seals, Separate, TakenAgain, RootOf,
         OpenedOnce;
    FirstKeysByStep(states, events, |events|);
    var (a, k, c) := Accepts(states[j], events[j]).value;
    AcceptedInOneLife(states, events, i, j);
    BasicAt(states, events, i);
    FirstKeysPrefix(states, events, i, |events|);
    StaySeparate(states, events, i);
    AcceptedUnderRoot(states[i], events[i], SealLog(states, events, i), FirstKeys(states, events, i));
    if a in states[i].table.sessions {
      b := BornBefore(states, events, i, a);
    } else {
      b := i;
    }
    AcceptedByHas(states, events, a, b, i, j);
    AcceptedAgainInLife(states, events, b, j);
  }

  // ---- A first packet that comes twice ----------------------------------------------------------

  /** A step that opens a session under root `k` seals its ServerHello with `k` and counter 0. */
  lemma OpeningSeals(g: State, e: Event, k: Key)
    requires AllAgree(g.table, Basic) && Fresh(g, e) && RawKeys(e) && Step(g, e).1.Established?
    requires var (g', path) := Step(g, e); path.sid in g'.table.sessions && Root(g'.table.sessions[path.sid]) == k
    ensures Seals(g, e) == Some((Step(g, e).1.sid, k, 0))
  {
    hide AllAgree, FreshDraws, ReachesHandshake, Step, Seals, Accepts, Chained, RootOf, IsNewborn, WindowExact;
    var m, s, es := BirthIsRun(g, e);
    NewbornIsExact(s, e, m);
    NewbornIsChained(s, e, m);
    ExtendKeepsRoot(s, es);
  }

  /** The keys a client starts with. */
  function StartKeys(id: Identity, scalar: nat, psk: Key): SessionKeys {
    DeriveSessionKeys(ComputeShared(id.scalar, Pub(scalar)).value, Some(psk), Pub(scalar))
  }

  /** What the first packet of client `i` makes of the session it opens: still on the start keys,
      with the next keys derived from them. */
  lemma OpenedState(cfg: Config, env: Env, from: Addr, d: Datagram, m: Match, clientId: Option<nat>, scalar: nat,
                    psk: Key)
    requires BuiltFor(cfg, env, from, d, m).Some?
    requires BuiltFor(cfg, env, from, d, m).value.ValidateTag(d.tag, env.tw).Some?
    requires m.psk == Some(psk) && Handshakes.FirstPacket(d, cfg.id, scalar, psk, env.tw)
    ensures var s := Opened(cfg, env, from, d, m, clientId);
            && s.keys == StartKeys(cfg.id, scalar, psk) && WindowExact(s)
            && s.ratchetedKeys == Some(DeriveSessionKeys(ComputeShared(scalar, Pub(m.draw.serverEph)).value,
                                                         Some(s.keys.sessionKey), Pub(scalar)))
  {
    hide SessionState.ValidateTag, SessionState.Accept;
    var built := BuiltFor(cfg, env, from, d, m).value;
    var (c, ratcheted) := built.ValidateTag(d.tag, env.tw).value;
    BuiltIsExact(cfg.id, m.draw, from, d.eph, m.psk, env.tw);
    SharedCommutes(cfg.id.scalar, scalar);
    SharedCommutes(m.draw.serverEph, scalar);
    assert built.keys == StartKeys(cfg.id, scalar, psk);
    FirstTagIsInitial(built, d.tag, env.tw);
    var s := built.(vpnIp := m.chosen.0, clientId := clientId).NextSend();
    SameWindow(built, s);
    AcceptAndKeys(s, d, c, ratcheted, true, from, env.tw);
    AcceptKeepsWindow(s, d, c, ratcheted, true, from, env.tw);
  }

  lemma FirstTagIsInitial(s: SessionState, tag: Tag, tw: nat)
    requires WindowExact(s) && tag.secret == s.keys.tagSecret && s.ValidateTag(tag, tw).Some?
    ensures s.ValidateTag(tag, tw).value == (tag.counter, false)
  {
    SR.NotRatcheted(s, tag);
  }

  lemma OpeningAccepts(g: State, e: Event, scalar: nat, psk: Key)
    requires AllAgree(g.table, Basic) && Fresh(g, e) && Step(g, e).1.Established?
    requires Handshakes.FirstPacket(e.d, e.cfg.id, scalar, psk, e.env.tw)
    requires var k := StartKeys(e.cfg.id, scalar, psk).sessionKey;
             && Seals(g, e) == Some((Step(g, e).1.sid, k, 0))
             && SealedFirst(e.d, k)
    ensures Accepts(g, e) == Some((Step(g, e).1.sid, StartKeys(e.cfg.id, scalar, psk).sessionKey, e.d.tag.counter))
  {
    hide AllAgree, FreshDraws, ReachesHandshake, HandlePacket, Resolve, IsNewborn, WindowExact,
         SessionState.ValidateTag, Handshakes.FirstPacket;
    HandleResolves(g, e.cfg, e.env, e.from, e.d);
    var m, s, es := BirthIsRun(g, e);
    NewbornIsExact(s, e, m);
    var r := Resolve(g, e.cfg, e.env, e.from, e.d);
    FirstPacketParts(e.d, e.cfg.id, scalar, psk, e.env.tw);
    FirstTagIsInitial(s, e.d.tag, e.env.tw);
    FirstIsAccepted(s.NextSend(), e.d, e.from, e.env.tw);
  }

  /** Sealed by the client as its first packet: behind the ephemeral key, with any content. */
  predicate SealedFirst(d: Datagram, k: Key) {
    && d.size > TAG_SIZE + MDH_LEN + EPH_LEN
    && d.sealed.Sealed? && d.sealed.key == k && d.sealed.counter == d.tag.counter
    && d.sealed.offset == TAG_SIZE + MDH_LEN + EPH_LEN && d.sealed.plain.Plain?
  }

  lemma FirstPacketParts(d: Datagram, id: Identity, scalar: nat, psk: Key, tw: nat)
    requires Handshakes.FirstPacket(d, id, scalar, psk, tw)
    ensures d.eph == Pub(scalar) && d.tag.secret == StartKeys(id, scalar, psk).tagSecret && d.tag.counter < 256
  {
    SharedCommutes(id.scalar, scalar);
  }

  lemma FirstIsAccepted(s: SessionState, d: Datagram, from: Addr, tw: nat)
    requires SealedFirst(d, s.keys.sessionKey)
    ensures var (s', ok) := s.Accept(d, d.tag.counter, false, true, from, tw); ok && s'.keys == s.keys
  {
    hide SessionState.UpdateTagWindow, SessionState.MarkTagReceived;
    GatewayInvariants.ReceiveKeepsFields(s, d.tag.counter, true, from, tw);
  }

  /** A client's first packet at a server where nobody has its start keys. */
  lemma FirstPacketStep(g: State, cfg: Config, env: Env, from: Addr, d: Datagram, scalar: nat, i: nat)
    requires AllAgree(g.table, Basic) && EnoughDraws(cfg, env) && FreshDraws(g.table, env)
    requires AddressMap.Covers(env.refreshOrder, g.table)
    requires cfg.clients.Some? && i < |cfg.clients.value| && cfg.clients.value[i].enabled
    requires Handshakes.DistinctKeys(cfg.clients.value)
    requires Handshakes.FirstPacket(d, cfg.id, scalar, cfg.clients.value[i].psk, env.tw)
    requires Handshakes.Foreign(g.table, d.tag)
    requires WithinLimits(g.table, from.ip) && !CoolingDown(g, from.ip, env.now)
    requires SealedFirst(d, StartKeys(cfg.id, scalar, cfg.clients.value[i].psk).sessionKey)
    ensures var (g', path) := HandlePacket(g, cfg, env, from, d);
            var e, sid := Packet(cfg, env, from, d), env.draws[i].sid;
            var keys := StartKeys(cfg.id, scalar, cfg.clients.value[i].psk);
            && Fresh(g, e) && path == Established(sid) && g'.table.sessions.Keys <= g.table.sessions.Keys + {sid}
            && g'.cooldowns == g.cooldowns - {from.ip} && AllAgree(g'.table, Basic)
            && Seals(g, e) == Some((sid, keys.sessionKey, 0))
            && Accepts(g, e) == Some((sid, keys.sessionKey, d.tag.counter))
            && sid in g'.table.sessions && g'.table.sessions[sid].keys == keys && WindowExact(g'.table.sessions[sid])
            && g'.table.sessions[sid].ratchetedKeys == Some(NextKeys(keys, scalar, env.draws[i].serverEph))
  {
    hide AllAgree, FreshDraws, HandlePacket, Handshakes.FirstPacket, Handshakes.Foreign, WithinLimits, CoolingDown,
         BuiltFor, Build, Opened,
         SessionState.ValidateTag, WindowExact, Seals, Accepts, SealedFirst, StartKeys;
    var psk := cfg.clients.value[i].psk;
    var client := cfg.clients.value[i];
    Handshakes.FirstPacketEstablishes(g, cfg, env, from, d, scalar, i);
    var m := Match(env.draws[i], Some(psk), (Some(client.vpnIp), g.table.nextOctet));
    OpenedState(cfg, env, from, d, m, Some(client.clientId), scalar, psk);
    PacketKeeps(g, Basic, cfg, env, from, d);
    StartKeysAreFirst(cfg.id, scalar, psk);
    OpeningSeals(g, Packet(cfg, env, from, d), StartKeys(cfg.id, scalar, psk).sessionKey);
    OpeningAccepts(g, Packet(cfg, env, from, d), scalar, psk);
  }

  /** The keys derived when a client with start keys learns the server's ephemeral key. */
  function NextKeys(keys: SessionKeys, scalar: nat, serverEph: nat): SessionKeys {
    DeriveSessionKeys(ComputeShared(scalar, Pub(serverEph)).value, Some(keys.sessionKey), Pub(scalar))
  }

  lemma StartKeysAreFirst(id: Identity, scalar: nat, psk: Key)
    requires psk.Raw?
    ensures RootOf(StartKeys(id, scalar, psk).sessionKey) == StartKeys(id, scalar, psk).sessionKey
  {}

  /** The client's first data packet under the next keys. */
  predicate SwitchPacket(d: Datagram, next: SessionKeys, tw: nat) {
    && d.size > TAG_SIZE + MDH_LEN && d.tag.secret == next.tagSecret && d.tag.counter < 256
    && NearWindow(tw, d.tag.window)
    && d.sealed.Sealed? && d.sealed.key == next.sessionKey && d.sealed.counter == d.tag.counter
    && d.sealed.offset == TAG_SIZE + MDH_LEN && d.sealed.plain.Plain? && d.sealed.plain.content.Data?
  }

  /** Such a packet switches the session's keys, when it is the only session there. */
  lemma SwitchStep(g: State, cfg: Config, env: Env, from: Addr, d: Datagram, sid: Sid, next: SessionKeys)
    requires AllAgree(g.table, Basic) && EnoughDraws(cfg, env) && g.table.sessions.Keys == {sid}
    requires sid in env.refreshOrder
    requires WindowExact(g.table.sessions[sid]) && g.table.sessions[sid].ratchetedKeys == Some(next)
    requires SwitchPacket(d, next, env.tw)
    ensures var (g', path) := HandlePacket(g, cfg, env, from, d);
            && Fresh(g, Packet(cfg, env, from, d)) && AllAgree(g'.table, Basic) && g'.cooldowns == g.cooldowns
            && g'.table.sessions.Keys == {sid} && g'.table.sessions[sid].keys == next
            && g'.table.sessions[sid].ratchetedKeys == None
  {
    hide AllAgree, Lookup, RecoverByTag, Handshake, Finish, FreshDraws, SwitchPacket, WindowExact, AddressMap.Covers,
         SoleHolder, Genuine;
    var s := g.table.sessions[sid];
    Handshakes.AgreedInv(g.table);
    OnlyHolder(g.table, env.refreshOrder, sid, d.tag);
    SwitchIsGenuine(s, d, next, env.tw);
    LookupFindsGenuine(g.table, env.refreshOrder, sid, d.tag, true, env.tw);
    LookupIsOk(g.table, Basic, env.refreshOrder, d.tag, env.tw);
    PacketKeeps(g, Basic, cfg, env, from, d);
    var t1 := Lookup(g.table, env.refreshOrder, d.tag, env.tw).0;
    Handshakes.AgreedInv(t1);
    SwitchFinish(t1, sid, env, from, d, next);
  }

  lemma SwitchIsGenuine(s: SessionState, d: Datagram, next: SessionKeys, tw: nat)
    requires s.ratchetedKeys == Some(next) && SwitchPacket(d, next, tw)
    ensures Genuine(s, d.tag, true, tw) && d.size >= TAG_SIZE + 2
  {}

  lemma SwitchFinish(t: Table, sid: Sid, env: Env, from: Addr, d: Datagram, next: SessionKeys)
    requires Inv(t, Basic) && t.sessions.Keys == {sid} && t.sessions[sid].ratchetedKeys == Some(next)
    requires SwitchPacket(d, next, env.tw)
    ensures var t' := Finish(t, sid, d.tag.counter, true, false, env, from, d).0;
            t'.sessions.Keys == {sid} && t'.sessions[sid].keys == next && t'.sessions[sid].ratchetedKeys == None
  {
    hide Inv, Finish, SessionState.Accept, WindowExact;
    FinishIsAccept(t, sid, d.tag.counter, true, false, env, from, d);
    TableInvariants.WindowIn(t, Basic, sid);
    SwitchAccepted(t.sessions[sid], d, from, env.tw, next);
  }

  lemma OnlyHolder(t: Table, order: seq<Sid>, sid: Sid, tag: Tag)
    requires t.sessions.Keys == {sid} && sid in order
    ensures SoleHolder(t, sid, tag.secret) && AddressMap.Covers(order, t)
  {
    assert forall other :: other in t.sessions ==> other in t.sessions.Keys;
  }

  lemma SwitchAccepted(s: SessionState, d: Datagram, from: Addr, tw: nat, next: SessionKeys)
    requires WindowExact(s) && s.ratchetedKeys == Some(next) && SwitchPacket(d, next, tw)
    ensures var s' := s.Accept(d, d.tag.counter, true, false, from, tw).0; s'.keys == next && s'.ratchetedKeys == None
  {
    hide SessionState.Accept;
    AcceptAndKeys(s, d, d.tag.counter, true, false, from, tw);
  }

  /** After the switch nobody holds the start keys any more. */
  lemma StartKeysAreFree(t: Table, sid: Sid, tag: Tag, keys: SessionKeys, scalar: nat, serverEph: nat)
    requires t.sessions.Keys == {sid} && t.sessions[sid].ratchetedKeys == None
    requires t.sessions[sid].keys == NextKeys(keys, scalar, serverEph) && tag.secret == keys.tagSecret
    requires Depth(keys.tagSecret) == Depth(keys.sessionKey)
    ensures Handshakes.Foreign(t, tag)
  {
    assert Depth(t.sessions[sid].keys.tagSecret) == 1 + Depth(keys.tagSecret);
    assert forall other :: other in t.sessions ==> other in t.sessions.Keys;
  }

  lemma OneIsWithinLimits(t: Table, only: Sid, ip: Ip)
    requires t.sessions.Keys <= {only}
    ensures WithinLimits(t, ip)
  {
    assert SessionsFrom(t, ip) <= t.sessions.Keys;
    SmallSets(SessionsFrom(t, ip), {only});
    assert |t.sessions| == |t.sessions.Keys|;
    SmallSets(t.sessions.Keys, {only});
  }

  lemma SmallSets(a: set<Sid>, b: set<Sid>)
    requires a <= b
    ensures |a| <= |b|
  {
    if a != b {
      assert b == a + (b - a);
    }
  }

  /** A client connects, switches keys, and a copy of its first packet arrives while its time window
      is still near: the server opens a second session under the same first key, seals the
      ServerHello of both with that key and counter 0, and accepts the packet's counter twice. */
  lemma DuplicatedFirstPacket(cfg: Config, i: nat, scalar: nat, d: Datagram, switch: Datagram,
                              env1: Env, env2: Env, env3: Env, from1: Addr, from2: Addr, from3: Addr)
    requires EnoughDraws(cfg, env1) && EnoughDraws(cfg, env2) && EnoughDraws(cfg, env3)
    requires cfg.clients.Some? && i < |cfg.clients.value| && cfg.clients.value[i].enabled
    requires Handshakes.DistinctKeys(cfg.clients.value)
    requires var psk := cfg.clients.value[i].psk;
             && Handshakes.FirstPacket(d, cfg.id, scalar, psk, env1.tw)
             && Handshakes.FirstPacket(d, cfg.id, scalar, psk, env3.tw)
             && SealedFirst(d, StartKeys(cfg.id, scalar, psk).sessionKey)
             && SwitchPacket(switch, NextKeys(StartKeys(cfg.id, scalar, psk), scalar, env1.draws[i].serverEph), env2.tw)
    requires env1.draws[i].sid in env2.refreshOrder
    requires env1.draws[i].sid in env3.refreshOrder && env1.draws[i].sid in env3.cleanupOrder
    requires forall k :: 0 <= k < |env3.draws| ==>
               env3.draws[k].sid != env1.draws[i].sid && env1.draws[i].sid in env3.draws[k].rollbackOrder
    ensures var (e1, e2, e3) := (Packet(cfg, env1, from1, d), Packet(cfg, env2, from2, switch),
                                 Packet(cfg, env3, from3, d));
            var g1 := Step(EmptyState, e1).0;
            var g2 := Step(g1, e2).0;
            var key := StartKeys(cfg.id, scalar, cfg.clients.value[i].psk).sessionKey;
            && Fresh(EmptyState, e1) && Fresh(g1, e2) && Fresh(g2, e3)
            && Seals(EmptyState, e1) == Some((env1.draws[i].sid, key, 0))
            && Seals(g2, e3) == Some((env3.draws[i].sid, key, 0))
            && Accepts(EmptyState, e1) == Some((env1.draws[i].sid, key, d.tag.counter))
            && Accepts(g2, e3) == Some((env3.draws[i].sid, key, d.tag.counter))
  {
    hide AllAgree, HandlePacket, Seals, Accepts, StartKeys, NextKeys, SealedFirst, SwitchPacket, Handshakes.FirstPacket,
         Handshakes.Foreign, WithinLimits, WindowExact, ReachesHandshake;
    var (sid, psk) := (env1.draws[i].sid, cfg.clients.value[i].psk);
    var keys := StartKeys(cfg.id, scalar, psk);
    EmptyIsOk(Basic);
    EmptyIsForeign(d.tag);
    OneIsWithinLimits(EmptyState.table, sid, from1.ip);
    FirstPacketStep(EmptyState, cfg, env1, from1, d, scalar, i);
    var g1 := HandlePacket(EmptyState, cfg, env1, from1, d).0;
    assert g1.table.sessions.Keys == {sid};
    SwitchStep(g1, cfg, env2, from2, switch, sid, NextKeys(keys, scalar, env1.draws[i].serverEph));
    var g2 := HandlePacket(g1, cfg, env2, from2, switch).0;
    FirstPacketParts(d, cfg.id, scalar, psk, env3.tw);
    StartKeysDepth(cfg.id, scalar, psk);
    StartKeysAreFree(g2.table, sid, d.tag, keys, scalar, env1.draws[i].serverEph);
    OneIsWithinLimits(g2.table, sid, from3.ip);
    FreshForSecond(g2.table, env3, sid);
    FirstPacketStep(g2, cfg, env3, from3, d, scalar, i);
  }

  lemma EmptyIsForeign(tag: Tag)
    ensures Handshakes.Foreign(EmptyState.table, tag)
  {}

  lemma StartKeysDepth(id: Identity, scalar: nat, psk: Key)
    ensures var keys := StartKeys(id, scalar, psk); Depth(keys.tagSecret) == Depth(keys.sessionKey)
  {}

  lemma FreshForSecond(t: Table, env: Env, sid: Sid)
    requires t.sessions.Keys == {sid} && sid in env.cleanupOrder && sid in env.refreshOrder
    requires forall k :: 0 <= k < |env.draws| ==> env.draws[k].sid != sid && sid in env.draws[k].rollbackOrder
    ensures FreshDraws(t, env) && AddressMap.Covers(env.refreshOrder, t)
  {
    assert forall other :: other in t.sessions ==> other in t.sessions.Keys;
  }
}
