/** The session manager as an object over session objects: every method does to the three maps,
    and to the sessions they point to, exactly what the table function of the same name says. */
module SessionManager {
  import opened Wrappers
  import opened Bitset256
  import opened Crypto
  import opened Datagram
  import opened Session
  import opened SessionObject
  import opened SessionTable

  class SessionManager {
    const identity: Identity
    var sessions: map<Sid, ServerSession>
    var tagMap: map<Tag, Sid>
    var vpnIpMap: map<Ip, Sid>
    var nextIpOctet: nat

    /** Different ids name different objects. */
    ghost predicate Valid()
      reads this
    {
      forall a, b :: a in sessions && b in sessions && a != b ==> sessions[a] != sessions[b]
    }

    ghost function Sessions(): map<Sid, SessionState>
      reads this`sessions, sessions.Values
    {
      map sid | sid in sessions :: sessions[sid].View()
    }

    ghost function View(): Table
      reads this, sessions.Values
    {
      Table(Sessions(), tagMap, vpnIpMap, nextIpOctet)
    }

    constructor (identity: Identity)
      ensures Valid() && View() == Table(map[], map[], map[], 2)
    {
      this.identity := identity;
      sessions, tagMap, vpnIpMap, nextIpOctet := map[], map[], map[], 2;
    }

    // ---- Index entries -------------------------------------------------------

    method InsertTags(tags: TagTable, sid: Sid)
      modifies this`tagMap
      ensures tagMap == old(tagMap) + Assign(tags.Values, sid)
    {
      var left := tags.Keys;
      ghost var done: set<Tag> := {};
      while left != {}
        invariant left <= tags.Keys
        invariant done == set c | c in tags && c !in left :: tags[c]
        invariant tagMap == old(tagMap) + Assign(done, sid)
      {
        var c: nat :| c in left;
        tagMap := tagMap[tags[c] := sid];
        done := done + {tags[c]};
        left := left - {c};
      }
      assert done == tags.Values;
    }

    method RemoveTags(tags: TagTable)
      modifies this`tagMap
      ensures tagMap == old(tagMap) - tags.Values
    {
      var left := tags.Keys;
      ghost var done: set<Tag> := {};
      while left != {}
        invariant left <= tags.Keys
        invariant done == set c | c in tags && c !in left :: tags[c]
        invariant tagMap == old(tagMap) - done
      {
        var c: nat :| c in left;
        tagMap := tagMap - {tags[c]};
        done := done + {tags[c]};
        left := left - {c};
      }
      assert done == tags.Values;
    }

    /** A session's entries under both epochs are added. */
    method InsertBoth(e: TagTable, r: TagTable, sid: Sid)
      modifies this`tagMap
      ensures tagMap == old(tagMap) + Assign(e.Values + r.Values, sid)
    {
      InsertTags(e, sid);
      InsertTags(r, sid);
    }

    /** A session's entries under both epochs are removed. */
    method RemoveBoth(e: TagTable, r: TagTable)
      modifies this`tagMap
      ensures tagMap == old(tagMap) - (e.Values + r.Values)
    {
      RemoveTags(e);
      RemoveTags(r);
    }

    /** When only session `sid` changed, the view changed at `sid` only. */
    twostate lemma OneSessionChanged(sid: Sid)
      requires sessions == old(sessions) && sid in sessions && Valid()
      requires forall id :: id in sessions && id != sid ==> unchanged(sessions[id])
      ensures Sessions() == old(Sessions())[sid := sessions[sid].View()]
    {}

    twostate lemma NoSessionChanged()
      requires sessions == old(sessions)
      requires forall id :: id in sessions ==> unchanged(sessions[id])
      ensures Sessions() == old(Sessions())
    {}

    twostate lemma SessionDropped(sid: Sid)
      requires sessions == old(sessions) - {sid}
      requires forall id :: id in old(sessions) ==> unchanged(old(sessions)[id])
      ensures Sessions() == old(Sessions()) - {sid}
    {}

    twostate lemma ViewParts()
      ensures View() == Table(Sessions(), tagMap, vpnIpMap, nextIpOctet)
      ensures old(View()) == Table(old(Sessions()), old(tagMap), old(vpnIpMap), old(nextIpOctet))
    {}

    twostate lemma SessionAdded(sid: Sid, new s: ServerSession)
      requires sid !in old(sessions) && sessions == old(sessions)[sid := s]
      requires forall id :: id in old(sessions) ==> unchanged(old(sessions)[id])
      ensures Sessions() == old(Sessions())[sid := s.View()]
    {}

    lemma ViewAt(sid: Sid)
      ensures sid in View().sessions <==> sid in sessions
      ensures sid in sessions ==> View().sessions[sid] == sessions[sid].View()
      ensures View().tagMap == tagMap && View().vpnIpMap == vpnIpMap && View().nextOctet == nextIpOctet
    {}

    method Route(ip: Ip, sid: Sid)
      modifies this`vpnIpMap
      ensures View() == old(View()).(vpnIpMap := old(vpnIpMap)[ip := sid])
    {
      vpnIpMap := vpnIpMap[ip := sid];
    }

    // ---- Iterations -----------------------------------------------------------

    /** The first wanted session, in the order the map is iterated. */
    method FindFirst(order: seq<Sid>, w: Wanted) returns (r: Option<Sid>)
      ensures r == Find(order, View(), w)
      ensures r.Some? ==> r.value in sessions
    {
      for i := 0 to |order|
        invariant Find(order, View(), w) == Find(order[i..], View(), w)
      {
        var sid := order[i];
        assert order[i..][1..] == order[i + 1..];
        if sid in sessions {
          var wanted := IsWanted(sessions[sid], w);
          if wanted {
            return Some(sid);
          }
        }
      }
      return None;
    }

    /** The test of one session.  For a recovery it tries every counter of the range in the
        three time windows. */
    static method IsWanted(s: ServerSession, w: Wanted) returns (b: bool)
      ensures b == w.Matches(s.View())
    {
      match w
      case Holder(ip) => b := s.vpnIp == Some(ip);
      case Reusable(from) => b := s.addr.ip == from && s.vpnIp.Some?;
      case Recoverable(from, tag, tw) =>
        if s.addr.ip != from {
          return false;
        }
        var windows := [tw, PrevWindow(tw), NextWindow(tw)];
        for k := 0 to 3
          invariant forall j :: 0 <= j < k ==> !InRange(s.keys.tagSecret, s.counter, RECOVERY_RANGE, tag, windows[j])
        {
          for i := 0 to RECOVERY_RANGE
            invariant !InRange(s.keys.tagSecret, s.counter, i, tag, windows[k])
          {
            if Tag(s.keys.tagSecret, s.counter + i, windows[k]) == tag {
              return true;
            }
          }
        }
        assert !InRange(s.keys.tagSecret, s.counter, RECOVERY_RANGE, tag, windows[0]);
        assert !InRange(s.keys.tagSecret, s.counter, RECOVERY_RANGE, tag, windows[1]);
        assert !InRange(s.keys.tagSecret, s.counter, RECOVERY_RANGE, tag, windows[2]);
        return false;
    }

    static predicate InRange(secret: Key, base: nat, count: nat, tag: Tag, tw: nat) {
      tag.secret == secret && base <= tag.counter < base + count && tag.window == tw
    }

    method CountFrom(ip: Ip) returns (n: nat)
      ensures n == IpCount(View(), ip)
    {
      n := 0;
      var left := sessions.Keys;
      ghost var counted: set<Sid> := {};
      while left != {}
        invariant left <= sessions.Keys
        invariant counted == set sid | sid in sessions && sid !in left && sessions[sid].addr.ip == ip
        invariant n == |counted|
      {
        var sid: Sid :| sid in left;
        if sessions[sid].addr.ip == ip {
          n := n + 1;
          counted := counted + {sid};
        }
        left := left - {sid};
      }
      assert counted == SessionsFrom(View(), ip);
    }

    // ---- Creating and removing -----------------------------------------------

    method CreateSession(draw: Draw, from: Addr, eph: Pub, psk: Option<Key>, staticIp: Option<Ip>, tw: nat)
        returns (created: Option<ServerSession>)
      requires Valid() && draw.sid !in sessions
      modifies this
      ensures Valid() && fresh(sessions.Values - old(sessions.Values))
      ensures created.Some? == Create(old(View()), identity, draw, from, eph, psk, staticIp, tw).Some?
      ensures created.Some? ==>
        && View() == Create(old(View()), identity, draw, from, eph, psk, staticIp, tw).value
        && sessions == old(sessions)[draw.sid := created.value]
      ensures created.None? ==> View() == old(View()) && sessions == old(sessions)
    {
      hide Build, Insert, WithinLimits, ReusedIp, View, Sessions;
      var reusedIp := FindReusedIp(draw.createOrder, from.ip);
      var admitted := CheckLimits(from.ip);
      if !admitted {
        return None;
      }
      created := BuildSession(draw, from, eph, psk, tw);
      if created.None? {
        return None;
      }
      ViewAt(draw.sid);
      BuiltWithoutIp(identity, draw, from, eph, psk, tw);
      var vpnIp := AssignIp(staticIp, reusedIp);
      AddSession(draw.sid, created.value, vpnIp);
      InsertIgnoresOctet(old(View()), draw.sid, Build(identity, draw, from, eph, psk, tw).value, vpnIp, nextIpOctet);
    }

    method FindReusedIp(order: seq<Sid>, from: Ip) returns (ip: Option<Ip>)
      ensures ip == ReusedIp(View(), order, from)
    {
      var reused := FindFirst(order, Reusable(from));
      if reused.None? {
        return None;
      }
      return sessions[reused.value].vpnIp;
    }

    method CheckLimits(from: Ip) returns (admitted: bool)
      ensures admitted == WithinLimits(View(), from)
    {
      assert View().sessions.Keys == sessions.Keys;
      if |sessions| >= MAX_SESSIONS {
        return false;
      }
      var count := CountFrom(from);
      return count < MAX_SESSIONS_PER_IP;
    }

    static lemma BuiltWithoutIp(id: Identity, draw: Draw, from: Addr, eph: Pub, psk: Option<Key>, tw: nat)
      ensures Build(id, draw, from, eph, psk, tw).Some? ==> Build(id, draw, from, eph, psk, tw).value.vpnIp == None
    {}

    static lemma InsertIgnoresOctet(t: Table, sid: Sid, s: SessionState, ip: Option<Ip>, octet: nat)
      ensures Insert(t, sid, s, (ip, octet)) == Insert(t.(nextOctet := octet), sid, s, (ip, octet))
    {}

    method BuildSession(draw: Draw, from: Addr, eph: Pub, psk: Option<Key>, tw: nat) returns (s: Option<ServerSession>)
      ensures s.Some? == Build(identity, draw, from, eph, psk, tw).Some?
      ensures s.Some? ==> fresh(s.value) && s.value.View() == Build(identity, draw, from, eph, psk, tw).value
    {
      hide NewSession, DeriveSessionKeys;
      var dh1 := ComputeShared(identity.scalar, eph);
      var dh2 := ComputeShared(draw.serverEph, eph);
      if dh1.None? || dh2.None? {
        return None;
      }
      var initial := DeriveSessionKeys(dh1.value, psk, eph);
      var ratcheted := DeriveSessionKeys(dh2.value, Some(initial.sessionKey), eph);
      var session := PrepareSession(draw, from, eph, initial, ratcheted, tw);
      s := Some(session);
    }

    /** The new session object: ratchet data, then both tag windows. */
    method PrepareSession(draw: Draw, from: Addr, eph: Pub, initial: SessionKeys, ratcheted: SessionKeys, tw: nat)
        returns (s: ServerSession)
      ensures fresh(s)
      ensures s.View() == NewSession(from, eph, initial, ratcheted, Pub(draw.serverEph),
                                     Signature(identity.signer, Pub(draw.serverEph), eph), tw)
    {
      s := new ServerSession(from, initial, eph);
      s.serverEphPub := Some(Pub(draw.serverEph));
      s.serverHelloSignature := Signature(identity.signer, Pub(draw.serverEph), eph);
      s.ratchetedKeys := Some(ratcheted);
      s.UpdateTagWindow(tw);
      s.UpdateRatchetedTagWindow(tw);
    }

    /** Static address first, then the reused one, then the next automatic octet. */
    method AssignIp(staticIp: Option<Ip>, reusedIp: Option<Ip>) returns (vpnIp: Option<Ip>)
      modifies this`nextIpOctet
      ensures View() == old(View()).(nextOctet := nextIpOctet)
      ensures staticIp.Some? ==> vpnIp == staticIp && nextIpOctet == old(nextIpOctet)
      ensures staticIp.None? && reusedIp.Some? ==> vpnIp == reusedIp && nextIpOctet == old(nextIpOctet)
      ensures staticIp.None? && reusedIp.None? ==>
        && vpnIp == (if old(nextIpOctet) <= 254 then Some(Ip(10, 0, 0, old(nextIpOctet))) else None)
        && nextIpOctet == (old(nextIpOctet) + 1) % 0x1_0000_0000
    {
      vpnIp := staticIp;
      if vpnIp.None? {
        vpnIp := reusedIp;
      }
      if vpnIp.None? {
        var octet := nextIpOctet;
        nextIpOctet := (nextIpOctet + 1) % 0x1_0000_0000;
        if octet <= 254 {
          vpnIp := Some(Ip(10, 0, 0, octet));
        }
      }
    }

    method AddSession(sid: Sid, s: ServerSession, vpnIp: Option<Ip>)
      requires Valid() && sid !in sessions && s !in sessions.Values && s.vpnIp == None
      modifies this`sessions, this`tagMap, this`vpnIpMap, s`vpnIp
      ensures Valid() && sessions == old(sessions)[sid := s]
      ensures View() == Insert(old(View()), sid, old(s.View()), (vpnIp, nextIpOctet))
    {
      hide Assign;
      ghost var built := s.View();
      InsertBoth(s.expectedTags, s.ratchetedExpectedTags, sid);
      sessions := sessions[sid := s];
      if vpnIp.Some? {
        s.vpnIp := vpnIp;
        vpnIpMap := vpnIpMap[vpnIp.value := sid];
      }
      assert s.View() == built.(vpnIp := vpnIp);
      SessionAdded(sid, s);
    }

    method RemoveSession(sid: Sid)
      requires Valid()
      modifies this
      ensures Valid() && View() == Remove(old(View()), sid)
      ensures sessions == old(sessions) - {sid}
    {
      if sid in sessions {
        hide View;
        ViewAt(sid);
        var s := sessions[sid];
        sessions := sessions - {sid};
        RemoveBoth(s.expectedTags, s.ratchetedExpectedTags);
        if s.vpnIp.Some? && s.vpnIp.value in vpnIpMap && vpnIpMap[s.vpnIp.value] == sid {
          vpnIpMap := vpnIpMap - {s.vpnIp.value};
        }
        SessionDropped(sid);
        ViewParts();
        assert View() == Remove(old(View()), sid);
      } else {
        ViewAt(sid);
        assert sessions - {sid} == sessions;
      }
    }

    method RollbackFailedSession(sid: Sid, order: seq<Sid>)
      requires Valid()
      modifies this
      ensures Valid() && View() == Rollback(old(View()), sid, order)
      ensures sessions == old(sessions) - {sid}
    {
      hide Remove, Find, View, Sessions;
      ViewAt(sid);
      var ip := if sid in sessions then sessions[sid].vpnIp else None;
      RemoveSession(sid);
      ViewAt(sid);
      if ip.Some? {
        var heir := FindFirst(order, Holder(ip.value));
        if heir.Some? {
          Route(ip.value, heir.value);
        }
      }
    }

    method CleanupOldSessionsForVpnIp(ip: Ip, keep: Sid, order: seq<Sid>)
      requires Valid()
      modifies this
      ensures Valid() && View() == CleanupForVpnIp(old(View()), ip, keep, order)
      ensures sessions.Keys <= old(sessions.Keys) && forall id :: id in sessions ==> sessions[id] == old(sessions)[id]
    {
      var victims: seq<Sid> := [];
      for i := 0 to |order|
        invariant victims == Holders(View(), ip, keep, order[..i])
        invariant View() == old(View()) && sessions == old(sessions)
      {
        assert order[..i + 1][..i] == order[..i];
        var sid := order[i];
        if sid in sessions && sessions[sid].vpnIp == Some(ip) && sid != keep {
          victims := victims + [sid];
        }
      }
      assert order[..|order|] == order;
      for i := 0 to |victims|
        invariant Valid() && View() == RemoveAll(old(View()), victims[..i])
        invariant sessions.Keys <= old(sessions.Keys) && forall id :: id in sessions ==>
                    sessions[id] == old(sessions)[id]
      {
        assert victims[..i + 1][..i] == victims[..i];
        RemoveSession(victims[i]);
      }
      assert victims[..|victims|] == victims;
    }

    // ---- Lookup, refresh, recovery ---------------------------------------------

    method GetSessionByTag(tag: Tag) returns (sid: Option<Sid>)
      ensures sid == GetByTag(View(), tag)
    {
      if tag in tagMap && tagMap[tag] in sessions {
        return Some(tagMap[tag]);
      }
      return None;
    }

    method RefreshSession(sid: Sid, tw: nat)
      requires Valid() && sid in sessions
      modifies this`tagMap, sessions[sid]
      ensures View() == RefreshOne(old(View()), sid, tw)
    {
      hide SessionState.UpdateTagWindow, SessionState.UpdateRatchetedTagWindow, Assign;
      MoveTags(sessions[sid], sid, tw);
      OneSessionChanged(sid);
    }

    /** Both windows of a session are recomputed, each with its index entries. */
    method MoveTags(s: ServerSession, sid: Sid, tw: nat)
      modifies this`tagMap, s
      ensures var (s0, s1, s2) := (old(s.View()), old(s.View()).UpdateTagWindow(tw),
                                   old(s.View()).UpdateTagWindow(tw).UpdateRatchetedTagWindow(tw));
              && s.View() == s2
              && tagMap == ((old(tagMap) - s0.expectedTags.Values) + Assign(s1.expectedTags.Values, sid)
                            - s1.ratchetedTags.Values) + Assign(s2.ratchetedTags.Values, sid)
    {
      hide SessionState.UpdateTagWindow, SessionState.UpdateRatchetedTagWindow, Assign;
      RemoveTags(s.expectedTags);
      s.UpdateTagWindow(tw);
      ghost var s1 := s.View();
      InsertTags(s.expectedTags, sid);
      RemoveTags(s.ratchetedExpectedTags);
      assert s.View() == s1;
      s.UpdateRatchetedTagWindow(tw);
      InsertTags(s.ratchetedExpectedTags, sid);
    }

    method RefreshAndFindByTag(order: seq<Sid>, tag: Tag, tw: nat) returns (r: Option<(Sid, nat, bool)>)
      requires Valid()
      modifies this`tagMap, sessions.Values
      ensures (View(), r) == RefreshAndFind(old(View()), order, tag, tw)
    {
      hide RefreshOne, View, Sessions, SessionState.ValidateTag;
      for i := 0 to |order|
        invariant RefreshAndFind(old(View()), order, tag, tw) == RefreshAndFind(View(), order[i..], tag, tw)
      {
        var sid := order[i];
        assert order[i..][1..] == order[i + 1..];
        ViewAt(sid);
        RefreshOneOf(View(), sid, tw);
        if sid in sessions {
          RefreshSession(sid, tw);
          ViewAt(sid);
          var v := sessions[sid].ValidateTag(tag, tw);
          if v.Some? {
            return Some((sid, v.value.0, v.value.1));
          }
        }
      }
      return None;
    }

    static lemma RefreshOneOf(t: Table, sid: Sid, tw: nat)
      ensures sid !in t.sessions ==> RefreshOne(t, sid, tw) == t
      ensures RefreshOne(t, sid, tw).sessions.Keys == t.sessions.Keys
    {}

    method DropEntries(sid: Sid)
      modifies this`tagMap
      ensures tagMap == Without(old(tagMap), sid)
    {
      tagMap := map tag | tag in tagMap && tagMap[tag] != sid :: tagMap[tag];
    }

    method RecoverSessionByTag(order: seq<Sid>, tag: Tag, ip: Ip, tw: nat) returns (r: Option<(Sid, nat, bool)>)
      requires Valid()
      modifies this`tagMap, sessions.Values
      ensures (View(), r) == RecoverByTag(old(View()), order, tag, ip, tw)
    {
      var found := FindFirst(order, Recoverable(ip, tag, tw));
      if found.None? {
        return None;
      }
      var sid := found.value;
      hide Assign, Without, Find, Wanted.Matches, SessionState.Recover;
      RecoverTags(sessions[sid], sid, tag.counter, tw);
      OneSessionChanged(sid);
      return Some((sid, tag.counter, false));
    }

    /** A session jumps to `counter`; only its initial tags are indexed afterwards. */
    method RecoverTags(s: ServerSession, sid: Sid, counter: nat, tw: nat)
      modifies this`tagMap, s
      ensures s.View() == old(s.View()).Recover(counter, tw)
      ensures tagMap == Without(old(tagMap), sid) + Assign(s.expectedTags.Values, sid)
    {
      hide Assign, Without, SessionState.UpdateTagWindow;
      s.counter := counter;
      s.UpdateTagWindow(tw);
      ghost var moved := s.View();
      DropEntries(sid);
      InsertTags(s.expectedTags, sid);
      assert s.View() == moved;
    }

    method RefreshTagsOf(sid: Sid)
      requires Valid()
      modifies this`tagMap
      ensures View() == RefreshSessionTags(old(View()), sid)
    {
      if sid in sessions {
        var s := sessions[sid];
        DropEntries(sid);
        InsertBoth(s.expectedTags, s.ratchetedExpectedTags, sid);
        NoSessionChanged();
      }
    }

    method CompleteRatchetOf(sid: Sid)
      requires Valid()
      modifies this`tagMap, sessions.Values
      ensures View() == CompleteSessionRatchet(old(View()), sid)
    {
      if sid in sessions {
        var s := sessions[sid];
        RemoveTags(s.expectedTags);
        s.CompleteRatchet();
        InsertTags(s.expectedTags, sid);
        OneSessionChanged(sid);
      }
    }

    // ---- Work on one session under its lock --------------------------------------

    method ReceiveOn(sid: Sid, c: nat, isNew: bool, from: Addr, tw: nat) returns (refreshTags: bool)
      requires Valid() && sid in sessions
      modifies sessions[sid]
      ensures View() == SetSession(old(View()), sid, old(View()).sessions[sid].Receive(c, isNew, from, tw))
      ensures refreshTags == (c >= old(View()).sessions[sid].windowBase + REFRESH_DISTANCE)
    {
      hide SessionState.Receive;
      refreshTags := sessions[sid].Receive(c, isNew, from, tw);
      OneSessionChanged(sid);
    }

    method NextSendOn(sid: Sid)
      requires Valid() && sid in sessions
      modifies sessions[sid]
      ensures View() == SetSession(old(View()), sid, old(View()).sessions[sid].NextSend())
    {
      var _ := sessions[sid].NextSendNonce();
      OneSessionChanged(sid);
    }

    /** The authenticated client is noted and the ServerHello takes a counter. */
    method GreetOn(sid: Sid, clientId: Option<nat>)
      requires Valid() && sid in sessions
      modifies sessions[sid]
      ensures View() == SetSession(old(View()), sid, old(View()).sessions[sid].(clientId := clientId).NextSend())
    {
      sessions[sid].clientId := clientId;
      var _ := sessions[sid].NextSendNonce();
      OneSessionChanged(sid);
    }
  }
}
