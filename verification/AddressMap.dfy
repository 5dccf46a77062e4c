/** Handshake attempts, rollbacks and take-overs: sessions, index and address map together. */
module AddressMap {
  import opened Wrappers
  import opened Crypto
  import opened Datagram
  import opened Session
  import opened SessionTable
  import opened TableInvariants

  ghost predicate Covers(order: seq<Sid>, t: Table) {
    forall sid :: sid in t.sessions ==> sid in order
  }

  lemma {:induction false} FindSpec(order: seq<Sid>, t: Table, w: Wanted)
    ensures var r := Find(order, t, w);
            && (r.Some? ==> r.value in order && r.value in t.sessions && w.Matches(t.sessions[r.value]))
            && (r.None? ==> forall sid :: sid in order && sid in t.sessions ==> !w.Matches(t.sessions[sid]))
    decreases |order|
  {
    if order != [] && !(order[0] in t.sessions && w.Matches(t.sessions[order[0]])) {
      FindSpec(order[1..], t, w);
      assert forall sid :: sid in order ==> sid == order[0] || sid in order[1..];
    }
  }

  // ---- A failed attempt ---------------------------------------------------------

  lemma RemoveInserted(t: Table, sid: Sid, s: SessionState, chosen: (Option<Ip>, nat))
    requires sid !in t.sessions
    ensures Remove(Insert(t, sid, s, chosen), sid)
         == Table(t.sessions, (t.tagMap + Assign(OwnTags(s), sid)) - OwnTags(s),
                  if chosen.0.Some? then t.vpnIpMap - {chosen.0.value} else t.vpnIpMap, chosen.1)
  {
    var t1 := Insert(t, sid, s, chosen);
    assert OwnTags(t1.sessions[sid]) == OwnTags(s);
    assert t1.sessions - {sid} == t.sessions;
    if chosen.0.Some? {
      assert t1.vpnIpMap - {chosen.0.value} == t.vpnIpMap - {chosen.0.value};
    }
  }

  lemma AddressGoesBack(t: Table, removed: Table, ip: Ip, order: seq<Sid>)
    requires IpInverse(t) && Covers(order, t)
    requires removed.sessions == t.sessions && removed.vpnIpMap == t.vpnIpMap - {ip}
    ensures var heir := Find(order, removed, Holder(ip));
            (if heir.None? then removed.vpnIpMap else removed.vpnIpMap[ip := heir.value]) == t.vpnIpMap
  {
    var heir := Find(order, removed, Holder(ip));
    FindSpec(order, removed, Holder(ip));
    if ip in t.vpnIpMap {
      assert t.vpnIpMap[ip] in order;
    }
  }

  /** Inserting a session and rolling it back restores sessions and addresses, and takes the
      attempt's tags out of the index: it restores the index exactly when none of them was there. */
  lemma InsertThenRollback(t: Table, sid: Sid, s: SessionState, chosen: (Option<Ip>, nat), order: seq<Sid>)
    requires IpInverse(t) && sid !in t.sessions && Covers(order, t)
    ensures var t' := Rollback(Insert(t, sid, s, chosen), sid, order);
            && t' == t.(tagMap := t.tagMap - OwnTags(s), nextOctet := chosen.1)
            && (t'.tagMap == t.tagMap <==> t.tagMap.Keys !! OwnTags(s))
  {
    var t1 := Insert(t, sid, s, chosen);
    RemoveInserted(t, sid, s, chosen);
    TagsComeAndGo(t.tagMap, sid, OwnTags(s));
    assert t1.sessions[sid].vpnIp == chosen.0;
    if chosen.0.Some? {
      AddressGoesBack(t, Remove(t1, sid), chosen.0.value, order);
    }
  }

  lemma TagsComeAndGo(m: map<Tag, Sid>, sid: Sid, tags: set<Tag>)
    ensures (m + Assign(tags, sid)) - tags == m - tags
    ensures m - tags == m <==> m.Keys !! tags
  {
    if !(m.Keys !! tags) {
      var tag :| tag in m && tag in tags;
      assert tag !in m - tags;
    }
  }

  // ---- A successful attempt -------------------------------------------------------

  lemma {:induction false} RemoveAllHolders(t: Table, sids: seq<Sid>, ip: Ip, keep: Sid)
    requires ip in t.vpnIpMap && t.vpnIpMap[ip] == keep
    requires forall sid :: sid in sids ==> sid != keep && sid in t.sessions && t.sessions[sid].vpnIp == Some(ip)
    ensures var t' := RemoveAll(t, sids);
            && t'.sessions == t.sessions - (set sid | sid in sids)
            && t'.vpnIpMap == t.vpnIpMap && t'.nextOctet == t.nextOctet
    decreases |sids|
  {
    if sids != [] {
      var front, last := sids[..|sids| - 1], sids[|sids| - 1];
      assert forall sid :: sid in front ==> sid in sids;
      assert last in sids;
      RemoveAllHolders(t, front, ip, keep);
      assert forall sid :: sid in sids <==> sid in front || sid == last;
    }
  }

  lemma {:induction false} HoldersSpec(t: Table, ip: Ip, keep: Sid, order: seq<Sid>)
    ensures forall sid :: sid in Holders(t, ip, keep, order) <==>
              sid in order && sid in t.sessions && t.sessions[sid].vpnIp == Some(ip) && sid != keep
    decreases |order|
  {
    if order != [] {
      HoldersSpec(t, ip, keep, order[..|order| - 1]);
      assert forall sid :: sid in order <==> sid in order[..|order| - 1] || sid == order[|order| - 1];
    }
  }

  /** The live holders of an address. */
  function HoldersOf(t: Table, ip: Ip): set<Sid> {
    set id | id in t.sessions && t.sessions[id].vpnIp == Some(ip)
  }

  lemma FormerHolders(t: Table, sid: Sid, s: SessionState, ip: Ip, t1: Table, order: seq<Sid>)
    requires sid !in t.sessions && Covers(order, t) && t1.sessions == t.sessions[sid := s]
    ensures (set id | id in Holders(t1, ip, sid, order)) == HoldersOf(t, ip)
  {
    HoldersSpec(t1, ip, sid, order);
  }

  lemma TakeOverMaps(t: Table, sid: Sid, s: SessionState, ip: Ip, t1: Table, order: seq<Sid>)
    requires sid !in t.sessions && Covers(order, t)
    requires t1.sessions == t.sessions[sid := s] && t1.vpnIpMap == t.vpnIpMap[ip := sid]
    ensures var t' := CleanupForVpnIp(t1, ip, sid, order);
            && t'.sessions == (t.sessions - HoldersOf(t, ip))[sid := s]
            && t'.vpnIpMap == t.vpnIpMap[ip := sid]
  {
    HoldersSpec(t1, ip, sid, order);
    RemoveAllHolders(t1, Holders(t1, ip, sid, order), ip, sid);
    FormerHolders(t, sid, s, ip, t1, order);
    SetThenDrop(t.sessions, sid, s, HoldersOf(t, ip));
  }

  lemma SetThenDrop<K, V>(m: map<K, V>, k: K, v: V, gone: set<K>)
    requires k !in gone
    ensures m[k := v] - gone == (m - gone)[k := v]
  {}

  /** A handshake that takes an address over: exactly the new session is added, exactly the
      former holder of the address goes, and the address map is the inverse again. */
  lemma TakeOverKeepsInverse(t: Table, sid: Sid, s: SessionState, ip: Ip, octet: nat, order: seq<Sid>)
    requires IpInverse(t) && sid !in t.sessions && Covers(order, t)
    ensures var t' := CleanupForVpnIp(Insert(t, sid, s, (Some(ip), octet)), ip, sid, order);
            && t'.sessions == (t.sessions - HoldersOf(t, ip))[sid := s.(vpnIp := Some(ip))]
            && IpInverse(t')
  {
    TakeOverMaps(t, sid, s.(vpnIp := Some(ip)), ip, Insert(t, sid, s, (Some(ip), octet)), order);
    InverseAfterTakeOver(t, sid, s.(vpnIp := Some(ip)), ip,
                         CleanupForVpnIp(Insert(t, sid, s, (Some(ip), octet)), ip, sid, order));
  }

  lemma InverseAfterTakeOver(t: Table, sid: Sid, s: SessionState, ip: Ip, t': Table)
    requires IpInverse(t) && sid !in t.sessions && s.vpnIp == Some(ip)
    requires t'.sessions == (t.sessions - HoldersOf(t, ip))[sid := s]
    requires t'.vpnIpMap == t.vpnIpMap[ip := sid]
    ensures IpInverse(t')
  {}

  lemma InsertWithoutIpKeepsInverse(t: Table, sid: Sid, s: SessionState, octet: nat)
    requires IpInverse(t) && sid !in t.sessions
    ensures IpInverse(Insert(t, sid, s, (None, octet)))
  {}

  lemma RemoveKeepsInverse(t: Table, sid: Sid)
    requires IpInverse(t)
    ensures IpInverse(Remove(t, sid))
  {}

  lemma SameIpsKeepInverse(t: Table, t': Table)
    requires IpInverse(t) && t'.vpnIpMap == t.vpnIpMap && t'.sessions.Keys == t.sessions.Keys
    requires forall sid :: sid in t.sessions ==> t'.sessions[sid].vpnIp == t.sessions[sid].vpnIp
    ensures IpInverse(t')
  {}

  /** With the address map an inverse, at most one live session holds an address, and routing
      by address finds exactly that session. */
  lemma OneHolderPerAddress(t: Table, ip: Ip, sid: Sid)
    requires IpInverse(t)
    ensures GetByVpnIp(t, ip) == Some(sid) <==> sid in t.sessions && t.sessions[sid].vpnIp == Some(ip)
    ensures forall a, b :: (a in t.sessions && b in t.sessions && t.sessions[a].vpnIp.Some?
                            && t.sessions[a].vpnIp == t.sessions[b].vpnIp) ==> a == b
  {}
}
