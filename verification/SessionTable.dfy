/** The server's three maps, and every operation that changes them.

    Iteration order of the concurrent maps, fresh ids, ephemeral scalars and the time
    window are arguments. */
module SessionTable {
  import opened Wrappers
  import opened Crypto
  import opened Datagram
  import opened Session

  const MAX_SESSIONS: nat := 500
  const MAX_SESSIONS_PER_IP: nat := 5

  type Sid = nat

  /** The server's static key and signing key. */
  datatype Identity = Identity(scalar: nat, signer: nat)

  /** The random and environmental part of one `create_session` call. */
  datatype Draw = Draw(sid: Sid, serverEph: nat, createOrder: seq<Sid>, rollbackOrder: seq<Sid>)

  datatype Table = Table(
    sessions: map<Sid, SessionState>,
    tagMap: map<Tag, Sid>,
    vpnIpMap: map<Ip, Sid>,
    nextOctet: nat)

  /** All tags precomputed for a session, under either epoch. */
  function OwnTags(s: SessionState): set<Tag> {
    s.expectedTags.Values + s.ratchetedTags.Values
  }

  function Assign(tags: set<Tag>, sid: Sid): map<Tag, Sid> {
    map tag | tag in tags :: sid
  }

  // ---- Operations -------------------------------------------------------------

  /** What an iteration over all sessions looks for. */
  datatype Wanted =
    | Holder(ip: Ip)
    | Reusable(from: Ip)
    | Recoverable(from: Ip, tag: Tag, tw: nat)
  {
    predicate Matches(s: SessionState) {
      match this
      case Holder(ip) => s.vpnIp == Some(ip)
      case Reusable(from) => s.addr.ip == from && s.vpnIp.Some?
      case Recoverable(from, tag, tw) =>
        && s.addr.ip == from && tag.secret == s.keys.tagSecret
        && s.counter <= tag.counter < s.counter + RECOVERY_RANGE && NearWindow(tw, tag.window)
    }
  }

  /** The first wanted session in iteration order. */
  function Find(order: seq<Sid>, t: Table, w: Wanted): Option<Sid> {
    if order == [] then None
    else if order[0] in t.sessions && w.Matches(t.sessions[order[0]]) then Some(order[0])
    else Find(order[1..], t, w)
  }

  function SessionsFrom(t: Table, ip: Ip): set<Sid> {
    set sid | sid in t.sessions && t.sessions[sid].addr.ip == ip
  }

  function IpCount(t: Table, ip: Ip): nat { |SessionsFrom(t, ip)| }

  /** The address of some session of the same client address, if one has any. */
  function ReusedIp(t: Table, order: seq<Sid>, from: Ip): Option<Ip> {
    var reuse := Find(order, t, Reusable(from));
    if reuse.Some? && reuse.value in t.sessions then t.sessions[reuse.value].vpnIp else None
  }

  /** The address of a new session, and the next octet: static, else reused, else automatic. */
  function ChooseIp(t: Table, order: seq<Sid>, from: Ip, staticIp: Option<Ip>): (Option<Ip>, nat) {
    if staticIp.Some? then (staticIp, t.nextOctet)
    else if ReusedIp(t, order, from).Some? then (ReusedIp(t, order, from), t.nextOctet)
    else
      ((if t.nextOctet <= 254 then Some(Ip(10, 0, 0, t.nextOctet)) else None),
       (t.nextOctet + 1) % 0x1_0000_0000)
  }

  /** The limits on all sessions and on those of one client address. */
  predicate WithinLimits(t: Table, from: Ip) {
    |t.sessions| < MAX_SESSIONS && IpCount(t, from) < MAX_SESSIONS_PER_IP
  }

  /** The session built for a client key and a pre-shared key; None when the key is rejected. */
  function Build(id: Identity, draw: Draw, from: Addr, eph: Pub, psk: Option<Key>, tw: nat): Option<SessionState> {
    var dh1, dh2 := ComputeShared(id.scalar, eph), ComputeShared(draw.serverEph, eph);
    if dh1.None? || dh2.None? then None else
    var initial := DeriveSessionKeys(dh1.value, psk, eph);
    var ratcheted := DeriveSessionKeys(dh2.value, Some(initial.sessionKey), eph);
    Some(NewSession(from, eph, initial, ratcheted, Pub(draw.serverEph),
                    Signature(id.signer, Pub(draw.serverEph), eph), tw))
  }

  function Create(t: Table, id: Identity, draw: Draw, from: Addr, eph: Pub,
                  psk: Option<Key>, staticIp: Option<Ip>, tw: nat): Option<Table> {
    var built := Build(id, draw, from, eph, psk, tw);
    if !WithinLimits(t, from.ip) || built.None? then None else
    Some(Insert(t, draw.sid, built.value, ChooseIp(t, draw.createOrder, from.ip, staticIp)))
  }

  function Insert(t: Table, sid: Sid, s: SessionState, chosen: (Option<Ip>, nat)): Table {
    Table(t.sessions[sid := s.(vpnIp := chosen.0)],
          t.tagMap + Assign(OwnTags(s), sid),
          (match chosen.0 case Some(ip) => t.vpnIpMap[ip := sid] case None => t.vpnIpMap),
          chosen.1)
  }

  function Remove(t: Table, sid: Sid): Table {
    if sid !in t.sessions then t else
    var s := t.sessions[sid];
    t.(sessions := t.sessions - {sid},
       tagMap := t.tagMap - OwnTags(s),
       vpnIpMap := if s.vpnIp.Some? && s.vpnIp.value in t.vpnIpMap && t.vpnIpMap[s.vpnIp.value] == sid
                   then t.vpnIpMap - {s.vpnIp.value} else t.vpnIpMap)
  }

  function Rollback(t: Table, sid: Sid, order: seq<Sid>): Table {
    var ip := if sid in t.sessions then t.sessions[sid].vpnIp else None;
    var removed := Remove(t, sid);
    if ip.None? then removed else
    var heir := Find(order, removed, Holder(ip.value));
    if heir.None? then removed
    else removed.(vpnIpMap := removed.vpnIpMap[ip.value := heir.value])
  }

  function RemoveAll(t: Table, sids: seq<Sid>): Table {
    if sids == [] then t else Remove(RemoveAll(t, sids[..|sids| - 1]), sids[|sids| - 1])
  }

  /** The sessions in `order` that hold `ip`, other than `keep`. */
  function Holders(t: Table, ip: Ip, keep: Sid, order: seq<Sid>): seq<Sid> {
    if order == [] then []
    else
      var rest := Holders(t, ip, keep, order[..|order| - 1]);
      var sid := order[|order| - 1];
      if sid in t.sessions && t.sessions[sid].vpnIp == Some(ip) && sid != keep then rest + [sid] else rest
  }

  function CleanupForVpnIp(t: Table, ip: Ip, keep: Sid, order: seq<Sid>): Table {
    RemoveAll(t, Holders(t, ip, keep, order))
  }

  function GetByTag(t: Table, tag: Tag): Option<Sid> {
    if tag in t.tagMap && t.tagMap[tag] in t.sessions then Some(t.tagMap[tag]) else None
  }

  function GetByVpnIp(t: Table, ip: Ip): Option<Sid> {
    if ip in t.vpnIpMap && t.vpnIpMap[ip] in t.sessions then Some(t.vpnIpMap[ip]) else None
  }

  function RefreshOne(t: Table, sid: Sid, tw: nat): Table {
    if sid !in t.sessions then t else
    var s := t.sessions[sid];
    var s1 := s.UpdateTagWindow(tw);
    var s2 := s1.UpdateRatchetedTagWindow(tw);
    var m1 := (t.tagMap - s.expectedTags.Values) + Assign(s1.expectedTags.Values, sid);
    var m2 := (m1 - s1.ratchetedTags.Values) + Assign(s2.ratchetedTags.Values, sid);
    t.(sessions := t.sessions[sid := s2], tagMap := m2)
  }

  function RefreshAndFind(t: Table, order: seq<Sid>, tag: Tag, tw: nat): (Table, Option<(Sid, nat, bool)>)
    decreases |order|
  {
    if order == [] then (t, None) else
    var t' := RefreshOne(t, order[0], tw);
    if order[0] in t'.sessions && t'.sessions[order[0]].ValidateTag(tag, tw).Some? then
      var (c, ratcheted) := t'.sessions[order[0]].ValidateTag(tag, tw).value;
      (t', Some((order[0], c, ratcheted)))
    else RefreshAndFind(t', order[1..], tag, tw)
  }

  function RecoverByTag(t: Table, order: seq<Sid>, tag: Tag, ip: Ip, tw: nat): (Table, Option<(Sid, nat, bool)>) {
    var found := Find(order, t, Recoverable(ip, tag, tw));
    if found.None? || found.value !in t.sessions then (t, None) else
    var sid := found.value;
    var s := t.sessions[sid].Recover(tag.counter, tw);
    (t.(sessions := t.sessions[sid := s],
        tagMap := Without(t.tagMap, sid) + Assign(s.expectedTags.Values, sid)),
     Some((sid, tag.counter, false)))
  }

  function Without(m: map<Tag, Sid>, sid: Sid): map<Tag, Sid> {
    map tag | tag in m && m[tag] != sid :: m[tag]
  }

  function RefreshSessionTags(t: Table, sid: Sid): Table {
    if sid !in t.sessions then t else
    t.(tagMap := Without(t.tagMap, sid) + Assign(OwnTags(t.sessions[sid]), sid))
  }

  function CompleteSessionRatchet(t: Table, sid: Sid): Table {
    if sid !in t.sessions then t else
    var s := t.sessions[sid];
    var s' := s.CompleteRatchet();
    t.(sessions := t.sessions[sid := s'],
       tagMap := (t.tagMap - s.expectedTags.Values) + Assign(s'.expectedTags.Values, sid))
  }

  function SetSession(t: Table, sid: Sid, s: SessionState): Table {
    t.(sessions := t.sessions[sid := s])
  }

  // ---- What the maps must agree on ----------------------------------------------

  /** The tags of every live session: the linear scan the fast index stands for. */
  function Owned(t: Table): map<Sid, set<Tag>> {
    map sid | sid in t.sessions :: OwnTags(t.sessions[sid])
  }

  /** Every entry of the fast index is a tag of a live session: nothing stale. */
  ghost predicate NoStale(m: map<Tag, Sid>, own: map<Sid, set<Tag>>) {
    forall tag :: tag in m ==> m[tag] in own && tag in own[m[tag]]
  }

  /** Every tag of a live session is in the index, under that session: nothing missing. */
  ghost predicate NoMissing(m: map<Tag, Sid>, own: map<Sid, set<Tag>>) {
    forall sid, tag :: sid in own && tag in own[sid] ==> tag in m && m[tag] == sid
  }

  ghost predicate IndexAgrees(t: Table) {
    NoStale(t.tagMap, Owned(t)) && NoMissing(t.tagMap, Owned(t))
  }

  /** The address map is the inverse of the sessions' address field; in particular at most one
      live session holds an address. */
  ghost predicate IpInverse(t: Table) {
    && (forall ip :: ip in t.vpnIpMap ==> t.vpnIpMap[ip] in t.sessions && t.sessions[t.vpnIpMap[ip]].vpnIp == Some(ip))
    && (forall sid :: sid in t.sessions && t.sessions[sid].vpnIp.Some? ==>
          t.sessions[sid].vpnIp.value in t.vpnIpMap && t.vpnIpMap[t.sessions[sid].vpnIp.value] == sid)
  }

  /** The tag secrets a session can ever use. */
  function Secrets(s: SessionState): set<Key> {
    {s.keys.tagSecret} + (if s.ratchetedKeys.Some? then {s.ratchetedKeys.value.tagSecret} else {})
  }

  ghost predicate SecretsApart(t: Table) {
    forall a, b :: a in t.sessions && b in t.sessions && a != b ==> Secrets(t.sessions[a]) !! Secrets(t.sessions[b])
  }

  ghost predicate WindowsExact(t: Table) {
    forall sid :: sid in t.sessions ==> WindowExact(t.sessions[sid])
  }

  /** How much is known: `Basic` holds after every operation; with `Apart` the sessions share no
      secret; with `Full` no tag is missing from the index either. */
  datatype Level = Basic | Apart | Full

  ghost predicate Inv(t: Table, level: Level) {
    && WindowsExact(t) && NoStale(t.tagMap, Owned(t))
    && (level != Basic ==> SecretsApart(t))
    && (level == Full ==> NoMissing(t.tagMap, Owned(t)))
  }

  /** The level without the completeness of the index. */
  function Lowered(level: Level): Level { if level == Full then Apart else level }

  /** The lookup agrees with a linear scan of all live sessions, in both directions. */
  lemma LookupIsScan(t: Table, tag: Tag, sid: Sid)
    requires IndexAgrees(t)
    ensures GetByTag(t, tag) == Some(sid) <==> sid in t.sessions && tag in OwnTags(t.sessions[sid])
    ensures GetByTag(t, tag) == None <==> forall id :: id in t.sessions ==> tag !in OwnTags(t.sessions[id])
  {
    if sid in t.sessions && tag in OwnTags(t.sessions[sid]) {
      assert tag in Owned(t)[sid];
    }
    if GetByTag(t, tag) == None {
      forall id | id in t.sessions ensures tag !in OwnTags(t.sessions[id]) {
        assert tag in Owned(t)[id] ==> tag in t.tagMap;
      }
    }
  }
}
