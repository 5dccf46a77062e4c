/** One server session: its tag window, replay bitmap, two key epochs and send counter. */
module Session {
  import opened Wrappers
  import opened Crypto
  import opened Datagram
  import RecvWindow

  const TAG_WINDOW_SIZE: nat := 256
  const REFRESH_DISTANCE: nat := 64
  const RECOVERY_RANGE: nat := 65536

  datatype Ip = Ip(a: nat, b: nat, c: nat, d: nat)
  datatype Addr = Addr(ip: Ip, port: nat)

  /** Precomputed tags by counter. */
  type TagTable = m: map<nat, Tag> | forall c :: c in m ==> m[c].counter == c witness map[]

  predicate Holds(m: TagTable, tag: Tag) {
    tag.counter in m && m[tag.counter] == tag
  }

  function TagsFor(secret: Key, first: nat, last: nat, tw: nat): TagTable {
    map c: nat | first <= c <= last :: Tag(secret, c, tw)
  }

  datatype SessionState = SessionState(
    addr: Addr,
    keys: SessionKeys,
    ephPub: Pub,
    counter: nat,
    sendCounter: nat,
    expectedTags: TagTable,
    windowBase: nat,
    bits: set<nat>,
    serverEphPub: Option<Pub>,
    signature: Signature,
    ratchetedKeys: Option<SessionKeys>,
    ratchetedTags: TagTable,
    isRatcheted: bool,
    vpnIp: Option<Ip>,
    clientId: Option<nat>)
  {
    function WindowStart(): nat { Back(counter) }

    function WindowEnd(): nat { counter + (TAG_WINDOW_SIZE - 1) }

    function UpdateTagWindow(tw: nat): SessionState {
      this.(windowBase := counter, expectedTags := TagsFor(keys.tagSecret, WindowStart(), WindowEnd(), tw))
    }

    function UpdateRatchetedTagWindow(tw: nat): SessionState {
      match ratchetedKeys
      case None => this
      case Some(rk) => this.(ratchetedTags := TagsFor(rk.tagSecret, 0, TAG_WINDOW_SIZE - 1, tw))
    }

    /** Both windows recomputed, as the refresh of all sessions does. */
    function Refreshed(tw: nat): SessionState { UpdateTagWindow(tw).UpdateRatchetedTagWindow(tw) }

    predicate IsReplay(c: nat) {
      c <= counter && counter - c < TAG_WINDOW_SIZE && counter - c in bits
    }

    /** The counter a tag stands for and whether it belongs to the ratcheted keys. */
    function ValidateTag(tag: Tag, now: nat): Option<(nat, bool)> {
      var adjacent := tag.window == PrevWindow(now) || tag.window == NextWindow(now);
      if Holds(expectedTags, tag)
        || (adjacent && tag.secret == keys.tagSecret && WindowStart() <= tag.counter <= WindowEnd())
      then
        if IsReplay(tag.counter) then None else Some((tag.counter, false))
      else if !isRatcheted
        && (Holds(ratchetedTags, tag)
            || (adjacent && ratchetedKeys.Some? && tag.secret == ratchetedKeys.value.tagSecret
                && tag.counter < TAG_WINDOW_SIZE))
      then Some((tag.counter, true))
      else None
    }

    function MarkTagReceived(c: nat): SessionState {
      if c > counter then
        this.(bits := RecvWindow.Above(bits, c - counter) + {0}, counter := c)
      else if counter - c < TAG_WINDOW_SIZE then
        this.(bits := bits + {counter - c})
      else this
    }

    function CompleteRatchet(): SessionState {
      match ratchetedKeys
      case None => this
      case Some(rk) =>
        this.(keys := rk, counter := 0, sendCounter := 0, windowBase := 0,
              expectedTags := ratchetedTags, ratchetedTags := map[], bits := {}, isRatcheted := true,
              ratchetedKeys := None, serverEphPub := None, signature := NoSignature)
    }

    function NextSend(): SessionState { this.(sendCounter := sendCounter + 1) }

    /** Counter recovery moves the counter and the tag window, not the bitmap. */
    function Recover(c: nat, tw: nat): SessionState {
      this.(counter := c).UpdateTagWindow(tw)
    }

    // ---- Opening and accepting a datagram whose tag was validated ------------

    function OpeningKey(ratchetedTag: bool): Option<Key> {
      if !ratchetedTag then Some(keys.sessionKey)
      else if ratchetedKeys.Some? then Some(ratchetedKeys.value.sessionKey)
      else None
    }

    predicate Opens(d: Datagram, c: nat, ratchetedTag: bool, isNew: bool) {
      var offset := PayloadOffset(d.size, isNew, ratchetedTag, isRatcheted);
      d.size > offset && OpeningKey(ratchetedTag).Some? && d.Opens(OpeningKey(ratchetedTag).value, c, offset)
    }

    /** The session after a validated datagram, and whether the datagram was accepted. */
    function Accept(d: Datagram, c: nat, ratchetedTag: bool, isNew: bool, from: Addr, tw: nat): (SessionState, bool) {
      if !Opens(d, c, ratchetedTag, isNew) then (this, false) else
      var s1 := if ratchetedTag then CompleteRatchet() else this;
      if d.sealed.plain.Malformed? then (s1, false) else
      (s1.Receive(c, isNew, from, tw), true)
    }

    function Receive(c: nat, isNew: bool, from: Addr, tw: nat): SessionState {
      var marked := MarkTagReceived(c);
      var s := if isNew then marked else marked.(addr := from);
      if c >= s.windowBase + REFRESH_DISTANCE then s.UpdateTagWindow(tw) else s
    }
  }

  /** `counter.saturating_sub(255)`. */
  function Back(c: nat): nat { if c < TAG_WINDOW_SIZE then 0 else c - (TAG_WINDOW_SIZE - 1) }

  /** The session `create_session` builds, before an address is assigned. */
  function NewSession(from: Addr, eph: Pub, initial: SessionKeys, ratcheted: SessionKeys,
                      serverEph: Pub, signature: Signature, tw: nat): SessionState {
    SessionState(from, initial, eph, 0, 0, map[], 0, {}, Some(serverEph), signature, Some(ratcheted), map[], false,
                 None, None)
      .UpdateTagWindow(tw).UpdateRatchetedTagWindow(tw)
  }

  // ---- The window invariant ---------------------------------------------------

  ghost predicate TagsAre(m: TagTable, secret: Key, first: nat, last: nat) {
    exists tw: nat :: m == TagsFor(secret, first, last, tw)
  }

  /** The precomputed tags are exactly those of the current key around a base at most 63
      behind the highest counter; the ratcheted ones are exactly the first 256 of the next key. */
  ghost predicate WindowExact(s: SessionState) {
    && s.windowBase <= s.counter < s.windowBase + 64
    && TagsAre(s.expectedTags, s.keys.tagSecret, Back(s.windowBase), s.windowBase + 255)
    && s.isRatcheted == s.ratchetedKeys.None?
    && (s.ratchetedKeys.None? ==> s.ratchetedTags == map[])
    && (s.ratchetedKeys.Some? ==>
          && TagsAre(s.ratchetedTags, s.ratchetedKeys.value.tagSecret, 0, 255)
          && s.ratchetedKeys.value.tagSecret != s.keys.tagSecret
          && s.ratchetedKeys.value.sessionKey != s.keys.sessionKey)
  }

  lemma UpdateKeepsWindow(s: SessionState, tw: nat)
    requires s.isRatcheted == s.ratchetedKeys.None?
    requires s.ratchetedKeys.None? ==> s.ratchetedTags == map[]
    requires s.ratchetedKeys.Some? ==>
          && TagsAre(s.ratchetedTags, s.ratchetedKeys.value.tagSecret, 0, 255)
          && s.ratchetedKeys.value.tagSecret != s.keys.tagSecret
          && s.ratchetedKeys.value.sessionKey != s.keys.sessionKey
    ensures WindowExact(s.UpdateTagWindow(tw))
  {}

  lemma RecoverKeepsWindow(s: SessionState, c: nat, tw: nat)
    requires WindowExact(s)
    ensures WindowExact(s.Recover(c, tw))
  {
    UpdateKeepsWindow(s.(counter := c), tw);
  }

  lemma RatchetedUpdateKeepsWindow(s: SessionState, tw: nat)
    requires WindowExact(s)
    ensures WindowExact(s.UpdateRatchetedTagWindow(tw))
  {}

  lemma RefreshTwice(s: SessionState, tw: nat)
    ensures s.Refreshed(tw).Refreshed(tw) == s.Refreshed(tw)
  {
    hide TagsFor;
  }

  lemma RefreshedTags(s: SessionState, tw: nat)
    ensures var r := s.Refreshed(tw);
            && r.expectedTags == TagsFor(s.keys.tagSecret, Back(s.counter), s.counter + 255, tw)
            && (s.ratchetedKeys.Some? ==> r.ratchetedTags == TagsFor(s.ratchetedKeys.value.tagSecret, 0, 255, tw))
            && (s.ratchetedKeys.None? ==> r.ratchetedTags == s.ratchetedTags)
  {
    hide TagsFor;
  }

  lemma RefreshedIsExact(s: SessionState, tw: nat)
    requires WindowExact(s)
    ensures WindowExact(s.Refreshed(tw))
    ensures var r := s.Refreshed(tw); r.keys == s.keys && r.counter == s.counter && r.bits == s.bits
  {
    UpdateKeepsWindow(s, tw);
    RatchetedUpdateKeepsWindow(s.UpdateTagWindow(tw), tw);
  }

  lemma RatchetKeepsWindow(s: SessionState)
    requires WindowExact(s)
    ensures WindowExact(s.CompleteRatchet())
  {}

  /** Once a session has ratcheted it takes no tag of the keys it had before, and holds neither the
      server's ephemeral key nor its signature any more. */
  lemma FormerKeysAreDead(s: SessionState, tag: Tag, now: nat)
    requires WindowExact(s) && s.ratchetedKeys.Some? && tag.secret == s.keys.tagSecret
    ensures var r := s.CompleteRatchet();
            r.ValidateTag(tag, now) == None && r.serverEphPub == None && r.signature == NoSignature && r.isRatcheted
  {}

  lemma ReceiveKeepsWindow(s: SessionState, c: nat, isNew: bool, from: Addr, tw: nat)
    requires WindowExact(s)
    ensures WindowExact(s.Receive(c, isNew, from, tw))
  {
    var marked := s.MarkTagReceived(c);
    var m := if isNew then marked else marked.(addr := from);
    if c >= m.windowBase + REFRESH_DISTANCE {
      UpdateKeepsWindow(m, tw);
    }
  }

  /** Accepting a datagram, ratchet included, leaves the precomputed window exact, and with it
      every counter from 255 behind to 192 ahead of the highest. */
  lemma AcceptKeepsWindow(s: SessionState, d: Datagram, c: nat, ratchetedTag: bool, isNew: bool, from: Addr, tw: nat)
    requires WindowExact(s)
    ensures WindowExact(s.Accept(d, c, ratchetedTag, isNew, from, tw).0)
  {
    if s.Opens(d, c, ratchetedTag, isNew) {
      var s1 := if ratchetedTag then s.CompleteRatchet() else s;
      RatchetKeepsWindow(s);
      ReceiveKeepsWindow(s1, c, isNew, from, tw);
    }
  }

  /** What receiving changes in a session besides its tag window: the marked counter. */
  lemma ReceiveIsMark(s: SessionState, c: nat, isNew: bool, from: Addr, tw: nat)
    ensures var (r, m) := (s.Receive(c, isNew, from, tw), s.MarkTagReceived(c));
            && r.bits == m.bits && r.counter == m.counter
            && r.keys == s.keys && r.ratchetedKeys == s.ratchetedKeys && r.sendCounter == s.sendCounter
  {}

  /** Accepting touches keys and send counter only by the ratchet, and then both together. */
  lemma AcceptAndKeys(s: SessionState, d: Datagram, c: nat, ratchetedTag: bool, isNew: bool, from: Addr, tw: nat)
    requires WindowExact(s)
    ensures var (s', accepted) := s.Accept(d, c, ratchetedTag, isNew, from, tw);
            if ratchetedTag && s.Opens(d, c, ratchetedTag, isNew) then
              && s.ratchetedKeys == Some(s'.keys) && s'.sendCounter == 0 && s'.ratchetedKeys == None
            else
              && s'.keys == s.keys && s'.sendCounter == s.sendCounter && s'.ratchetedKeys == s.ratchetedKeys
  {}

  lemma PrecomputedRange(s: SessionState, k: nat)
    requires WindowExact(s)
    requires s.counter <= k + 255 && k <= s.counter + 192
    ensures k in s.expectedTags && s.expectedTags[k].secret == s.keys.tagSecret
  {}

  // ---- Which tags a refreshed session takes ------------------------------------

  /** `tag` is one the client of session `s` may send next: under the current key for an
      unreceived counter at most 255 away from the highest, or, before the ratchet, under the
      next key for one of the first 256 counters; in a time window next to the server's. */
  predicate Genuine(s: SessionState, tag: Tag, ratcheted: bool, tw: nat) {
    && NearWindow(tw, tag.window)
    && (if ratcheted then
          s.ratchetedKeys.Some? && tag.secret == s.ratchetedKeys.value.tagSecret && tag.counter < 256
        else
          && tag.secret == s.keys.tagSecret
          && s.counter <= tag.counter + 255 && tag.counter <= s.counter + 255 && !s.IsReplay(tag.counter))
  }

  /** After a refresh exactly the genuine tags validate, with their own counter and key epoch. */
  lemma RefreshedValidates(s: SessionState, tag: Tag, ratcheted: bool, tw: nat)
    requires WindowExact(s)
    ensures s.Refreshed(tw).ValidateTag(tag, tw) == Some((tag.counter, ratcheted)) <==> Genuine(s, tag, ratcheted, tw)
  {
    hide TagsAre;
    RefreshedTags(s, tw);
  }

  /** What a session takes, it takes for the tag's own counter. */
  lemma TakesOwnCounter(s: SessionState, tag: Tag, now: nat)
    ensures s.ValidateTag(tag, now) in
              {None, Some((tag.counter, false)), Some((tag.counter, true))}
  {}
}
