/** What each operation on the session table keeps. */
module TableInvariants {
  import opened Wrappers
  import opened Crypto
  import opened Datagram
  import opened Session
  import opened SessionTable

  // ---- The fast index as a map between sets of tags ------------------------------

  /** From `m` to `m'`, the entries of `sid` become exactly `tags`; all others stay. */
  ghost predicate Rewrites(m: map<Tag, Sid>, m': map<Tag, Sid>, sid: Sid, tags: set<Tag>) {
    && (forall tag :: tag in m' <==> tag in tags || (tag in m && m[tag] != sid))
    && (forall tag :: tag in tags ==> m'[tag] == sid)
    && (forall tag :: tag in m && m[tag] != sid ==> m'[tag] == m[tag])
  }

  lemma RewriteKeepsAgreement(m: map<Tag, Sid>, own: map<Sid, set<Tag>>, m': map<Tag, Sid>, sid: Sid, tags: set<Tag>)
    requires NoStale(m, own) && Rewrites(m, m', sid, tags)
    ensures NoStale(m', own[sid := tags])
    ensures NoMissing(m, own) ==> NoMissing(m', own[sid := tags])
  {}

  /** The weaker half: in `m'`, entries of `sid` are for its tags only, and all others are from `m`. */
  ghost predicate Confines(m: map<Tag, Sid>, m': map<Tag, Sid>, sid: Sid, tags: set<Tag>) {
    forall tag :: tag in m' ==> if m'[tag] == sid then tag in tags else tag in m && m[tag] == m'[tag]
  }

  lemma ConfinedIsNotStale(m: map<Tag, Sid>, own: map<Sid, set<Tag>>, m': map<Tag, Sid>, sid: Sid, tags: set<Tag>)
    requires NoStale(m, own) && Confines(m, m', sid, tags)
    ensures NoStale(m', own[sid := tags])
  {}

  ghost predicate MineOnly(m: map<Tag, Sid>, sid: Sid, tags: set<Tag>) {
    forall tag :: tag in tags && tag in m ==> m[tag] == sid
  }

  /** Replacing one batch of a session's tags by another. */
  lemma SwapBatch(m: map<Tag, Sid>, sid: Sid, before: set<Tag>, after: set<Tag>, rest: set<Tag>)
    requires MineOnly(m, sid, before) && MineOnly(m, sid, after) && MineOnly(m, sid, rest)
    requires after !! rest
    requires forall tag :: tag in m && m[tag] == sid ==> tag in before + rest
    requires before !! rest
    ensures var m' := (m - before) + Assign(after, sid);
            && MineOnly(m', sid, rest) && MineOnly(m', sid, after)
            && (forall tag :: tag in m' && m'[tag] == sid ==> tag in after + rest)
            && (forall tag :: tag in rest && tag in m ==> tag in m' && m'[tag] == sid)
            && (forall tag :: tag in after ==> tag in m' && m'[tag] == sid)
            && (forall tag :: tag in m && m[tag] != sid ==> tag in m' && m'[tag] == m[tag])
            && (forall tag :: tag in m' && m'[tag] != sid ==> tag in m && m[tag] == m'[tag])
  {}

  // ---- Tags and secrets ----------------------------------------------------------

  lemma TagSecrets(s: SessionState)
    requires WindowExact(s)
    ensures forall tag :: tag in s.expectedTags.Values ==> tag.secret == s.keys.tagSecret
    ensures forall tag :: tag in s.ratchetedTags.Values ==>
              s.ratchetedKeys.Some? && tag.secret == s.ratchetedKeys.value.tagSecret
  {}

  lemma OwnSecrets(s: SessionState)
    requires WindowExact(s)
    ensures forall tag :: tag in OwnTags(s) ==> tag.secret in Secrets(s)
  {
    TagSecrets(s);
  }

  /** Tags under a session's own secrets are indexed, if at all, under that session. */
  lemma SecretsMark(t: Table, sid: Sid, tags: set<Tag>)
    requires WindowsExact(t) && SecretsApart(t) && NoStale(t.tagMap, Owned(t)) && sid in t.sessions
    requires forall tag :: tag in tags ==> tag.secret in Secrets(t.sessions[sid])
    ensures MineOnly(t.tagMap, sid, tags)
  {
    forall tag | tag in tags && tag in t.tagMap
      ensures t.tagMap[tag] == sid
    {
      var id := t.tagMap[tag];
      assert id in Owned(t) && tag in Owned(t)[id];
      OwnSecrets(t.sessions[id]);
    }
  }

  // ---- Replacing one session ------------------------------------------------------

  lemma SecretsStayApart(t: Table, sid: Sid, s: SessionState, t': Table)
    requires SecretsApart(t) && sid in t.sessions && Secrets(s) <= Secrets(t.sessions[sid])
    requires t'.sessions == t.sessions[sid := s]
    ensures SecretsApart(t')
  {
    forall a, b | a in t'.sessions && b in t'.sessions && a != b
      ensures Secrets(t'.sessions[a]) !! Secrets(t'.sessions[b])
    {
      assert Secrets(t'.sessions[a]) <= Secrets(t.sessions[a]);
      assert Secrets(t'.sessions[b]) <= Secrets(t.sessions[b]);
    }
  }

  lemma WindowsStayExact(t: Table, sid: Sid, s: SessionState, t': Table)
    requires WindowsExact(t) && WindowExact(s) && t'.sessions == t.sessions[sid := s]
    ensures WindowsExact(t')
  {}

  lemma OwnedAfterSet(t: Table, sid: Sid, s: SessionState, t': Table)
    requires t'.sessions == t.sessions[sid := s]
    ensures Owned(t') == Owned(t)[sid := OwnTags(s)]
  {
    hide OwnTags;
  }

  /** A session and its part of the index replaced together: nothing becomes stale. */
  lemma ReplaceStays(t: Table, sid: Sid, s: SessionState, t': Table)
    requires Inv(t, Basic) && sid in t.sessions && WindowExact(s)
    requires t'.sessions == t.sessions[sid := s] && Confines(t.tagMap, t'.tagMap, sid, OwnTags(s))
    ensures Inv(t', Basic)
  {
    hide WindowExact, OwnTags;
    WindowsStayExact(t, sid, s, t');
    OwnedAfterSet(t, sid, s, t');
    ConfinedIsNotStale(t.tagMap, Owned(t), t'.tagMap, sid, OwnTags(s));
  }

  /** If exactly the session's entries are replaced, whatever is known of the table stays known. */
  lemma ReplaceKeeps(t: Table, level: Level, sid: Sid, s: SessionState, t': Table)
    requires Inv(t, level) && sid in t.sessions
    requires WindowExact(s) && Secrets(s) <= Secrets(t.sessions[sid])
    requires t'.sessions == t.sessions[sid := s] && Rewrites(t.tagMap, t'.tagMap, sid, OwnTags(s))
    ensures Inv(t', level)
  {
    hide WindowExact, OwnTags, Secrets;
    ReplaceStays(t, sid, s, t');
    if level != Basic {
      SecretsStayApart(t, sid, s, t');
      OwnedAfterSet(t, sid, s, t');
      RewriteKeepsAgreement(t.tagMap, Owned(t), t'.tagMap, sid, OwnTags(s));
    }
  }

  lemma RefreshOneKeeps(t: Table, level: Level, sid: Sid, tw: nat)
    requires Inv(t, level)
    ensures Inv(RefreshOne(t, sid, tw), level)
  {
    if sid in t.sessions {
      var s := t.sessions[sid];
      var s1 := s.UpdateTagWindow(tw);
      var s2 := s1.UpdateRatchetedTagWindow(tw);
      WindowIn(t, level, sid);
      UpdateKeepsWindow(s, tw);
      RatchetedUpdateKeepsWindow(s1, tw);
      RefreshConfines(t, level, sid, s, s1, s2);
      hide Inv, WindowExact, OwnTags, Assign;
      if level == Basic {
        ReplaceStays(t, sid, s2, RefreshOne(t, sid, tw));
      } else {
        RefreshRewrites(t, level, sid, s, s1, s2);
        ReplaceKeeps(t, level, sid, s2, RefreshOne(t, sid, tw));
      }
    }
  }

  lemma WindowIn(t: Table, level: Level, sid: Sid)
    requires Inv(t, level) && sid in t.sessions
    ensures WindowExact(t.sessions[sid])
  {}

  lemma EntriesOf(t: Table, level: Level, sid: Sid)
    requires Inv(t, level) && sid in t.sessions
    ensures forall tag :: tag in t.tagMap && t.tagMap[tag] == sid ==> tag in OwnTags(t.sessions[sid])
  {
    assert forall tag :: tag in t.tagMap && t.tagMap[tag] == sid ==> tag in Owned(t)[sid];
  }

  lemma RefreshConfines(t: Table, level: Level, sid: Sid, s: SessionState, s1: SessionState, s2: SessionState)
    requires Inv(t, level) && sid in t.sessions && s == t.sessions[sid]
    requires s1.ratchetedTags == s.ratchetedTags && s2.expectedTags == s1.expectedTags
    ensures var m1 := (t.tagMap - s.expectedTags.Values) + Assign(s1.expectedTags.Values, sid);
            var m2 := (m1 - s1.ratchetedTags.Values) + Assign(s2.ratchetedTags.Values, sid);
            Confines(t.tagMap, m2, sid, OwnTags(s2))
  {
    EntriesOf(t, level, sid);
    ConfinedBySwaps(t.tagMap, sid, s.expectedTags.Values, s1.expectedTags.Values, s.ratchetedTags.Values,
                    s2.ratchetedTags.Values);
  }

  lemma ConfinedBySwaps(m: map<Tag, Sid>, sid: Sid, e: set<Tag>, e': set<Tag>, r: set<Tag>, r': set<Tag>)
    requires forall tag :: tag in m && m[tag] == sid ==> tag in e + r
    ensures var m1 := (m - e) + Assign(e', sid); Confines(m, (m1 - r) + Assign(r', sid), sid, e' + r')
  {}

  /** Swapping first the initial and then the ratcheted tags rewrites the session's entries. */
  lemma RefreshRewrites(t: Table, level: Level, sid: Sid, s: SessionState, s1: SessionState, s2: SessionState)
    requires Inv(t, level) && level != Basic && sid in t.sessions && s == t.sessions[sid]
    requires WindowExact(s1) && WindowExact(s2)
    requires s1.keys == s2.keys == s.keys && s1.ratchetedKeys == s2.ratchetedKeys == s.ratchetedKeys
    requires s1.ratchetedTags == s.ratchetedTags && s2.expectedTags == s1.expectedTags
    ensures var m1 := (t.tagMap - s.expectedTags.Values) + Assign(s1.expectedTags.Values, sid);
            var m2 := (m1 - s1.ratchetedTags.Values) + Assign(s2.ratchetedTags.Values, sid);
            Rewrites(t.tagMap, m2, sid, OwnTags(s2))
  {
    var e, r, e', r' := s.expectedTags.Values, s.ratchetedTags.Values, s1.expectedTags.Values, s2.ratchetedTags.Values;
    TagSecrets(s); TagSecrets(s1); TagSecrets(s2);
    SecretsMark(t, sid, e); SecretsMark(t, sid, r); SecretsMark(t, sid, e'); SecretsMark(t, sid, r');
    EntriesOf(t, level, sid);
    SwapBatch(t.tagMap, sid, e, e', r);
    var m1 := (t.tagMap - e) + Assign(e', sid);
    SwapBatch(m1, sid, r, r', e');
  }

  /** Refreshing any prefix of the sessions keeps the invariants; the tags stay findable. */
  lemma {:induction false} RefreshAndFindKeeps(t: Table, level: Level, order: seq<Sid>, tag: Tag, tw: nat)
    requires Inv(t, level)
    ensures Inv(RefreshAndFind(t, order, tag, tw).0, level)
    decreases |order|
  {
    if order != [] {
      RefreshOneKeeps(t, level, order[0], tw);
      RefreshAndFindKeeps(RefreshOne(t, order[0], tw), level, order[1..], tag, tw);
    }
  }

  /** Dropping every entry of a session and adding tags that no other session indexes. */
  lemma WithoutRewrites(m: map<Tag, Sid>, sid: Sid, tags: set<Tag>)
    requires MineOnly(m, sid, tags)
    ensures Rewrites(m, Without(m, sid) + Assign(tags, sid), sid, tags)
  {}

  lemma WithoutConfines(m: map<Tag, Sid>, sid: Sid, tags: set<Tag>)
    ensures Confines(m, Without(m, sid) + Assign(tags, sid), sid, tags)
  {}

  /** A session whose tag window moved in place, with its index entries rebuilt: whatever else
      changed in the session, the invariants hold again. */
  lemma SetAndRefreshKeeps(t: Table, level: Level, sid: Sid, s: SessionState)
    requires Inv(t, level) && sid in t.sessions
    requires WindowExact(s) && Secrets(s) <= Secrets(t.sessions[sid])
    ensures Inv(RefreshSessionTags(SetSession(t, sid, s), sid), level)
  {
    var t' := RefreshSessionTags(SetSession(t, sid, s), sid);
    WithoutConfines(t.tagMap, sid, OwnTags(s));
    OwnSecrets(s);
    hide WindowExact, OwnTags;
    if level == Basic {
      ReplaceStays(t, sid, s, t');
    } else {
      SecretsMark(t, sid, OwnTags(s));
      WithoutRewrites(t.tagMap, sid, OwnTags(s));
      ReplaceKeeps(t, level, sid, s, t');
    }
  }

  /** A change that leaves a session's tags alone needs no rebuild. */
  lemma SetSameTagsKeeps(t: Table, level: Level, sid: Sid, s: SessionState)
    requires Inv(t, level) && sid in t.sessions
    requires WindowExact(s) && Secrets(s) <= Secrets(t.sessions[sid]) && OwnTags(s) == OwnTags(t.sessions[sid])
    ensures Inv(SetSession(t, sid, s), level)
  {
    var t' := SetSession(t, sid, s);
    WindowsStayExact(t, sid, s, t');
    OwnedUnchanged(t, sid, s, t');
    if level != Basic {
      SecretsStayApart(t, sid, s, t');
    }
  }

  lemma OwnedUnchanged(t: Table, sid: Sid, s: SessionState, t': Table)
    requires sid in t.sessions && OwnTags(s) == OwnTags(t.sessions[sid])
    requires t'.sessions == t.sessions[sid := s]
    ensures Owned(t') == Owned(t)
  {}

  /** The ratchet of one session moves its entries to the ratcheted tags. */
  lemma RatchetKeeps(t: Table, level: Level, sid: Sid)
    requires Inv(t, level)
    ensures Inv(CompleteSessionRatchet(t, sid), level)
  {
    if sid in t.sessions {
      var s := t.sessions[sid];
      var s' := s.CompleteRatchet();
      WindowIn(t, level, sid);
      RatchetKeepsWindow(s);
      RatchetConfines(t, level, sid);
      RatchetDropsSecrets(s);
      hide WindowExact, OwnTags, Secrets, SessionState.CompleteRatchet;
      if level == Basic {
        ReplaceStays(t, sid, s', CompleteSessionRatchet(t, sid));
      } else {
        RatchetRewrites(t, level, sid, s, s');
        ReplaceKeeps(t, level, sid, s', CompleteSessionRatchet(t, sid));
      }
    }
  }

  lemma RatchetDropsSecrets(s: SessionState)
    ensures Secrets(s.CompleteRatchet()) <= Secrets(s)
  {}

  lemma RatchetConfines(t: Table, level: Level, sid: Sid)
    requires Inv(t, level) && sid in t.sessions
    ensures Confines(t.tagMap, CompleteSessionRatchet(t, sid).tagMap, sid, OwnTags(t.sessions[sid].CompleteRatchet()))
  {
    EntriesOf(t, level, sid);
    WindowIn(t, level, sid);
    RatchetedTagsOnly(t.sessions[sid]);
  }

  lemma RatchetRewrites(t: Table, level: Level, sid: Sid, s: SessionState, s': SessionState)
    requires Inv(t, level) && level != Basic && sid in t.sessions && s == t.sessions[sid] && s' == s.CompleteRatchet()
    ensures Rewrites(t.tagMap, (t.tagMap - s.expectedTags.Values) + Assign(s'.expectedTags.Values, sid), sid,
                     OwnTags(s'))
  {
    var e, r := s.expectedTags.Values, s.ratchetedTags.Values;
    TagSecrets(s);
    SecretsMark(t, sid, e);
    SecretsMark(t, sid, r);
    EntriesOf(t, level, sid);
    RatchetedTagsOnly(s);
    PromoteRewrites(t.tagMap, sid, e, r);
    if s.ratchetedKeys.None? {
      WithoutMine(t.tagMap, sid, e);
    }
  }

  lemma RatchetedTagsOnly(s: SessionState)
    requires WindowExact(s)
    ensures s.ratchetedKeys.Some? ==>
              s.CompleteRatchet().expectedTags.Values == OwnTags(s.CompleteRatchet()) == s.ratchetedTags.Values
    ensures s.ratchetedKeys.None? ==>
              s.CompleteRatchet() == s && OwnTags(s) == s.expectedTags.Values && s.ratchetedTags.Values == {}
  {}

  lemma PromoteRewrites(m: map<Tag, Sid>, sid: Sid, e: set<Tag>, r: set<Tag>)
    requires MineOnly(m, sid, e) && MineOnly(m, sid, r)
    requires forall tag :: tag in m && m[tag] == sid ==> tag in e + r
    ensures Rewrites(m, (m - e) + Assign(r, sid), sid, r)
  {}

  lemma WithoutMine(m: map<Tag, Sid>, sid: Sid, e: set<Tag>)
    requires MineOnly(m, sid, e)
    requires forall tag :: tag in m && m[tag] == sid ==> tag in e
    ensures Rewrites(m, (m - e) + Assign(e, sid), sid, e)
  {}

  /** Counter recovery leaves nothing stale.  It rebuilds the initial tags only, so the index
      still agrees with the scan exactly when the session has no other tags: once ratcheted. */
  lemma RecoveryKeepsNoStale(t: Table, level: Level, order: seq<Sid>, tag: Tag, ip: Ip, tw: nat)
    requires Inv(t, level)
    ensures var (t', found) := RecoverByTag(t, order, tag, ip, tw);
            && Inv(t', Lowered(level))
            && (level == Full && found.Some? ==> (Inv(t', Full) <==> t.sessions[found.value.0].isRatcheted))
            && (found.None? ==> Inv(t', level))
  {
    var (t', found) := RecoverByTag(t, order, tag, ip, tw);
    if found.Some? {
      RecoveredStays(t, level, order, tag, ip, tw);
      if level != Basic {
        RecoveredStaysApart(t, level, order, tag, ip, tw);
      }
    }
  }

  lemma RecoveredStays(t: Table, level: Level, order: seq<Sid>, tag: Tag, ip: Ip, tw: nat)
    requires Inv(t, level) && RecoverByTag(t, order, tag, ip, tw).1.Some?
    ensures Inv(RecoverByTag(t, order, tag, ip, tw).0, Basic)
  {
    var (t', found) := RecoverByTag(t, order, tag, ip, tw);
    var sid := found.value.0;
    var s' := t.sessions[sid].Recover(tag.counter, tw);
    UpdateKeepsWindow(t.sessions[sid].(counter := tag.counter), tw);
    WithoutConfines(t.tagMap, sid, s'.expectedTags.Values);
    ReplaceStays(t, sid, s', t');
  }

  lemma RecoveredStaysApart(t: Table, level: Level, order: seq<Sid>, tag: Tag, ip: Ip, tw: nat)
    requires Inv(t, level) && level != Basic && RecoverByTag(t, order, tag, ip, tw).1.Some?
    ensures var (t', found) := RecoverByTag(t, order, tag, ip, tw);
            && SecretsApart(t')
            && (level == Full ==> (NoMissing(t'.tagMap, Owned(t')) <==> t.sessions[found.value.0].isRatcheted))
  {
    var (t', found) := RecoverByTag(t, order, tag, ip, tw);
    var sid := found.value.0;
    var s := t.sessions[sid];
    var s' := s.Recover(tag.counter, tw);
    UpdateKeepsWindow(s.(counter := tag.counter), tw);
    TagSecrets(s');
    SecretsMark(t, sid, s'.expectedTags.Values);
    WithoutRewrites(t.tagMap, sid, s'.expectedTags.Values);
    SecretsStayApart(t, sid, s', t');
    OwnedAfterSet(t, sid, s', t');
    PartialRewrite(t.tagMap, Owned(t), t'.tagMap, sid, s'.expectedTags.Values, OwnTags(s'));
    RatchetedTagsExist(s');
  }

  lemma RatchetedTagsExist(s: SessionState)
    requires WindowExact(s)
    ensures s.isRatcheted <==> s.ratchetedTags.Values <= s.expectedTags.Values
  {
    if !s.isRatcheted {
      assert 0 in s.ratchetedTags;
      assert s.ratchetedTags[0] in s.ratchetedTags.Values;
      TagSecrets(s);
    }
  }

  lemma PartialRewrite(m: map<Tag, Sid>, own: map<Sid, set<Tag>>, m': map<Tag, Sid>, sid: Sid, part: set<Tag>,
                       tags: set<Tag>)
    requires NoStale(m, own) && Rewrites(m, m', sid, part) && part <= tags
    ensures NoStale(m', own[sid := tags])
    ensures NoMissing(m, own) ==> (NoMissing(m', own[sid := tags]) <==> tags <= part)
  {
    var own' := own[sid := tags];
    if NoMissing(m', own') {
      forall tag | tag in tags ensures tag in part {
        assert tag in own'[sid];
      }
    }
  }

  // ---- Adding and removing a session ----------------------------------------------

  lemma RemoveKeeps(t: Table, level: Level, sid: Sid)
    requires Inv(t, level)
    ensures Inv(Remove(t, sid), level)
  {
    hide WindowExact, OwnTags, Secrets, WindowsExact, SecretsApart, NoStale, NoMissing, Owned;
    if sid in t.sessions {
      FewerSessions(t, sid, Remove(t, sid));
      RemovalLeavesNoStale(t.tagMap, Owned(t), sid);
      if level != Basic {
        WindowIn(t, level, sid);
        OwnSecrets(t.sessions[sid]);
        SecretsMark(t, sid, OwnTags(t.sessions[sid]));
        RemovalKeepsAgreement(t.tagMap, Owned(t), sid);
      }
    }
  }

  lemma FewerSessions(t: Table, sid: Sid, t': Table)
    requires t'.sessions == t.sessions - {sid}
    ensures WindowsExact(t) ==> WindowsExact(t')
    ensures SecretsApart(t) ==> SecretsApart(t')
    ensures Owned(t') == Owned(t) - {sid}
    ensures sid in t.sessions ==> sid in Owned(t) && Owned(t)[sid] == OwnTags(t.sessions[sid])
  {
    hide WindowExact, OwnTags, Secrets;
  }

  lemma RemovalLeavesNoStale(m: map<Tag, Sid>, own: map<Sid, set<Tag>>, sid: Sid)
    requires NoStale(m, own) && sid in own
    ensures NoStale(m - own[sid], own - {sid})
  {
    forall tag | tag in m - own[sid]
      ensures m[tag] in own - {sid}
    {
      assert tag in own[m[tag]];
    }
  }

  lemma RemovalKeepsAgreement(m: map<Tag, Sid>, own: map<Sid, set<Tag>>, sid: Sid)
    requires sid in own && MineOnly(m, sid, own[sid])
    ensures NoMissing(m, own) ==> NoMissing(m - own[sid], own - {sid})
  {}

  /** Index entries dropped without their sessions: nothing becomes stale, and the index stays
      complete exactly when none of them was there. */
  lemma LosingTags(t: Table, level: Level, tags: set<Tag>, octet: nat)
    requires Inv(t, level)
    ensures var t' := t.(tagMap := t.tagMap - tags, nextOctet := octet);
            && Inv(t', Lowered(level))
            && (t.tagMap.Keys !! tags ==> Inv(t', level))
            && (level == Full ==> (Inv(t', Full) <==> t.tagMap.Keys !! tags))
  {
    var t' := t.(tagMap := t.tagMap - tags, nextOctet := octet);
    hide WindowExact, Secrets, OwnTags;
    assert Owned(t') == Owned(t);
    if t.tagMap.Keys !! tags {
      assert t'.tagMap == t.tagMap;
    } else {
      var tag :| tag in t.tagMap && tag in tags;
      assert t.tagMap[tag] in Owned(t) && tag in Owned(t)[t.tagMap[tag]];
    }
  }

  /** A new session whose secrets no live session has. */
  ghost predicate FreshSecrets(t: Table, s: SessionState) {
    forall id :: id in t.sessions ==> Secrets(t.sessions[id]) !! Secrets(s)
  }

  /** A new session never makes anything stale; with fresh secrets it leaves everything known. */
  lemma InsertKeeps(t: Table, level: Level, sid: Sid, s: SessionState, chosen: (Option<Ip>, nat))
    requires Inv(t, level) && sid !in t.sessions && WindowExact(s)
    ensures Inv(Insert(t, sid, s, chosen), Basic)
    ensures FreshSecrets(t, s) ==> Inv(Insert(t, sid, s, chosen), level)
  {
    var t', s' := Insert(t, sid, s, chosen), s.(vpnIp := chosen.0);
    OnlyAddress(s, s');
    WindowsStayExact(t, sid, s', t');
    OwnedAfterSet(t, sid, s', t');
    InsertKeepsAgreement(t.tagMap, Owned(t), sid, OwnTags(s));
    if level != Basic && FreshSecrets(t, s) {
      FreshTagsUnindexed(t, level, s);
      OneMoreSession(t, sid, s, s', t');
    }
  }

  lemma OneMoreSession(t: Table, sid: Sid, s: SessionState, s': SessionState, t': Table)
    requires SecretsApart(t) && sid !in t.sessions && FreshSecrets(t, s)
    requires s' == s.(vpnIp := s'.vpnIp) && t'.sessions == t.sessions[sid := s']
    ensures SecretsApart(t')
  {
    hide OwnTags, Secrets;
    OnlyAddress(s, s');
    forall a, b | a in t'.sessions && b in t'.sessions && a != b
      ensures Secrets(t'.sessions[a]) !! Secrets(t'.sessions[b])
    {}
  }

  lemma OnlyAddress(s: SessionState, s': SessionState)
    requires s' == s.(vpnIp := s'.vpnIp)
    ensures Secrets(s') == Secrets(s) && OwnTags(s') == OwnTags(s) && (WindowExact(s) ==> WindowExact(s'))
  {}

  lemma FreshTagsUnindexed(t: Table, level: Level, s: SessionState)
    requires Inv(t, level) && WindowExact(s) && FreshSecrets(t, s)
    ensures t.tagMap.Keys !! OwnTags(s)
  {
    OwnSecrets(s);
    forall tag | tag in t.tagMap && tag in OwnTags(s)
      ensures false
    {
      var id := t.tagMap[tag];
      assert tag in Owned(t)[id];
      OwnSecrets(t.sessions[id]);
    }
  }

  /** Indexing a further session makes nothing stale, and agrees with the scan exactly when its
      tags are not another's. */
  lemma InsertKeepsAgreement(m: map<Tag, Sid>, own: map<Sid, set<Tag>>, sid: Sid, tags: set<Tag>)
    requires NoStale(m, own) && sid !in own
    ensures NoStale(m + Assign(tags, sid), own[sid := tags])
    ensures NoMissing(m, own) ==>
              (NoMissing(m + Assign(tags, sid), own[sid := tags]) <==> m.Keys !! tags)
  {
    if NoMissing(m, own) {
      if m.Keys !! tags {
        FreshInsertKeepsAll(m, own, sid, tags);
      } else {
        var tag :| tag in m && tag in tags;
        SharedTagMissing(m, own, sid, tags, tag);
      }
    }
  }

  lemma FreshInsertKeepsAll(m: map<Tag, Sid>, own: map<Sid, set<Tag>>, sid: Sid, tags: set<Tag>)
    requires NoMissing(m, own) && m.Keys !! tags
    ensures NoMissing(m + Assign(tags, sid), own[sid := tags])
  {}

  lemma SharedTagMissing(m: map<Tag, Sid>, own: map<Sid, set<Tag>>, sid: Sid, tags: set<Tag>, tag: Tag)
    requires NoStale(m, own) && sid !in own && tag in m && tag in tags
    ensures !NoMissing(m + Assign(tags, sid), own[sid := tags])
  {
    var m', own' := m + Assign(tags, sid), own[sid := tags];
    var other := m[tag];
    assert other in own && tag in own[other] && other != sid;
    assert other in own' && tag in own'[other] && m'[tag] == sid;
  }
}
