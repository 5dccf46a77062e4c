/** Every run of one server session: what it accepted and what it sent. */
module SessionRun {
  import opened Wrappers
  import opened Logs
  import opened Crypto
  import opened Datagram
  import opened Session
  import RecvWindow

  datatype Event =
    | Send
    | Receive(d: Datagram, isNew: bool, from: Addr, tw: nat)
    | Refresh(tw: nat)
    | Recovered(d: Datagram, from: Addr, tw: nat)

  /** A session with the (session key, counter) pairs it accepted and sealed so far. */
  datatype Run = Run(s: SessionState, accepted: seq<(Key, nat)>, sent: seq<(Key, nat)>) {
    function Step(e: Event): Run {
      match e
      case Send =>
        Run(s.NextSend(), accepted, sent + [(s.keys.sessionKey, s.sendCounter)])
      case Receive(d, isNew, from, tw) =>
        (match s.ValidateTag(d.tag, tw)
         case None => this
         case Some((c, ratcheted)) => Accepting(s.Accept(d, c, ratcheted, isNew, from, tw), c))
      case Refresh(tw) =>
        this.(s := s.Refreshed(tw))
      case Recovered(d, from, tw) =>
        if Recoverable(d.tag, tw) then
          Accepting(s.Recover(d.tag.counter, tw).Accept(d, d.tag.counter, false, false, from, tw), d.tag.counter)
        else this
    }

    function Accepting(r: (SessionState, bool), c: nat): Run {
      Run(r.0, if r.1 then accepted + [(r.0.keys.sessionKey, c)] else accepted, sent)
    }

    /** A tag of the current key ahead of the counter, which the session, refreshed, did not take:
        only then is recovery reached. */
    predicate Recoverable(tag: Tag, tw: nat) {
      && tag.secret == s.keys.tagSecret && s.counter <= tag.counter < s.counter + RECOVERY_RANGE
      && NearWindow(tw, tag.window) && s.Refreshed(tw).ValidateTag(tag, tw).None?
    }
  }

  function RunAll(s: SessionState, events: seq<Event>): Run {
    if events == [] then Run(s, [], [])
    else RunAll(s, events[..|events| - 1]).Step(events[|events| - 1])
  }

  /** The same from any point of a run on. */
  function Extend(r: Run, events: seq<Event>): Run {
    if events == [] then r
    else Extend(r, events[..|events| - 1]).Step(events[|events| - 1])
  }

  lemma {:induction false} RunAllExtends(s: SessionState, events: seq<Event>)
    ensures RunAll(s, events) == Extend(Run(s, [], []), events)
    decreases |events|
  {
    if events != [] {
      RunAllExtends(s, events[..|events| - 1]);
    }
  }

  lemma {:induction false} ExtendTwice(r: Run, a: seq<Event>, b: seq<Event>)
    ensures Extend(r, a + b) == Extend(Extend(r, a), b)
    decreases |b|
  {
    hide Run.Step;
    if b == [] {
      assert a + b == a;
    } else {
      assert (a + b)[..|a + b| - 1] == a + b[..|b| - 1];
      ExtendTwice(r, a, b[..|b| - 1]);
    }
  }

  lemma ExtendOnce(r: Run, e: Event)
    ensures Extend(r, [e]) == r.Step(e)
  {
    assert [e][..0] == [];
    assert Extend(r, []) == r;
  }

  /** The logs only collect; they decide nothing. */
  lemma {:induction false} LogsCollect(r: Run, events: seq<Event>)
    ensures var x := Extend(Run(r.s, [], []), events);
            Extend(r, events) == Run(x.s, r.accepted + x.accepted, r.sent + x.sent)
    decreases |events|
  {
    if events == [] {
      assert r.accepted + [] == r.accepted && r.sent + [] == r.sent;
    } else {
      var front, e := events[..|events| - 1], events[|events| - 1];
      LogsCollect(r, front);
      StepCollects(r, Extend(Run(r.s, [], []), front), e);
    }
  }

  lemma StepCollects(r: Run, x: Run, e: Event)
    ensures Run(x.s, r.accepted + x.accepted, r.sent + x.sent).Step(e)
         == Run(x.Step(e).s, r.accepted + x.Step(e).accepted, r.sent + x.Step(e).sent)
  {
    hide SessionState.Accept, SessionState.ValidateTag, SessionState.Recover, SessionState.UpdateTagWindow,
         SessionState.UpdateRatchetedTagWindow;
    assert forall p: (Key, nat) :: r.accepted + (x.accepted + [p]) == (r.accepted + x.accepted) + [p];
    assert forall p: (Key, nat) :: r.sent + (x.sent + [p]) == (r.sent + x.sent) + [p];
  }

  // ---- The tag window over every run -----------------------------------------

  lemma {:induction false} StepKeepsWindow(r: Run, e: Event)
    requires WindowExact(r.s)
    ensures WindowExact(r.Step(e).s)
  {
    hide SessionState.Accept, SessionState.ValidateTag, TagsFor;
    match e
    case Send =>
    case Receive(d, isNew, from, tw) =>
      var v := r.s.ValidateTag(d.tag, tw);
      if v.Some? {
        AcceptKeepsWindow(r.s, d, v.value.0, v.value.1, isNew, from, tw);
      }
    case Refresh(tw) =>
      UpdateKeepsWindow(r.s, tw);
      RatchetedUpdateKeepsWindow(r.s.UpdateTagWindow(tw), tw);
    case Recovered(d, from, tw) =>
      UpdateKeepsWindow(r.s.(counter := d.tag.counter), tw);
      AcceptKeepsWindow(r.s.Recover(d.tag.counter, tw), d, d.tag.counter, false, false, from, tw);
  }

  /** Over every run, recovery included, the precomputed tags stay exact around the base. */
  lemma {:induction false} WindowExactOverRuns(s: SessionState, events: seq<Event>)
    requires WindowExact(s)
    ensures WindowExact(RunAll(s, events).s)
  {
    if events != [] {
      WindowExactOverRuns(s, events[..|events| - 1]);
      StepKeepsWindow(RunAll(s, events[..|events| - 1]), events[|events| - 1]);
    }
  }

  // ---- Nonces ----------------------------------------------------------------

  ghost predicate SentBelow(r: Run) {
    && NoRepeats(r.sent)
    && (forall p :: p in r.sent && p.0 == r.s.keys.sessionKey ==> p.1 < r.s.sendCounter)
    && (r.s.ratchetedKeys.Some? ==> forall p :: p in r.sent ==> p.0 != r.s.ratchetedKeys.value.sessionKey)
  }

  lemma StepKeepsNonces(r: Run, e: Event)
    requires WindowExact(r.s) && SentBelow(r)
    ensures SentBelow(r.Step(e))
  {
    match e
    case Send =>
    case Receive(d, isNew, from, tw) =>
      var v := r.s.ValidateTag(d.tag, tw);
      if v.Some? {
        AcceptAndKeys(r.s, d, v.value.0, v.value.1, isNew, from, tw);
      }
    case Refresh(tw) =>
    case Recovered(d, from, tw) =>
      var s := r.s.Recover(d.tag.counter, tw);
      UpdateKeepsWindow(r.s.(counter := d.tag.counter), tw);
      AcceptAndKeys(s, d, d.tag.counter, false, false, from, tw);
  }

  /** No session key seals two packets with one counter, whatever is received between the
      sends: the counter restarts only in the step that consumes the ratcheted keys. */
  lemma {:induction false} NoncesNeverRepeat(s: SessionState, events: seq<Event>)
    requires WindowExact(s)
    ensures SentBelow(RunAll(s, events))
  {
    if events != [] {
      NoncesNeverRepeat(s, events[..|events| - 1]);
      WindowExactOverRuns(s, events[..|events| - 1]);
      StepKeepsNonces(RunAll(s, events[..|events| - 1]), events[|events| - 1]);
    }
  }

  lemma {:induction false} ExtendKeepsNonces(r: Run, events: seq<Event>)
    requires WindowExact(r.s) && SentBelow(r)
    ensures WindowExact(Extend(r, events).s) && SentBelow(Extend(r, events))
    decreases |events|
  {
    hide WindowExact, SentBelow, Run.Step;
    if events != [] {
      ExtendKeepsNonces(r, events[..|events| - 1]);
      StepKeepsWindow(Extend(r, events[..|events| - 1]), events[|events| - 1]);
      StepKeepsNonces(Extend(r, events[..|events| - 1]), events[|events| - 1]);
    }
  }

  // ---- Anti-replay -----------------------------------------------------------

  /** The counters a log holds under `key`. */
  function Counters(log: seq<(Key, nat)>, key: Key): set<nat> {
    set p | p in log && p.0 == key :: p.1
  }

  lemma InCounters(log: seq<(Key, nat)>, key: Key, c: nat)
    ensures (key, c) in log <==> c in Counters(log, key)
  {
    if (key, c) in log {
      assert (key, c).1 in Counters(log, key);
    }
  }

  lemma CountersOfAppend(log: seq<(Key, nat)>, p: (Key, nat), key: Key)
    ensures Counters(log + [p], key) == Counters(log, key) + (if p.0 == key then {p.1} else {})
  {
    var longer := log + [p];
    forall c | c in Counters(log, key) + (if p.0 == key then {p.1} else {})
      ensures c in Counters(longer, key)
    {
      assert (key, c) in longer;
    }
  }

  /** Bit d of a bitmap with highest counter h means: h - d is in `received`. */
  ghost predicate BitsName(bits: set<nat>, h: nat, received: set<nat>) {
    && (forall c :: c in received ==> c <= h)
    && (forall d :: d in bits <==> 0 <= d < 256 && d <= h && h - d in received)
  }

  lemma MarkNames(s: SessionState, received: set<nat>, c: nat)
    requires BitsName(s.bits, s.counter, received)
    ensures var m := s.MarkTagReceived(c); BitsName(m.bits, m.counter, received + {c})
  {
    var m := s.MarkTagReceived(c);
    if c > s.counter {
      var shift := c - s.counter;
      forall d
        ensures d in m.bits <==> 0 <= d < 256 && d <= c && c - d in received + {c}
      {
        if d > 0 && d in m.bits {
          assert d - shift in s.bits;
        }
        if d > 0 && d - shift in s.bits && d < 256 {
          assert (d - shift) + shift in RecvWindow.Above(s.bits, shift);
        }
      }
    }
  }

  /** The bitmap names what was accepted under the current key; nothing was under the next one. */
  ghost predicate BitsAreAccepted(r: Run) {
    && BitsName(r.s.bits, r.s.counter, Counters(r.accepted, r.s.keys.sessionKey))
    && (r.s.ratchetedKeys.Some? ==> Counters(r.accepted, r.s.ratchetedKeys.value.sessionKey) == {})
  }

  predicate NoRecovery(events: seq<Event>) {
    forall i :: 0 <= i < |events| ==> !events[i].Recovered?
  }

  lemma RatchetKeepsBits(r: Run)
    requires WindowExact(r.s) && BitsAreAccepted(r)
    ensures BitsAreAccepted(r.(s := r.s.CompleteRatchet()))
  {}

  lemma ReceiveKeepsBits(r: Run, e: Event)
    requires WindowExact(r.s) && BitsAreAccepted(r) && e.Receive? && r.s.ValidateTag(e.d.tag, e.tw).Some?
    ensures BitsAreAccepted(r.Step(e))
  {
    var (c, ratcheted) := r.s.ValidateTag(e.d.tag, e.tw).value;
    if r.s.Opens(e.d, c, ratcheted, e.isNew) {
      var s1 := if ratcheted then r.s.CompleteRatchet() else r.s;
      RatchetKeepsWindow(r.s);
      RatchetKeepsBits(r);
      assert BitsAreAccepted(r.(s := s1));
      if e.d.sealed.plain.Plain? {
        ReceiveIsMark(s1, c, e.isNew, e.from, e.tw);
        LoggedMarkKeepsBits(r.(s := s1), s1.Receive(c, e.isNew, e.from, e.tw), c);
      }
    }
  }

  lemma LoggedMarkKeepsBits(r: Run, s: SessionState, c: nat)
    requires WindowExact(r.s) && BitsAreAccepted(r)
    requires s.bits == r.s.MarkTagReceived(c).bits && s.counter == r.s.MarkTagReceived(c).counter
    requires s.keys == r.s.keys && s.ratchetedKeys == r.s.ratchetedKeys
    ensures BitsAreAccepted(Run(s, r.accepted + [(s.keys.sessionKey, c)], r.sent))
  {
    var key := s.keys.sessionKey;
    MarkNames(r.s, Counters(r.accepted, key), c);
    CountersOfAppend(r.accepted, (key, c), key);
    if s.ratchetedKeys.Some? {
      CountersOfAppend(r.accepted, (key, c), s.ratchetedKeys.value.sessionKey);
    }
  }

  /** Over every run without counter recovery, the bitmap is the log of accepted counters. */
  lemma {:induction false} BitmapOverRuns(s: SessionState, events: seq<Event>)
    requires WindowExact(s) && s.bits == {} && NoRecovery(events)
    ensures BitsAreAccepted(RunAll(s, events))
  {
    if events != [] {
      var front, e := events[..|events| - 1], events[|events| - 1];
      BitmapOverRuns(s, front);
      WindowExactOverRuns(s, front);
      var r := RunAll(s, front);
      assert !e.Recovered?;
      if e.Receive? && r.s.ValidateTag(e.d.tag, e.tw).Some? {
        ReceiveKeepsBits(r, e);
      }
    }
  }

  /** The highest counter received under the current key, 0 before any. */
  ghost predicate HighestIs(h: nat, received: set<nat>) {
    (forall c :: c in received ==> c <= h) && (h in received || (received == {} && h == 0))
  }

  lemma StepKeepsHighest(r: Run, e: Event)
    requires WindowExact(r.s) && BitsAreAccepted(r) && !e.Recovered?
    requires HighestIs(r.s.counter, Counters(r.accepted, r.s.keys.sessionKey))
    ensures var n := r.Step(e); HighestIs(n.s.counter, Counters(n.accepted, n.s.keys.sessionKey))
  {
    hide SessionState.ValidateTag, TagsFor, WindowExact, BitsName;
    if e.Receive? && r.s.ValidateTag(e.d.tag, e.tw).Some? {
      var (c, ratcheted) := r.s.ValidateTag(e.d.tag, e.tw).value;
      if r.s.Opens(e.d, c, ratcheted, e.isNew) && e.d.sealed.plain.Plain? {
        var s1 := if ratcheted then r.s.CompleteRatchet() else r.s;
        MarkIsHighest(s1, Counters(r.accepted, s1.keys.sessionKey), c);
        ReceiveIsMark(s1, c, e.isNew, e.from, e.tw);
        CountersOfAppend(r.accepted, (s1.keys.sessionKey, c), s1.keys.sessionKey);
      }
    }
  }

  lemma MarkIsHighest(s: SessionState, received: set<nat>, c: nat)
    requires HighestIs(s.counter, received)
    ensures HighestIs(s.MarkTagReceived(c).counter, received + {c})
  {}

  /** Over every run without counter recovery, the session's counter is the highest it accepted
      under its current key. */
  lemma {:induction false} HighestOverRuns(s: SessionState, events: seq<Event>)
    requires WindowExact(s) && s.bits == {} && s.counter == 0 && NoRecovery(events)
    ensures var r := RunAll(s, events); HighestIs(r.s.counter, Counters(r.accepted, r.s.keys.sessionKey))
    decreases |events|
  {
    hide WindowExact, Run.Step, BitsAreAccepted, HighestIs;
    if events != [] {
      var front := events[..|events| - 1];
      HighestOverRuns(s, front);
      BitmapOverRuns(s, front);
      WindowExactOverRuns(s, front);
      StepKeepsHighest(RunAll(s, front), events[|events| - 1]);
    } else {
      NothingReceived(s);
    }
  }

  lemma NothingReceived(s: SessionState)
    requires s.counter == 0
    ensures HighestIs(s.counter, Counters(RunAll(s, []).accepted, s.keys.sessionKey))
  {}

  // ---- Anti-replay with counter recovery ----------------------------------------

  /** Every received counter within 255 of the highest has its bit. */
  ghost predicate BitsCover(bits: set<nat>, h: nat, received: set<nat>) {
    forall c :: c in received ==> c <= h && (h - c < 256 ==> h - c in bits)
  }

  /** Every counter accepted under the current key and still near has its bit; nothing was accepted
      under the next key. */
  ghost predicate AcceptedAreCovered(r: Run) {
    && BitsCover(r.s.bits, r.s.counter, Counters(r.accepted, r.s.keys.sessionKey))
    && (r.s.ratchetedKeys.Some? ==> Counters(r.accepted, r.s.ratchetedKeys.value.sessionKey) == {})
  }

  lemma MarkCovers(s: SessionState, received: set<nat>, c: nat)
    requires BitsCover(s.bits, s.counter, received)
    ensures var m := s.MarkTagReceived(c); BitsCover(m.bits, m.counter, received + {c})
  {
    var m := s.MarkTagReceived(c);
    forall x | x in received + {c} && m.counter - x < 256
      ensures m.counter - x in m.bits
    {
      if x in received && c > s.counter {
        assert (s.counter - x) + (c - s.counter) in RecvWindow.Above(s.bits, c - s.counter);
      }
    }
  }

  lemma LoggedMarkKeepsCover(r: Run, s: SessionState, c: nat)
    requires WindowExact(r.s) && AcceptedAreCovered(r)
    requires s.bits == r.s.MarkTagReceived(c).bits && s.counter == r.s.MarkTagReceived(c).counter
    requires s.keys == r.s.keys && s.ratchetedKeys == r.s.ratchetedKeys
    ensures AcceptedAreCovered(Run(s, r.accepted + [(s.keys.sessionKey, c)], r.sent))
  {
    var key := s.keys.sessionKey;
    MarkCovers(r.s, Counters(r.accepted, key), c);
    CountersOfAppend(r.accepted, (key, c), key);
    if s.ratchetedKeys.Some? {
      CountersOfAppend(r.accepted, (key, c), s.ratchetedKeys.value.sessionKey);
    }
  }

  lemma RatchetKeepsCover(r: Run)
    requires WindowExact(r.s) && AcceptedAreCovered(r)
    ensures AcceptedAreCovered(r.(s := r.s.CompleteRatchet()))
  {}

  lemma AcceptingKeepsCover(r: Run, d: Datagram, c: nat, ratcheted: bool, isNew: bool, from: Addr, tw: nat)
    requires WindowExact(r.s) && AcceptedAreCovered(r)
    ensures AcceptedAreCovered(r.Accepting(r.s.Accept(d, c, ratcheted, isNew, from, tw), c))
  {
    hide BitsCover, Counters;
    if r.s.Opens(d, c, ratcheted, isNew) {
      var s1 := if ratcheted then r.s.CompleteRatchet() else r.s;
      RatchetKeepsWindow(r.s);
      RatchetKeepsCover(r);
      assert AcceptedAreCovered(r.(s := s1));
      if d.sealed.plain.Plain? {
        ReceiveIsMark(s1, c, isNew, from, tw);
        LoggedMarkKeepsCover(r.(s := s1), s1.Receive(c, isNew, from, tw), c);
      }
    }
  }

  /** Recovery is reached exactly for the highest counter itself, if its bit is set, and for
      counters 256 to 65535 above it. */
  lemma RecoverableExactly(r: Run, tag: Tag, tw: nat)
    requires WindowExact(r.s)
    ensures r.Recoverable(tag, tw) <==>
              && tag.secret == r.s.keys.tagSecret && NearWindow(tw, tag.window)
              && ((tag.counter == r.s.counter && 0 in r.s.bits)
                  || r.s.counter + 256 <= tag.counter < r.s.counter + 65536)
  {
    hide SessionState.ValidateTag, SessionState.Refreshed;
    TakesOwnCounter(r.s.Refreshed(tw), tag, tw);
    RefreshedValidates(r.s, tag, false, tw);
    RefreshedValidates(r.s, tag, true, tw);
  }

  lemma StepKeepsCover(r: Run, e: Event)
    requires WindowExact(r.s) && AcceptedAreCovered(r)
    ensures AcceptedAreCovered(r.Step(e))
  {
    hide SessionState.Accept, SessionState.ValidateTag, WindowExact, TagsFor, Run.Recoverable;
    match e
    case Send =>
    case Refresh(tw) =>
    case Receive(d, isNew, from, tw) =>
      var v := r.s.ValidateTag(d.tag, tw);
      if v.Some? {
        AcceptingKeepsCover(r, d, v.value.0, v.value.1, isNew, from, tw);
      }
    case Recovered(d, from, tw) =>
      if r.Recoverable(d.tag, tw) {
        RecoverableExactly(r, d.tag, tw);
        RecoverKeepsWindow(r.s, d.tag.counter, tw);
        AcceptingKeepsCover(r.(s := r.s.Recover(d.tag.counter, tw)), d, d.tag.counter, false, false, from, tw);
      }
  }

  /** Over every run, recoveries included, every accepted counter within 255 of the highest has its
      bit set. */
  lemma {:induction false} CoverOverRuns(s: SessionState, events: seq<Event>)
    requires WindowExact(s) && s.bits == {}
    ensures AcceptedAreCovered(RunAll(s, events))
    decreases |events|
  {
    hide WindowExact, Run.Step;
    if events != [] {
      CoverOverRuns(s, events[..|events| - 1]);
      WindowExactOverRuns(s, events[..|events| - 1]);
      StepKeepsCover(RunAll(s, events[..|events| - 1]), events[|events| - 1]);
    }
  }

  /** Exactly when a tag of a counter already accepted validates: the counter is at least 256
      behind the highest and its tag is still in a precomputed window that has not moved up yet. */
  lemma ReplayTakenExactly(s: SessionState, events: seq<Event>, tag: Tag, now: nat)
    requires WindowExact(s) && s.bits == {}
    requires tag.secret == RunAll(s, events).s.keys.tagSecret
    requires (RunAll(s, events).s.keys.sessionKey, tag.counter) in RunAll(s, events).accepted
    ensures var r := RunAll(s, events).s;
            r.ValidateTag(tag, now).Some? <==> r.counter - tag.counter >= 256 && Holds(r.expectedTags, tag)
  {
    hide RunAll, AcceptedAreCovered, WindowExact, SessionState.ValidateTag;
    CoverOverRuns(s, events);
    WindowExactOverRuns(s, events);
    ReplayTakenIn(RunAll(s, events), tag, now);
  }

  lemma ReplayTakenIn(r: Run, tag: Tag, now: nat)
    requires WindowExact(r.s) && AcceptedAreCovered(r)
    requires tag.secret == r.s.keys.tagSecret && (r.s.keys.sessionKey, tag.counter) in r.accepted
    ensures r.s.ValidateTag(tag, now).Some? <==> r.s.counter - tag.counter >= 256 && Holds(r.s.expectedTags, tag)
  {
    InCounters(r.accepted, r.s.keys.sessionKey, tag.counter);
    hide Counters;
    var d := r.s.counter - tag.counter;
    assert d < 256 ==> d in r.s.bits;
    NotRatcheted(r.s, tag);
  }

  /** And exactly when recovery takes a counter already accepted: it is the highest itself, in a
      near time window. */
  lemma RecoveryTakesExactly(s: SessionState, events: seq<Event>, tag: Tag, now: nat)
    requires WindowExact(s) && s.bits == {}
    requires tag.secret == RunAll(s, events).s.keys.tagSecret
    requires (RunAll(s, events).s.keys.sessionKey, tag.counter) in RunAll(s, events).accepted
    ensures var r := RunAll(s, events);
            r.Recoverable(tag, now) <==> NearWindow(now, tag.window) && tag.counter == r.s.counter
  {
    hide RunAll, WindowExact, Run.Recoverable;
    CoverOverRuns(s, events);
    WindowExactOverRuns(s, events);
    var r := RunAll(s, events);
    RecoverableExactly(r, tag, now);
    InCounters(r.accepted, r.s.keys.sessionKey, tag.counter);
  }

  lemma NotRatcheted(s: SessionState, tag: Tag)
    requires WindowExact(s) && tag.secret == s.keys.tagSecret
    ensures !Holds(s.ratchetedTags, tag)
    ensures s.ratchetedKeys.Some? ==> tag.secret != s.ratchetedKeys.value.tagSecret
  {}

  /** Whatever counter a validated tag names, if the current key accepted it before then it is
      at least 256 behind the highest: within 255 of the highest nothing is accepted twice. */
  lemma NoReplayNearHighest(s: SessionState, events: seq<Event>, tag: Tag, now: nat)
    requires WindowExact(s) && s.bits == {}
    requires RunAll(s, events).s.ValidateTag(tag, now).Some?
    ensures var r := RunAll(s, events);
            var (c, ratcheted) := r.s.ValidateTag(tag, now).value;
            if ratcheted then
              r.s.ratchetedKeys.Some? && (r.s.ratchetedKeys.value.sessionKey, c) !in r.accepted
            else
              (r.s.keys.sessionKey, c) in r.accepted ==> r.s.counter - c >= 256
  {
    hide RunAll, AcceptedAreCovered, WindowExact, SessionState.ValidateTag;
    CoverOverRuns(s, events);
    WindowExactOverRuns(s, events);
    NoReplayIn(RunAll(s, events), tag, now);
  }

  lemma NoReplayIn(r: Run, tag: Tag, now: nat)
    requires WindowExact(r.s) && AcceptedAreCovered(r) && r.s.ValidateTag(tag, now).Some?
    ensures var (c, ratcheted) := r.s.ValidateTag(tag, now).value;
            if ratcheted then
              r.s.ratchetedKeys.Some? && (r.s.ratchetedKeys.value.sessionKey, c) !in r.accepted
            else
              (r.s.keys.sessionKey, c) in r.accepted ==> r.s.counter - c >= 256
  {
    hide Counters;
    var (c, ratcheted) := r.s.ValidateTag(tag, now).value;
    if ratcheted {
      InCounters(r.accepted, r.s.ratchetedKeys.value.sessionKey, c);
    } else if (r.s.keys.sessionKey, c) in r.accepted {
      InCounters(r.accepted, r.s.keys.sessionKey, c);
      assert r.s.counter - c < 256 ==> r.s.counter - c in r.s.bits;
    }
  }

  /** A data datagram sealed by the client under the session's current keys. */
  function DataUnder(keys: SessionKeys, c: nat, tw: nat): Datagram {
    Datagram(Tag(keys.tagSecret, c, tw), 50, LowOrder,
             Sealed(keys.sessionKey, c, TAG_SIZE + MDH_LEN, Plain(Data(true))))
  }

  /** One data datagram of a precomputed, unreceived counter: it is accepted and logged. */
  lemma Hop(r: Run, c: nat, from: Addr, tw: nat)
    requires Holds(r.s.expectedTags, Tag(r.s.keys.tagSecret, c, tw)) && !r.s.IsReplay(c)
    ensures r.Step(At(r.s.keys, c, from, tw))
         == Run(r.s.Receive(c, false, from, tw), r.accepted + [(r.s.keys.sessionKey, c)], r.sent)
  {}

  lemma ReceiveWithinWindow(s: SessionState, c: nat, from: Addr, tw: nat)
    ensures var r := s.Receive(c, false, from, tw);
            && r.keys == s.keys && r.counter == (if c > s.counter then c else s.counter)
            && r.windowBase == (if c >= s.windowBase + 64 then r.counter else s.windowBase)
            && r.expectedTags == (if c >= s.windowBase + 64
                                  then TagsFor(s.keys.tagSecret, Back(r.counter), r.counter + 255, tw)
                                  else s.expectedTags)
  {
    hide TagsFor, RecvWindow.Above;
  }

  lemma FirstTwoHops(s: SessionState, from: Addr, tw: nat) returns (r: Run)
    requires s.counter == 0 && s.bits == {} && s.windowBase == 0
    requires s.expectedTags == TagsFor(s.keys.tagSecret, 0, 255, tw)
    ensures r == Run(s, [], []).Step(At(s.keys, 0, from, tw)).Step(At(s.keys, 255, from, tw))
    ensures r.s.keys == s.keys && r.s.counter == 255 && r.s.windowBase == 255
    ensures r.s.expectedTags == TagsFor(s.keys.tagSecret, 0, 510, tw)
    ensures r.accepted == [(s.keys.sessionKey, 0), (s.keys.sessionKey, 255)]
  {
    var start := Run(s, [], []);
    Hop(start, 0, from, tw);
    ReceiveWithinWindow(s, 0, from, tw);
    var r1 := Run(s.Receive(0, false, from, tw), [(s.keys.sessionKey, 0)], []);
    assert start.Step(At(s.keys, 0, from, tw)) == r1;
    Hop(r1, 255, from, tw);
    ReceiveWithinWindow(r1.s, 255, from, tw);
    r := Run(r1.s.Receive(255, false, from, tw), r1.accepted + [(s.keys.sessionKey, 255)], []);
  }

  lemma LastTwoHops(r: Run, from: Addr, tw: nat)
    requires r.s.counter == 255 && r.s.windowBase == 255
    requires r.s.expectedTags == TagsFor(r.s.keys.tagSecret, 0, 510, tw)
    ensures r.Step(At(r.s.keys, 300, from, tw)).Step(At(r.s.keys, 0, from, tw)).accepted
         == r.accepted + [(r.s.keys.sessionKey, 300), (r.s.keys.sessionKey, 0)]
  {
    var key := r.s.keys.sessionKey;
    Hop(r, 300, from, tw);
    ReceiveWithinWindow(r.s, 300, from, tw);
    var r3 := Run(r.s.Receive(300, false, from, tw), r.accepted + [(key, 300)], r.sent);
    assert r.Step(At(r.s.keys, 300, from, tw)) == r3;
    Hop(r3, 0, from, tw);
    assert r.accepted + [(key, 300)] + [(key, 0)] == r.accepted + [(key, 300), (key, 0)];
  }

  /** The far replay does happen: on every fresh session, counter 0 is accepted, the window
      moves to base 255, the highest counter to 300, and counter 0 is accepted again. */
  lemma FarReplayHappens(s: SessionState, from: Addr, tw: nat)
    requires s.counter == 0 && s.bits == {} && s.windowBase == 0
    requires s.expectedTags == TagsFor(s.keys.tagSecret, 0, 255, tw)
    ensures var key := s.keys.sessionKey;
            RunAll(s, [At(s.keys, 0, from, tw), At(s.keys, 255, from, tw), At(s.keys, 300, from, tw),
                       At(s.keys, 0, from, tw)]).accepted
            == [(key, 0), (key, 255), (key, 300), (key, 0)]
  {
    RunOfFour(s, At(s.keys, 0, from, tw), At(s.keys, 255, from, tw), At(s.keys, 300, from, tw),
              At(s.keys, 0, from, tw));
    var r := FirstTwoHops(s, from, tw);
    LastTwoHops(r, from, tw);
  }

  function At(keys: SessionKeys, c: nat, from: Addr, tw: nat): Event {
    Receive(DataUnder(keys, c, tw), false, from, tw)
  }

  lemma RunOfFour(s: SessionState, a: Event, b: Event, c: Event, d: Event)
    ensures RunAll(s, [a, b, c, d]) == Run(s, [], []).Step(a).Step(b).Step(c).Step(d)
  {
    assert [a, b, c, d][..3] == [a, b, c] && [a, b, c][..2] == [a, b] && [a, b][..1] == [a] && [a][..0] == [];
    assert RunAll(s, [a]) == Run(s, [], []).Step(a);
    assert RunAll(s, [a, b]) == RunAll(s, [a]).Step(b);
    assert RunAll(s, [a, b, c]) == RunAll(s, [a, b]).Step(c);
  }

  /** Counter recovery moves the highest counter under an unmoved bitmap: the bitmap still
      names the received counters exactly when the counter did not move or no bit was set. */
  lemma RecoveryKeepsBitmapExactly(s: SessionState, received: set<nat>, c: nat, tw: nat)
    requires BitsName(s.bits, s.counter, received) && c >= s.counter
    ensures BitsName(s.Recover(c, tw).bits, c, received) <==> c == s.counter || s.bits == {}
  {
    assert forall x :: x in received && s.counter - x < 256 ==> s.counter - x in s.bits by {
      forall x | x in received && s.counter - x < 256
        ensures s.counter - x in s.bits
      {
        assert s.counter - (s.counter - x) == x;
      }
    }
    if c > s.counter && s.bits != {} {
      var d := Least(s.bits);
      assert d in s.bits;
    }
  }

  lemma {:induction false} Least(bits: set<nat>) returns (d: nat)
    requires bits != {}
    ensures d in bits && forall e :: e in bits ==> d <= e
    decreases |bits|
  {
    var some :| some in bits;
    d := some;
    if bits != {some} {
      var rest := bits - {some};
      assert forall e :: e in bits ==> e == some || e in rest;
      assert rest != {};
      var least := Least(rest);
      if least < some { d := least; }
    }
  }

  /** Recovery does make the bitmap wrong: a fresh session that received 0 and 5 and was recovered at
      300 rejects counter 295, which it never accepted. */
  lemma RecoveryRejectsGenuine(s: SessionState, from: Addr, tw: nat)
    requires WindowExact(s) && s.counter == 0 && s.bits == {} && s.windowBase == 0
    requires s.expectedTags == TagsFor(s.keys.tagSecret, 0, 255, tw)
    ensures var key := s.keys.sessionKey;
            var recovery := Recovered(DataUnder(s.keys, 300, tw), from, tw);
            var r := RunAll(s, [At(s.keys, 0, from, tw), At(s.keys, 5, from, tw), recovery]);
            && r.accepted == [(key, 0), (key, 5), (key, 300)] && r.s.counter == 300
            && r.s.keys == s.keys && r.s.ValidateTag(Tag(s.keys.tagSecret, 295, tw), tw) == None
  {
    var r := ZeroThenFive(s, from, tw);
    hide At, Run.Step, RunAll, SessionState.ValidateTag, TagsFor, WindowExact;
    RunOfThree(s, At(s.keys, 0, from, tw), At(s.keys, 5, from, tw), Recovered(DataUnder(s.keys, 300, tw), from, tw));
    RecoveredHop(r, from, tw);
    assert [(s.keys.sessionKey, 0), (s.keys.sessionKey, 5)] + [(s.keys.sessionKey, 300)]
        == [(s.keys.sessionKey, 0), (s.keys.sessionKey, 5), (s.keys.sessionKey, 300)];
  }

  lemma ZeroThenFive(s: SessionState, from: Addr, tw: nat) returns (r: Run)
    requires s.counter == 0 && s.bits == {} && s.windowBase == 0
    requires s.expectedTags == TagsFor(s.keys.tagSecret, 0, 255, tw)
    ensures r == Run(s, [], []).Step(At(s.keys, 0, from, tw)).Step(At(s.keys, 5, from, tw))
    ensures r.s.counter == 5 && 5 in r.s.bits && r.s.keys == s.keys
    ensures r.accepted == [(s.keys.sessionKey, 0), (s.keys.sessionKey, 5)]
    ensures WindowExact(s) ==> WindowExact(r.s)
  {
    var start := Run(s, [], []);
    Hop(start, 0, from, tw);
    ReceiveWithinWindow(s, 0, from, tw);
    BitsOfTwo(s, from, tw);
    var r1 := Run(s.Receive(0, false, from, tw), [(s.keys.sessionKey, 0)], []);
    assert start.Step(At(s.keys, 0, from, tw)) == r1;
    Hop(r1, 5, from, tw);
    ReceiveWithinWindow(r1.s, 5, from, tw);
    r := Run(r1.s.Receive(5, false, from, tw), r1.accepted + [(s.keys.sessionKey, 5)], []);
    if WindowExact(s) {
      ReceiveKeepsWindow(s, 0, false, from, tw);
      ReceiveKeepsWindow(r1.s, 5, false, from, tw);
    }
  }

  lemma BitsOfTwo(s: SessionState, from: Addr, tw: nat)
    requires s.counter == 0 && s.bits == {} && s.windowBase == 0
    ensures 5 in s.Receive(0, false, from, tw).Receive(5, false, from, tw).bits
  {
    assert 0 in s.Receive(0, false, from, tw).bits;
    assert 0 + 5 in RecvWindow.Above(s.Receive(0, false, from, tw).bits, 5);
  }

  /** A recoverable data datagram under the current keys is accepted and logged. */
  lemma RecoveredLogs(r: Run, c: nat, sentAt: nat, from: Addr, tw: nat)
    requires r.Recoverable(Tag(r.s.keys.tagSecret, c, sentAt), tw)
    ensures r.Step(Recovered(DataUnder(r.s.keys, c, sentAt), from, tw))
         == Run(r.s.Recover(c, tw).Receive(c, false, from, tw), r.accepted + [(r.s.keys.sessionKey, c)], r.sent)
  {
    hide Run.Recoverable, SessionState.Receive, TagsFor;
    ReceiveIsMark(r.s.Recover(c, tw), c, false, from, tw);
  }

  lemma RecoveredHop(r: Run, from: Addr, tw: nat)
    requires WindowExact(r.s) && r.s.counter == 5 && 5 in r.s.bits
    ensures var x := r.Step(Recovered(DataUnder(r.s.keys, 300, tw), from, tw));
            && x.accepted == r.accepted + [(r.s.keys.sessionKey, 300)] && x.s.counter == 300 && x.s.keys == r.s.keys
            && x.s.ValidateTag(Tag(r.s.keys.tagSecret, 295, tw), tw) == None
  {
    RecoverableExactly(r, Tag(r.s.keys.tagSecret, 300, tw), tw);
    RecoveredLogs(r, 300, tw, from, tw);
    hide Run.Step, Run.Recoverable, WindowExact;
    var s := r.s.Recover(300, tw);
    assert s.expectedTags == TagsFor(r.s.keys.tagSecret, 45, 555, tw);
    assert Tag(r.s.keys.tagSecret, 295, tw) == s.expectedTags[295];
  }

  lemma RunOfThree(s: SessionState, a: Event, b: Event, c: Event)
    ensures RunAll(s, [a, b, c]) == Run(s, [], []).Step(a).Step(b).Step(c)
  {
    assert [a, b, c][..2] == [a, b] && [a, b][..1] == [a] && [a][..0] == [];
    assert RunAll(s, [a]) == Run(s, [], []).Step(a);
    assert RunAll(s, [a, b]) == RunAll(s, [a]).Step(b);
  }

  /** The highest counter is taken again after its time window has passed: it is accepted, the
      session is refreshed, and the same datagram is recovered. */
  lemma HighestRecoveredAgain(s: SessionState, from: Addr, tw: nat)
    requires WindowExact(s) && s.counter == 0 && s.bits == {} && s.windowBase == 0 && tw < U64_MAX
    requires s.expectedTags == TagsFor(s.keys.tagSecret, 0, 255, tw)
    ensures var key := s.keys.sessionKey;
            RunAll(s, [At(s.keys, 0, from, tw), Refresh(tw + 1),
                       Recovered(DataUnder(s.keys, 0, tw), from, tw + 1)]).accepted == [(key, 0), (key, 0)]
  {
    hide Run.Step, RunAll, WindowExact, TagsFor, SessionState.Refreshed;
    RunOfThree(s, At(s.keys, 0, from, tw), Refresh(tw + 1), Recovered(DataUnder(s.keys, 0, tw), from, tw + 1));
    var r := ZeroReceived(s, from, tw);
    HighestAgain(r, from, tw);
    assert [(s.keys.sessionKey, 0)] + [(s.keys.sessionKey, 0)] == [(s.keys.sessionKey, 0), (s.keys.sessionKey, 0)];
  }

  lemma ZeroReceived(s: SessionState, from: Addr, tw: nat) returns (r: Run)
    requires WindowExact(s) && s.counter == 0 && s.bits == {} && s.windowBase == 0
    requires s.expectedTags == TagsFor(s.keys.tagSecret, 0, 255, tw)
    ensures r == Run(s, [], []).Step(At(s.keys, 0, from, tw))
    ensures WindowExact(r.s) && r.s.counter == 0 && 0 in r.s.bits && r.s.keys == s.keys
    ensures r.accepted == [(s.keys.sessionKey, 0)]
  {
    Hop(Run(s, [], []), 0, from, tw);
    ReceiveKeepsWindow(s, 0, false, from, tw);
    ReceiveWithinWindow(s, 0, from, tw);
    hide WindowExact, TagsFor;
    r := Run(s.Receive(0, false, from, tw), [(s.keys.sessionKey, 0)], []);
  }

  lemma HighestAgain(r: Run, from: Addr, tw: nat)
    requires WindowExact(r.s) && r.s.counter == 0 && 0 in r.s.bits && tw < U64_MAX
    ensures r.Step(Refresh(tw + 1)).Step(Recovered(DataUnder(r.s.keys, 0, tw), from, tw + 1)).accepted
         == r.accepted + [(r.s.keys.sessionKey, 0)]
  {
    hide WindowExact, SessionState.Refreshed, SessionState.Receive, Run.Recoverable;
    var r1 := r.(s := r.s.Refreshed(tw + 1));
    RefreshedIsExact(r.s, tw + 1);
    RecoverableExactly(r1, Tag(r.s.keys.tagSecret, 0, tw), tw + 1);
    RecoveredLogs(r1, 0, tw, from, tw + 1);
  }
}
