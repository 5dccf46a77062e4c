/** The pool of masks: compromise, cool-down, recycling into new variants, and fallback. */
module MaskCatalog {
  import opened Wrappers

  const COOLDOWN_SECS: nat := 300
  const U32: nat := 0x1_0000_0000

  datatype Profile = Profile(maskId: string, fingerprint: nat)

  datatype Catalog = Catalog(masks: map<string, Profile>, compromised: map<string, nat>, variantCounter: nat)

  // ---- Variant ids ---------------------------------------------------------------

  function Digit(d: nat): char
    requires d < 10
  {
    ['0', '1', '2', '3', '4', '5', '6', '7', '8', '9'][d]
  }

  function Decimal(n: nat): (s: string)
    ensures |s| > 0
  {
    if n < 10 then [Digit(n)] else Decimal(n / 10) + [Digit(n % 10)]
  }

  function VariantId(webrtc: bool, n: nat): string {
    (if webrtc then "webrtc_v3_r" else "quic_v2_r") + Decimal(n)
  }

  const WEBRTC_PRESET: string := "webrtc_zoom_v3"
  const QUIC_PRESET: string := "quic_https_v2"

  lemma {:induction false} DecimalIsInjective(m: nat, n: nat)
    requires Decimal(m) == Decimal(n)
    ensures m == n
    decreases m
  {
    assert Decimal(m)[|Decimal(m)| - 1] == Digit(m % 10);
    assert Decimal(n)[|Decimal(n)| - 1] == Digit(n % 10);
    if m >= 10 && n >= 10 {
      assert Decimal(m)[..|Decimal(m)| - 1] == Decimal(m / 10);
      assert Decimal(n)[..|Decimal(n)| - 1] == Decimal(n / 10);
      DecimalIsInjective(m / 10, n / 10);
    }
  }

  /** Different numbers give different ids, whichever template each is drawn from, and no
      variant has a preset's id. */
  lemma VariantIdsDiffer(a: bool, m: nat, b: bool, n: nat)
    ensures VariantId(a, m) == VariantId(b, n) ==> a == b && m == n
    ensures VariantId(a, m) != WEBRTC_PRESET && VariantId(a, m) != QUIC_PRESET
  {
    var p, q := if a then "webrtc_v3_r" else "quic_v2_r", if b then "webrtc_v3_r" else "quic_v2_r";
    assert VariantId(a, m)[0] == p[0] && VariantId(b, n)[0] == q[0];
    assert VariantId(a, m)[5] == p[5] && VariantId(a, m)[7] == p[7];
    if VariantId(a, m) == VariantId(b, n) {
      assert VariantId(a, m)[|p|..] == Decimal(m) && VariantId(b, n)[|q|..] == Decimal(n);
      DecimalIsInjective(m, n);
    }
  }

  lemma VariantIdsLookLike()
    ensures VariantId(true, 12) == "webrtc_v3_r12" && VariantId(false, 7) == "quic_v2_r7"
  {
    assert Decimal(7) == "7" && Decimal(1) == "1";
    assert Decimal(12) == Decimal(1) + [Digit(2)];
  }

  // ---- Operations -------------------------------------------------------------------

  function MarkCompromised(c: Catalog, id: string, now: nat): Catalog {
    c.(masks := c.masks - {id}, compromised := c.compromised[id := now])
  }

  /** A new variant is added; the 32-bit counter wraps. */
  function AddVariant(c: Catalog, webrtc: bool, fingerprint: nat): Catalog {
    var id := VariantId(webrtc, c.variantCounter);
    c.(masks := c.masks[id := Profile(id, fingerprint)], variantCounter := (c.variantCounter + 1) % U32)
  }

  predicate Expired(c: Catalog, id: string, now: nat) {
    id in c.compromised && now > c.compromised[id] + COOLDOWN_SECS
  }

  /** What the random generator yields for one variant. */
  datatype Draw = Draw(webrtc: bool, fingerprint: nat)

  function Recycle(c: Catalog, expired: seq<string>, draws: seq<Draw>): Catalog
    requires |draws| >= |expired|
  {
    if expired == [] then c else
    var front := Recycle(c, expired[..|expired| - 1], draws);
    var id, draw := expired[|expired| - 1], draws[|expired| - 1];
    AddVariant(front.(compromised := front.compromised - {id}), draw.webrtc, draw.fingerprint)
  }

  /** The catalog from which a fallback is then picked. */
  function Prepare(c: Catalog, expired: seq<string>, draws: seq<Draw>): Catalog
    requires |draws| > |expired|
  {
    var c1 := Recycle(c, expired, draws);
    if |c1.masks| <= 1 then AddVariant(c1, draws[|expired|].webrtc, draws[|expired|].fingerprint) else c1
  }

  // ---- What holds between operations ---------------------------------------------------

  /** An id that no future variant will get, as long as the counter does not wrap. */
  ghost predicate Known(id: string, counter: nat) {
    forall webrtc: bool, n: nat :: n >= counter ==> id != VariantId(webrtc, n)
  }

  ghost predicate Inv(c: Catalog) {
    && c.masks.Keys !! c.compromised.Keys
    && (forall id :: id in c.masks ==> c.masks[id].maskId == id && Known(id, c.variantCounter))
    && (forall id :: id in c.compromised ==> Known(id, c.variantCounter))
  }

  lemma KnownLater(id: string, m: nat, n: nat)
    requires Known(id, m) && m <= n
    ensures Known(id, n)
  {}

  lemma VariantIsFresh(c: Catalog, webrtc: bool)
    requires Inv(c)
    ensures VariantId(webrtc, c.variantCounter) !in c.masks && VariantId(webrtc, c.variantCounter) !in c.compromised
  {
    hide VariantId;
    var id := VariantId(webrtc, c.variantCounter);
    assert id in c.masks ==> Known(id, c.variantCounter);
  }

  lemma AddVariantKeeps(c: Catalog, webrtc: bool, fingerprint: nat)
    requires Inv(c) && c.variantCounter + 1 < U32
    ensures var c' := AddVariant(c, webrtc, fingerprint);
            && Inv(c') && c'.variantCounter == c.variantCounter + 1 && |c'.masks| == |c.masks| + 1
            && c'.compromised == c.compromised && c.masks.Keys <= c'.masks.Keys
            && VariantId(webrtc, c.variantCounter) in c'.masks
  {
    hide VariantId, Known;
    var id, n := VariantId(webrtc, c.variantCounter), c.variantCounter;
    VariantIsFresh(c, webrtc);
    VariantIsKnown(webrtc, n);
    AllKnownLater(c);
    OneMore(c.masks, id, Profile(id, fingerprint));
  }

  lemma OneMore(m: map<string, Profile>, id: string, p: Profile)
    requires id !in m
    ensures |m[id := p]| == |m| + 1
  {
    assert m[id := p].Keys == m.Keys + {id};
    assert |m[id := p]| == |m[id := p].Keys| && |m| == |m.Keys|;
  }

  lemma AllKnownLater(c: Catalog)
    requires Inv(c)
    ensures forall id :: id in c.masks || id in c.compromised ==> Known(id, c.variantCounter + 1)
  {
    hide VariantId;
    forall id | id in c.masks || id in c.compromised
      ensures Known(id, c.variantCounter + 1)
    {
      KnownLater(id, c.variantCounter, c.variantCounter + 1);
    }
  }

  lemma VariantIsKnown(webrtc: bool, n: nat)
    ensures Known(VariantId(webrtc, n), n + 1)
  {
    forall b: bool, m: nat | m >= n + 1
      ensures VariantId(webrtc, n) != VariantId(b, m)
    {
      VariantIdsDiffer(webrtc, n, b, m);
    }
  }

  lemma {:induction false} RecycleDrops(c: Catalog, expired: seq<string>, draws: seq<Draw>)
    requires |draws| >= |expired|
    ensures Recycle(c, expired, draws).compromised == c.compromised - IdsOf(expired)
    decreases |expired|
  {
    hide VariantId, IdsOf;
    if expired == [] {
      DropNone(c.compromised);
    } else {
      var rest, id := expired[..|expired| - 1], expired[|expired| - 1];
      RecycleDrops(c, rest, draws);
      DropOneMore(c.compromised, rest, id);
      assert expired == rest + [id];
    }
  }

  lemma {:induction false} RecycleKeeps(c: Catalog, expired: seq<string>, draws: seq<Draw>)
    requires |draws| >= |expired| && Inv(c) && c.variantCounter + |expired| < U32
    ensures var c' := Recycle(c, expired, draws);
            && Inv(c') && c'.variantCounter == c.variantCounter + |expired|
            && c'.compromised == c.compromised - IdsOf(expired)
            && c.masks.Keys <= c'.masks.Keys && |c'.masks| == |c.masks| + |expired|
    decreases |expired|
  {
    hide VariantId, Inv, AddVariant, IdsOf;
    if expired != [] {
      var rest, id, draw := expired[..|expired| - 1], expired[|expired| - 1], draws[|expired| - 1];
      RecycleKeeps(c, rest, draws);
      RecycleOneKeeps(Recycle(c, rest, draws), id, draw);
    }
    RecycleDrops(c, expired, draws);
  }

  predicate Has(c: Catalog, webrtc: bool, n: nat, fingerprint: nat) {
    var id := VariantId(webrtc, n);
    id in c.masks && c.masks[id] == Profile(id, fingerprint)
  }

  predicate Keeps(c: Catalog, c': Catalog) {
    forall id :: id in c.masks ==> id in c'.masks && c'.masks[id] == c.masks[id]
  }

  /** Recycling keeps every mask as it is and makes one of each expired id: the k-th, from 0, has the
      k-th next number, the template and the fingerprint drawn for it. */
  lemma {:induction false} RecycleMakes(c: Catalog, expired: seq<string>, draws: seq<Draw>)
    requires |draws| >= |expired| && Inv(c) && c.variantCounter + |expired| < U32
    ensures var c' := Recycle(c, expired, draws);
            && Keeps(c, c')
            && forall k :: 0 <= k < |expired| ==>
                 Has(c', draws[k].webrtc, c.variantCounter + k, draws[k].fingerprint)
    decreases |expired|
  {
    hide Inv, AddVariant, Keeps, Has;
    if expired == [] {
      KeepsItself(c);
    } else {
      var n := |expired| - 1;
      var front := Recycle(c, expired[..n], draws);
      RecycleMakes(c, expired[..n], draws);
      RecycleKeeps(c, expired[..n], draws);
      OneRecycled(front, expired[n], draws[n]);
      var c' := Recycle(c, expired, draws);
      KeepsOn(c, front, c');
      forall k | 0 <= k < n
        ensures Has(c', draws[k].webrtc, c.variantCounter + k, draws[k].fingerprint)
      {
        KeepsHas(front, c', draws[k].webrtc, c.variantCounter + k, draws[k].fingerprint);
      }
    }
  }

  lemma KeepsItself(c: Catalog)
    ensures Keeps(c, c)
  {}

  lemma KeepsOn(a: Catalog, b: Catalog, c: Catalog)
    requires Keeps(a, b) && Keeps(b, c)
    ensures Keeps(a, c)
  {}

  lemma KeepsHas(c: Catalog, c': Catalog, webrtc: bool, n: nat, fingerprint: nat)
    requires Keeps(c, c') && Has(c, webrtc, n, fingerprint)
    ensures Has(c', webrtc, n, fingerprint)
  {
    hide VariantId;
  }

  lemma OneRecycled(c: Catalog, id: string, draw: Draw)
    requires Inv(c)
    ensures var c' := AddVariant(c.(compromised := c.compromised - {id}), draw.webrtc, draw.fingerprint);
            Keeps(c, c') && Has(c', draw.webrtc, c.variantCounter, draw.fingerprint)
  {
    hide VariantId, Inv;
    VariantIsFresh(c, draw.webrtc);
  }

  lemma RecycleOneKeeps(c: Catalog, id: string, draw: Draw)
    requires Inv(c) && c.variantCounter + 1 < U32
    ensures var c' := AddVariant(c.(compromised := c.compromised - {id}), draw.webrtc, draw.fingerprint);
            && Inv(c') && c'.variantCounter == c.variantCounter + 1
            && c'.compromised == c.compromised - {id} && c.masks.Keys <= c'.masks.Keys && |c'.masks| == |c.masks| + 1
  {
    hide Inv, AddVariant;
    DropCompromised(c, id);
    AddVariantKeeps(c.(compromised := c.compromised - {id}), draw.webrtc, draw.fingerprint);
  }

  lemma DropNone(m: map<string, nat>)
    ensures m - IdsOf([]) == m
  {}

  function IdsOf(ids: seq<string>): set<string> { set id | id in ids }

  lemma DropOneMore(m: map<string, nat>, ids: seq<string>, id: string)
    ensures m - IdsOf(ids) - {id} == m - IdsOf(ids + [id])
  {}

  lemma DropCompromised(c: Catalog, id: string)
    requires Inv(c)
    ensures Inv(c.(compromised := c.compromised - {id}))
  {
    hide Known;
  }

  /** There is a mask other than `current` to fall back to. */
  predicate HasFallback(c: Catalog, current: string) {
    exists id :: id in c.masks && id != current
  }

  /** Exactly when no fallback is found: the pool is empty, nothing has cooled down, and the current
      mask has the very id of the next variant. */
  lemma FallbackExactly(c: Catalog, expired: seq<string>, draws: seq<Draw>, current: string)
    requires |draws| > |expired| && Inv(c) && c.variantCounter + |expired| + 1 < U32
    ensures var (c', n) := (Prepare(c, expired, draws), |c.masks| + |expired|);
            Inv(c') && c.masks.Keys <= c'.masks.Keys && |c'.masks| == (if n <= 1 then n + 1 else n)
    ensures HasFallback(Prepare(c, expired, draws), current) <==>
              !(c.masks == map[] && expired == [] && current == VariantId(draws[0].webrtc, c.variantCounter))
  {
    hide VariantId, Known;
    RecycleKeeps(c, expired, draws);
    var c1, draw := Recycle(c, expired, draws), draws[|expired|];
    var made := VariantId(draw.webrtc, c1.variantCounter);
    var c2 := Prepare(c, expired, draws);
    VariantIsFresh(c1, draw.webrtc);
    if |c1.masks| <= 1 {
      AddVariantKeeps(c1, draw.webrtc, draw.fingerprint);
      assert made in c2.masks;
      if c1.masks != map[] {
        var id :| id in c1.masks;
        assert id in c2.masks && id != made;
      }
    } else {
      SomeOther(c2.masks.Keys, current);
    }
  }

  lemma SomeOther(ids: set<string>, current: string)
    requires |ids| >= 2
    ensures exists id :: id in ids && id != current
  {
    var a :| a in ids;
    assert |ids - {a}| >= 1;
    var b :| b in ids - {a};
  }

  /** Rotating away from any mask that was ever issued always finds another mask, one that is
      not compromised; the branch for an empty pool is not reached. */
  lemma RotationAlwaysFinds(c: Catalog, current: string, now: nat, expired: seq<string>, draws: seq<Draw>)
    requires |draws| > |expired| && Inv(c) && c.variantCounter + |expired| + 1 < U32 && Known(current, c.variantCounter)
    ensures var c' := Prepare(MarkCompromised(c, current, now), expired, draws);
            && Inv(c') && HasFallback(c', current)
            && (forall id :: id in c'.masks ==> id !in c'.compromised)
            && Known(current, c'.variantCounter)
            && c.variantCounter <= c'.variantCounter <= c.variantCounter + |expired| + 1
  {
    var c0 := MarkCompromised(c, current, now);
    MarkKeeps(c, current, now);
    hide Inv, VariantId, Known, MarkCompromised;
    FallbackExactly(c0, expired, draws, current);
    PrepareCounter(c0, expired, draws);
    KnownIsNotNext(current, c0.variantCounter, draws[0].webrtc, c0.variantCounter);
    KnownLater(current, c0.variantCounter, Prepare(c0, expired, draws).variantCounter);
    Disjoint(Prepare(c0, expired, draws));
  }

  lemma MarkKeeps(c: Catalog, id: string, now: nat)
    requires Inv(c) && Known(id, c.variantCounter)
    ensures Inv(MarkCompromised(c, id, now)) && MarkCompromised(c, id, now).variantCounter == c.variantCounter
  {
    hide Known;
  }

  lemma KnownIsNotNext(id: string, counter: nat, webrtc: bool, n: nat)
    requires Known(id, counter) && counter <= n
    ensures id != VariantId(webrtc, n)
  {}

  lemma Disjoint(c: Catalog)
    requires Inv(c)
    ensures forall id :: id in c.masks ==> id !in c.compromised
  {}

  lemma PrepareCounter(c: Catalog, expired: seq<string>, draws: seq<Draw>)
    requires |draws| > |expired| && Inv(c) && c.variantCounter + |expired| + 1 < U32
    ensures c.variantCounter <= Recycle(c, expired, draws).variantCounter <= Prepare(c, expired, draws).variantCounter
            <= c.variantCounter + |expired| + 1
  {
    hide VariantId, Inv, AddVariant;
    RecycleKeeps(c, expired, draws);
    if |Recycle(c, expired, draws).masks| <= 1 {
      AddVariantKeeps(Recycle(c, expired, draws), draws[|expired|].webrtc, draws[|expired|].fingerprint);
    }
  }

  // ---- Every run -------------------------------------------------------------------------

  /** A rotation of a session away from `current` at time `now`. */
  datatype Rotation = Rotation(current: string, now: nat, expired: seq<string>, draws: seq<Draw>, chosen: string)

  /** The catalog and the masks sessions use, with the catalog's presets to begin with. */
  datatype State = State(c: Catalog, inUse: set<string>)

  const Initial: Catalog :=
    Catalog(map[WEBRTC_PRESET := Profile(WEBRTC_PRESET, 0), QUIC_PRESET := Profile(QUIC_PRESET, 1)], map[], 1)

  ghost predicate Possible(s: State, r: Rotation) {
    && r.current in s.inUse && |r.draws| > |r.expired|
    && (forall id :: id in r.expired <==> Expired(MarkCompromised(s.c, r.current, r.now), id, r.now))
    && (var c' := Prepare(MarkCompromised(s.c, r.current, r.now), r.expired, r.draws);
        HasFallback(c', r.current) ==> r.chosen in c'.masks && r.chosen != r.current)
  }

  function After(s: State, r: Rotation): State
    requires |r.draws| > |r.expired|
  {
    var c' := Prepare(MarkCompromised(s.c, r.current, r.now), r.expired, r.draws);
    State(c', if HasFallback(c', r.current) then s.inUse + {r.chosen} else s.inUse)
  }

  ghost predicate IsRun(states: seq<State>, rotations: seq<Rotation>) {
    && |states| == |rotations| + 1 && states[0] == State(Initial, {WEBRTC_PRESET})
    && (forall i :: 0 <= i < |rotations| ==>
          Possible(states[i], rotations[i]) && states[i + 1] == After(states[i], rotations[i]))
  }

  /** How many variants a run can have made at most. */
  function Variants(rotations: seq<Rotation>): nat {
    if rotations == [] then 0
    else Variants(rotations[..|rotations| - 1]) + |rotations[|rotations| - 1].expired| + 1
  }

  ghost predicate StateIn(s: State) {
    Inv(s.c) && forall id :: id in s.inUse ==> Known(id, s.c.variantCounter)
  }

  lemma StartsIn()
    ensures StateIn(State(Initial, {WEBRTC_PRESET}))
  {
    forall webrtc: bool, n: nat
      ensures VariantId(webrtc, n) != WEBRTC_PRESET && VariantId(webrtc, n) != QUIC_PRESET
    {
      VariantIdsDiffer(webrtc, n, webrtc, n);
    }
  }

  lemma InMasksIsKnown(c: Catalog, id: string)
    requires Inv(c) && id in c.masks
    ensures Known(id, c.variantCounter)
  {}

  lemma StepStaysIn(s: State, r: Rotation)
    requires StateIn(s) && Possible(s, r) && s.c.variantCounter + |r.expired| + 1 < U32
    ensures StateIn(After(s, r))
    ensures After(s, r).c.variantCounter <= s.c.variantCounter + |r.expired| + 1
    ensures r.chosen in After(s, r).c.masks && r.chosen != r.current && r.chosen !in After(s, r).c.compromised
  {
    hide Inv, Known, Prepare, MarkCompromised;
    RotationAlwaysFinds(s.c, r.current, r.now, r.expired, r.draws);
    var c' := After(s, r).c;
    InMasksIsKnown(c', r.chosen);
    forall id | id in s.inUse
      ensures Known(id, c'.variantCounter)
    {
      KnownLater(id, s.c.variantCounter, c'.variantCounter);
    }
  }

  lemma {:induction false} RunStaysIn(states: seq<State>, rotations: seq<Rotation>, k: nat)
    requires IsRun(states, rotations) && k <= |rotations| && Variants(rotations[..k]) + 1 < U32
    ensures StateIn(states[k]) && states[k].c.variantCounter <= Variants(rotations[..k]) + 1
    decreases k
  {
    hide StateIn, Possible, After;
    if k == 0 {
      StartsIn();
    } else {
      assert rotations[..k][..k - 1] == rotations[..k - 1];
      RunStaysIn(states, rotations, k - 1);
      StepStaysIn(states[k - 1], rotations[k - 1]);
    }
  }

  /** Over every run that makes fewer than 2^32 variants, each rotation hands out a mask that
      differs from the one it replaces and is not compromised. */
  lemma EveryRotationFinds(states: seq<State>, rotations: seq<Rotation>, i: nat)
    requires IsRun(states, rotations) && i < |rotations| && Variants(rotations[..i + 1]) + 1 < U32
    ensures rotations[i].chosen != rotations[i].current
    ensures rotations[i].chosen in states[i + 1].c.masks && rotations[i].chosen !in states[i + 1].c.compromised
  {
    hide StateIn, Possible, After;
    assert rotations[..i + 1][..i] == rotations[..i];
    RunStaysIn(states, rotations, i);
    StepStaysIn(states[i], rotations[i]);
  }

  // ---- When a compromised mask is recycled ----------------------------------------------------

  /** When the mask was last rotated away from, unless a rotation more than 300 seconds after that has
      recycled it. */
  function CompromisedSince(rotations: seq<Rotation>, id: string): Option<nat> {
    if rotations == [] then None
    else
      var r := rotations[|rotations| - 1];
      var since := if r.current == id then Some(r.now) else CompromisedSince(rotations[..|rotations| - 1], id);
      if since.Some? && r.now > since.value + 300 then None else since
  }

  lemma PrepareDrops(c: Catalog, expired: seq<string>, draws: seq<Draw>)
    requires |draws| > |expired|
    ensures Prepare(c, expired, draws).compromised == c.compromised - IdsOf(expired)
  {
    hide VariantId, IdsOf, Recycle;
    RecycleDrops(c, expired, draws);
  }

  ghost predicate Since(c: Catalog, id: string, since: Option<nat>) {
    if id in c.compromised then since == Some(c.compromised[id]) else since == None
  }

  lemma StepSince(s: State, r: Rotation, id: string, before: Option<nat>)
    requires Possible(s, r) && Since(s.c, id, before)
    ensures var since := if r.current == id then Some(r.now) else before;
            Since(After(s, r).c, id, if since.Some? && r.now > since.value + 300 then None else since)
  {
    hide Prepare, HasFallback;
    PrepareDrops(MarkCompromised(s.c, r.current, r.now), r.expired, r.draws);
    assert id in IdsOf(r.expired) <==> id in r.expired;
  }

  /** Over every run a mask is held as compromised, since exactly its last rotation, until the first
      rotation more than 300 seconds later. */
  lemma {:induction false} HeldExactly(states: seq<State>, rotations: seq<Rotation>, k: nat, id: string)
    requires IsRun(states, rotations) && k <= |rotations|
    ensures Since(states[k].c, id, CompromisedSince(rotations[..k], id))
    decreases k
  {
    hide Possible, After, Since;
    if k == 0 {
      NothingSince(id);
    } else {
      assert rotations[..k][..k - 1] == rotations[..k - 1];
      HeldExactly(states, rotations, k - 1, id);
      StepSince(states[k - 1], rotations[k - 1], id, CompromisedSince(rotations[..k - 1], id));
    }
  }

  lemma NothingSince(id: string)
    ensures Since(Initial, id, None)
  {}

  // ---- The catalog in place -----------------------------------------------------------------

  class MaskPool {
    var masks: map<string, Profile>
    var compromised: map<string, nat>
    var variantCounter: nat

    function View(): Catalog
      reads this
    {
      Catalog(masks, compromised, variantCounter)
    }

    constructor ()
      ensures View() == Initial
    {
      masks := map[WEBRTC_PRESET := Profile(WEBRTC_PRESET, 0), QUIC_PRESET := Profile(QUIC_PRESET, 1)];
      compromised := map[];
      variantCounter := 1;
    }

    method MarkMaskCompromised(id: string, now: nat)
      modifies this
      ensures View() == MarkCompromised(old(View()), id, now)
    {
      masks := masks - {id};
      compromised := compromised[id := now];
    }

    method GenerateAndAdd(draw: Draw)
      modifies this
      ensures View() == AddVariant(old(View()), draw.webrtc, draw.fingerprint)
    {
      var id := VariantId(draw.webrtc, variantCounter);
      variantCounter := (variantCounter + 1) % U32;
      masks := masks[id := Profile(id, draw.fingerprint)];
    }

    /** The expired ids are collected first, in the order given, then each is replaced. */
    method RecycleExpired(order: seq<string>, now: nat, draws: seq<Draw>) returns (expired: seq<string>)
      requires |draws| >= |order|
      modifies this
      ensures |expired| <= |order| && forall id :: id in expired <==> id in order && Expired(old(View()), id, now)
      ensures View() == Recycle(old(View()), expired, draws)
    {
      expired := [];
      for i := 0 to |order|
        invariant |expired| <= i && forall id :: id in expired <==> id in order[..i] && Expired(View(), id, now)
      {
        if order[i] in compromised && now > compromised[order[i]] + COOLDOWN_SECS {
          expired := expired + [order[i]];
        }
      }
      for i := 0 to |expired|
        invariant View() == Recycle(old(View()), expired[..i], draws)
      {
        assert expired[..i + 1][..i] == expired[..i];
        compromised := compromised - {expired[i]};
        GenerateAndAdd(draws[i]);
      }
      assert expired[..|expired|] == expired;
    }

    method SelectFallback(current: string, order: seq<string>, now: nat, draws: seq<Draw>)
        returns (r: Option<Profile>, ghost expired: seq<string>)
      requires |draws| > |order|
      modifies this
      ensures |expired| <= |order| && forall id :: id in expired <==> id in order && Expired(old(View()), id, now)
      ensures View() == Prepare(old(View()), expired, draws)
      ensures r.Some? <==> HasFallback(View(), current)
      ensures r.Some? ==> exists id :: id in masks && id != current && masks[id] == r.value
    {
      var recycled := RecycleExpired(order, now, draws);
      expired := recycled;
      if |masks| <= 1 {
        GenerateAndAdd(draws[|recycled|]);
      }
      var left := masks.Keys;
      while left != {}
        invariant left <= masks.Keys
        invariant forall id :: id in masks && id !in left ==> id == current
      {
        var id: string :| id in left;
        if id != current {
          return Some(masks[id]), expired;
        }
        left := left - {id};
      }
      return None, expired;
    }
  }
}
