/** A suite with no cipher in it that meets everything assumed of one, so that the lemmas about bytes
    are about something; and a concrete packet under it. */
module PlainSuite {
  import opened Wrappers
  import opened Bytes
  import C = Crypto
  import RW = RecvWindow
  import opened Wire
  import opened Abstraction

  /** The nonce and the length stand where the authenticator does. */
  function Trailer(nonce: Buf, n: nat): (t: Buf)
    ensures |t| == POLY1305_TAG_SIZE
  {
    (nonce + Zeros(12))[..12] + ToLe(n, 4)
  }

  function PlainSeal(nonce: Buf, plain: Buf): Buf { plain + Trailer(nonce, |plain|) }

  function PlainOpen(nonce: Buf, sealed: Buf): Option<Buf> {
    var n := |sealed| - POLY1305_TAG_SIZE;
    if n >= 0 && sealed[n..] == Trailer(nonce, n) then Some(sealed[..n]) else None
  }

  function PlainTag(c: nat, t: nat): Buf { ToLe(4 * c + t % 4, TAG_SIZE) }

  function Plain(): Suite {
    Suite((k, c, t) => PlainTag(c, t), (k, n, p) => PlainSeal(n, p), (k, n, s) => PlainOpen(n, s))
  }

  lemma OpensItself(nonce: Buf, plain: Buf)
    ensures |PlainSeal(nonce, plain)| == |plain| + POLY1305_TAG_SIZE
    ensures PlainOpen(nonce, PlainSeal(nonce, plain)) == Some(plain)
  {
    hide Trailer;
    var sealed := PlainSeal(nonce, plain);
    assert sealed[|plain|..] == Trailer(nonce, |plain|) && sealed[..|plain|] == plain;
  }

  lemma CutFails(nonce: Buf, plain: Buf)
    ensures |PlainSeal(nonce, plain)| >= EPH_LEN ==> PlainOpen(nonce, PlainSeal(nonce, plain)[EPH_LEN..]).None?
  {
    hide Trailer;
    var sealed := PlainSeal(nonce, plain);
    if |plain| >= EPH_LEN {
      var n := |plain| - EPH_LEN;
      assert sealed[EPH_LEN..][n..] == Trailer(nonce, |plain|);
      TrailersDiffer(nonce, nonce, n + EPH_LEN, n);
    }
  }

  lemma OtherNonceFails(nonce: Buf, nonce': Buf, plain: Buf)
    requires |nonce| == 12 && |nonce'| == 12 && nonce != nonce'
    ensures PlainOpen(nonce', PlainSeal(nonce, plain)).None?
  {
    hide Trailer;
    var sealed := PlainSeal(nonce, plain);
    assert sealed[|plain|..] == Trailer(nonce, |plain|);
    TrailersDiffer(nonce, nonce', |plain|, |plain|);
  }

  lemma TrailersDiffer(nonce: Buf, nonce': Buf, n: nat, m: nat)
    ensures n == m + EPH_LEN ==> Trailer(nonce, n) != Trailer(nonce', m)
    ensures |nonce| == 12 && |nonce'| == 12 && nonce != nonce' ==> Trailer(nonce, n) != Trailer(nonce', m)
  {
    assert Trailer(nonce, n)[12] == Low(n) && Trailer(nonce', m)[12] == Low(m);
    if |nonce| == 12 && |nonce'| == 12 {
      assert (nonce + Zeros(12))[..12] == nonce && (nonce' + Zeros(12))[..12] == nonce';
      assert Trailer(nonce, n)[..12] == nonce && Trailer(nonce', m)[..12] == nonce';
    }
  }

  lemma TagsDiffer(c: nat, t: nat, c': nat, t': nat)
    requires 4 * c + 3 < COUNTERS && 4 * c' + 3 < COUNTERS && PlainTag(c, t) == PlainTag(c', t')
    ensures c == c' && t % 4 == t' % 4
  {
    hide ToLe, Pow256;
    LeRoundTrip(4 * c + t % 4, 8);
    LeRoundTrip(4 * c' + t' % 4, 8);
  }

  lemma PlainIsSound()
    ensures Sound(Plain())
  {
    hide PlainSeal, PlainOpen;
    forall n, p
      ensures |PlainSeal(n, p)| == |p| + POLY1305_TAG_SIZE && PlainOpen(n, PlainSeal(n, p)) == Some(p)
    {
      OpensItself(n, p);
    }
  }

  /** All that is assumed anywhere of a suite, at once. */
  lemma AssumptionsHold(key: C.Key, counter: nat, plain: Buf, w: RW.Window, now: nat, t: nat)
    requires 4 * w.SearchEnd() + 3 < COUNTERS && 4 * counter + 3 < COUNTERS && C.NearWindow(now, t)
    ensures Sound(Plain())
    ensures TruncationFails(Plain(), key, CounterToNonce(counter), Plain().seal(key, CounterToNonce(counter), plain),
                            EPH_LEN)
    ensures RW.Unambiguous(w, TagFn(Plain(), key), now, counter, t)
    ensures TagTells(Plain(), key, w, now, counter, t)
    ensures NonceBinds(Plain(), key, counter, plain)
  {
    hide PlainSeal, PlainOpen, PlainTag, Sound, CounterToNonce, Pow256;
    PlainIsSound();
    CutFails(CounterToNonce(counter), plain);
    forall c: nat, u: nat |
      w.SearchStart() <= c < w.SearchEnd() && C.NearWindow(now, u) && PlainTag(c, u) == PlainTag(counter, t)
      ensures c == counter && u == t
    {
      TagsDiffer(c, u, counter, t);
    }
    forall c: nat | c < COUNTERS && c != counter
      ensures PlainOpen(CounterToNonce(c), PlainSeal(CounterToNonce(counter), plain)).None?
    {
      NoncesDiffer(c, counter);
      NonceSize(c);
      NonceSize(counter);
      OtherNonceFails(CounterToNonce(counter), CounterToNonce(c), plain);
    }
  }

  lemma NonceSize(c: nat)
    ensures |CounterToNonce(c)| == 12
  {}

  /** What DataOpensAtServer rules out does happen: a 40-byte inner packet before the ratchet is not
      opened, though nothing is wrong with it. */
  lemma EarlyDataFails(keys: C.SessionKeys, counter: nat, tw: nat)
    ensures var packet := SealPacket(Plain(), keys, counter, [0, 0, 0, 0], Zeros(40), [], tw);
            && |packet| == 70
            && ServerOpen(Plain(), packet, keys.sessionKey, counter, false, false, false) != Some(Zeros(40))
  {
    hide PlainSeal, PlainOpen, PlainTag, ServerOpen, CounterToNonce;
    PlainIsSound();
    CutFails(CounterToNonce(counter), Padded(Zeros(40), []));
    DataOpensAtServer(Plain(), keys, counter, [0, 0, 0, 0], Zeros(40), [], tw, false, false, false);
  }
}
