/** Keys, Diffie-Hellman values and resonance tags as terms.

    Two terms are equal only when they were built the same way.  That is the one
    assumption made about the cryptography of the session protocol: derived keys do
    not repeat, and resonance tags of different (secret, counter, window) differ. */
module Crypto {
  import opened Wrappers

  const U64_MAX: nat := 0xFFFF_FFFF_FFFF_FFFF

  /** An X25519 public key: the one of a private scalar, or bytes of low order. */
  datatype Pub = Pub(scalar: nat) | LowOrder

  /** A shared secret: an unordered pair of private scalars. */
  datatype Dh = Dh(small: nat, large: nat)

  datatype Context = SessionKeyContext | TagSecretContext

  datatype Key =
    | Raw(bytes: nat)
    | Derived(context: Context, dh: Dh, psk: Option<Key>, eph: Pub)

  datatype SessionKeys = SessionKeys(sessionKey: Key, tagSecret: Key)

  datatype Tag = Tag(secret: Key, counter: nat, window: nat)

  /** `compute_shared`: None stands for the rejected all-zero result. */
  function ComputeShared(scalar: nat, remote: Pub): Option<Dh> {
    match remote
    case LowOrder => None
    case Pub(other) => Some(if scalar <= other then Dh(scalar, other) else Dh(other, scalar))
  }

  function DeriveSessionKeys(dh: Dh, psk: Option<Key>, eph: Pub): SessionKeys {
    SessionKeys(Derived(SessionKeyContext, dh, psk, eph), Derived(TagSecretContext, dh, psk, eph))
  }

  /** How many derivations a key is away from raw bytes. */
  function Depth(k: Key): nat {
    match k
    case Raw(_) => 0
    case Derived(_, _, psk, _) => 1 + (match psk case None => 0 case Some(p) => Depth(p))
  }

  /** Both ends of an exchange compute the same shared secret. */
  lemma SharedCommutes(a: nat, b: nat)
    ensures ComputeShared(a, Pub(b)) == ComputeShared(b, Pub(a))
  {}

  /** The time window before `w`, wrapping as 64-bit subtraction does. */
  function PrevWindow(w: nat): nat { if w == 0 then U64_MAX else w - 1 }

  /** The time window after `w`, wrapping as 64-bit addition does. */
  function NextWindow(w: nat): nat { if w == U64_MAX then 0 else w + 1 }

  /** `t` is the current window `now` or one of its neighbours. */
  predicate NearWindow(now: nat, t: nat) {
    t == now || t == PrevWindow(now) || t == NextWindow(now)
  }

  /** Near windows are those at distance 0 or 1, counted modulo 2^64. */
  lemma NearIsAdjacent(now: nat, t: nat)
    requires now <= U64_MAX && t <= U64_MAX
    ensures NearWindow(now, t) <==> (t - now) % 0x1_0000_0000_0000_0000 in {0, 1, 0xFFFF_FFFF_FFFF_FFFF}
  {}
}
