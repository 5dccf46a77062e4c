/** What travels between client and server, as terms.

    A datagram carries a tag, 32 bytes that may be read as an ephemeral key, and a
    sealed part that opens only under its own key, counter and position. */
module Datagram {
  import opened Crypto

  const TAG_SIZE: nat := 8
  const MDH_LEN: nat := 4
  const EPH_LEN: nat := 32
  const AEAD_LEN: nat := 16

  /** Where the server starts decrypting: before the ratchet it skips 32 bytes whenever there is room. */
  function PayloadOffset(size: nat, isNew: bool, ratchetedTag: bool, sessionRatcheted: bool): nat {
    if isNew || (!ratchetedTag && !sessionRatcheted && size >= TAG_SIZE + MDH_LEN + EPH_LEN + AEAD_LEN)
    then TAG_SIZE + MDH_LEN + EPH_LEN
    else TAG_SIZE + MDH_LEN
  }

  datatype Signature = Signature(signer: nat, serverEph: Pub, clientEph: Pub) | NoSignature

  datatype Control =
    | ServerHello(serverEph: Pub, signature: Signature)
    | Keepalive
    | TelemetryRequest
    | Shutdown
    | OtherControl

  datatype Content =
    | Data(validIp: bool)
    | ControlMessage(control: Control)
    | BadControl
    | OtherContent

  /** A decrypted payload: with unusable padding or header, or with its content. */
  datatype Plain = Malformed | Plain(content: Content)

  datatype Sealed = Sealed(key: Key, counter: nat, offset: nat, plain: Plain) | Garbage

  datatype Datagram = Datagram(tag: Tag, size: nat, eph: Pub, sealed: Sealed) {
    /** Decrypting from byte `offset` with `key` and the nonce of `counter` succeeds. */
    predicate Opens(key: Key, counter: nat, offset: nat) {
      sealed.Sealed? && sealed.key == key && sealed.counter == counter && sealed.offset == offset
    }
  }
}
