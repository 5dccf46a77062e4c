/** The client as an object: its fields move exactly as `Client.ClientState` says. */
module ClientObject {
  import opened Wrappers
  import opened Crypto
  import opened Datagram
  import RW = RecvWindow
  import opened Client

  class AivpnClient {
    const scalar: nat
    const signingPub: Option<nat>
    var sessionKeys: Option<SessionKeys>
    var recvWindow: RW.RecvWindow
    var transitionRecvKeys: Option<SessionKeys>
    var transitionRecvWindow: RW.RecvWindow
    var transitionRecvDeadline: Option<nat>
    var counter: nat
    var uploadState: Option<Upload>
    var attached: bool
    var engine: bool

    ghost predicate Valid()
      reads this
    {
      recvWindow != transitionRecvWindow
    }

    ghost function View(): ClientState
      reads this, recvWindow, transitionRecvWindow
    {
      ClientState(scalar, signingPub, sessionKeys, recvWindow.View(), transitionRecvKeys, transitionRecvWindow.View(),
                  transitionRecvDeadline, counter, uploadState, attached, engine)
    }

    constructor (scalar: nat, signingPub: Option<nat>, keys: SessionKeys)
      ensures Valid() && fresh(recvWindow) && fresh(transitionRecvWindow)
      ensures View() == Connected(scalar, signingPub, keys)
    {
      this.scalar, this.signingPub := scalar, signingPub;
      sessionKeys := Some(keys);
      transitionRecvKeys, transitionRecvDeadline := None, None;
      counter, uploadState, attached, engine := 0, None, false, true;
      var w := new RW.RecvWindow();
      var v := new RW.RecvWindow();
      recvWindow, transitionRecvWindow := w, v;
    }

    /** Decoding with one of the two windows, which alone is changed. */
    static method DecodePacket(d: Datagram, keys: SessionKeys, window: RW.RecvWindow, mdhLen: nat, tw: nat)
        returns (r: Option<(nat, Content)>)
      modifies window
      ensures (window.View(), r) == Decode(d, keys, old(window.View()), mdhLen, tw)
    {
      if d.size < TAG_SIZE + mdhLen + AEAD_LEN {
        return None;
      }
      var found := window.FindCounter(d.tag, TagOf(keys.tagSecret), tw);
      if found.None? || !d.Opens(keys.sessionKey, found.value, TAG_SIZE + mdhLen) {
        return None;
      }
      window.Mark(found.value);
      if d.sealed.plain.Malformed? {
        return None;
      }
      return Some((found.value, d.sealed.plain.content));
    }

    method ReceivePacket(d: Datagram, mdhLen: nat, now: nat, tw: nat) returns (accepted: Option<(Key, nat)>)
      requires Valid()
      modifies this, recvWindow, transitionRecvWindow
      ensures Valid() && fresh({recvWindow, transitionRecvWindow} - old({recvWindow, transitionRecvWindow}))
      ensures (View(), accepted) == old(View()).Receive(d, mdhLen, now, tw)
    {
      if transitionRecvDeadline.Some? && now >= transitionRecvDeadline.value {
        transitionRecvKeys := None;
        transitionRecvDeadline := None;
        transitionRecvWindow.Reset();
      }
      if sessionKeys.None? {
        return None;
      }
      var keys := sessionKeys.value;
      var decoded := DecodePacket(d, keys, recvWindow, mdhLen, tw);
      if decoded.None? {
        if transitionRecvKeys.None? {
          return None;
        }
        keys := transitionRecvKeys.value;
        decoded := DecodePacket(d, keys, transitionRecvWindow, mdhLen, tw);
        if decoded.None? {
          return None;
        }
      }
      accepted := Some((keys.sessionKey, decoded.value.0));
      HandleContent(decoded.value.1, now);
    }

    method HandleContent(content: Content, now: nat)
      requires Valid()
      modifies this
      ensures Valid() && fresh({recvWindow, transitionRecvWindow} - old({recvWindow, transitionRecvWindow}))
      ensures View() == old(View()).Handle(content, now)
    {
      match content
      case ControlMessage(ServerHello(serverEph, signature)) => ProcessServerHello(serverEph, signature, now);
      case ControlMessage(Shutdown) =>
        sessionKeys := None;
        attached := false;
        transitionRecvKeys := None;
        transitionRecvDeadline := None;
      case _ =>
    }

    /** The windows change hands: the present one becomes the transition window. */
    method ProcessServerHello(serverEph: Pub, signature: Signature, now: nat)
      requires Valid()
      modifies this
      ensures Valid() && fresh({recvWindow, transitionRecvWindow} - old({recvWindow, transitionRecvWindow}))
      ensures View() == old(View()).ProcessHello(serverEph, signature, now)
    {
      if signingPub.Some? && signature != Signature(signingPub.value, serverEph, Pub(scalar)) {
        return;
      }
      var dh2 := ComputeShared(scalar, serverEph);
      if dh2.None? || sessionKeys.None? {
        return;
      }
      var ratcheted := DeriveSessionKeys(dh2.value, Some(sessionKeys.value.sessionKey), Pub(scalar));
      transitionRecvKeys := sessionKeys;
      transitionRecvDeadline := Some(now + TRANSITION_MS);
      transitionRecvWindow := recvWindow;
      sessionKeys := Some(ratcheted);
      counter := 0;
      recvWindow := new RW.RecvWindow();
      if attached && uploadState.Some? {
        uploadState := Some(uploadState.value.(keys := ratcheted, counter := 0));
      }
    }

    method StartUpload(seqNum: nat)
      requires Valid()
      modifies this
      ensures Valid() && View() == old(View()).StartUpload(seqNum)
    {
      if sessionKeys.Some? && engine {
        engine := false;
        uploadState := Some(Upload(sessionKeys.value, counter, seqNum));
        attached := true;
      }
    }

    /** The upload task: key and counter are read, and the counter advanced, under one lock. */
    method SendUpload() returns (sealed: Option<(Key, nat)>)
      requires Valid()
      modifies this`uploadState
      ensures (View(), sealed) == old(View()).SendUpload()
    {
      if uploadState.None? {
        return None;
      }
      var u := uploadState.value;
      sealed := Some((u.keys.sessionKey, u.counter));
      uploadState := Some(Upload(u.keys, u.counter + 1, (u.seqNum + 1) % 0x1_0000));
    }

    method SendControl() returns (sealed: Option<(Key, nat)>)
      requires Valid()
      modifies this`uploadState, this`counter
      ensures (View(), sealed) == old(View()).SendControl()
    {
      if !engine {
        return None;
      }
      if attached && uploadState.Some? {
        sealed := SendUpload();
        counter := uploadState.value.counter;
      } else if sessionKeys.None? {
        return None;
      } else {
        sealed := Some((sessionKeys.value.sessionKey, counter));
        counter := counter + 1;
      }
    }
  }
}
