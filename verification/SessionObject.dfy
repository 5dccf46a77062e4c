/** One server session as an object, its loops and bitmap included. */
module SessionObject {
  import opened Wrappers
  import opened Bitset256
  import opened Crypto
  import opened Datagram
  import opened Session

  class ServerSession {
    var addr: Addr
    var keys: SessionKeys
    var ephPub: Pub
    var counter: nat
    var sendCounter: nat
    var expectedTags: TagTable
    var tagWindowBase: nat
    var receivedBitmap: Bitset256
    var serverEphPub: Option<Pub>
    var serverHelloSignature: Signature
    var ratchetedKeys: Option<SessionKeys>
    var ratchetedExpectedTags: TagTable
    var isRatcheted: bool
    var vpnIp: Option<Ip>
    var clientId: Option<nat>

    ghost function View(): SessionState
      reads this
    {
      SessionState(addr, keys, ephPub, counter, sendCounter, expectedTags, tagWindowBase, receivedBitmap.Ones(),
                   serverEphPub, serverHelloSignature, ratchetedKeys, ratchetedExpectedTags, isRatcheted, vpnIp,
                   clientId)
    }

    /** A pending session, before its ratchet data and tags are set up. */
    constructor (from: Addr, keys: SessionKeys, ephPub: Pub)
      ensures View() == SessionState(from, keys, ephPub, 0, 0, map[], 0, {}, None, NoSignature, None, map[], false,
                                     None, None)
    {
      addr, this.keys, this.ephPub := from, keys, ephPub;
      counter, sendCounter, tagWindowBase := 0, 0, 0;
      expectedTags, ratchetedExpectedTags := map[], map[];
      receivedBitmap := Empty();
      serverEphPub, serverHelloSignature, ratchetedKeys := None, NoSignature, None;
      isRatcheted, vpnIp, clientId := false, None, None;
      new;
      EmptyHasNoOnes();
    }

    /** The next counter for sealing; its nonce is the counter's little-endian bytes. */
    method NextSendNonce() returns (c: nat)
      modifies this`sendCounter
      ensures c == old(sendCounter) && View() == old(View()).NextSend()
    {
      c := sendCounter;
      sendCounter := sendCounter + 1;
    }

    method UpdateTagWindow(tw: nat)
      modifies this`expectedTags, this`tagWindowBase
      ensures View() == old(View()).UpdateTagWindow(tw)
    {
      tagWindowBase := counter;
      var start := if counter < TAG_WINDOW_SIZE then 0 else counter - (TAG_WINDOW_SIZE - 1);
      var end := counter + (TAG_WINDOW_SIZE - 1);
      expectedTags := PrecomputeTags(keys.tagSecret, start, end, tw);
    }

    method UpdateRatchetedTagWindow(tw: nat)
      modifies this`ratchetedExpectedTags
      ensures View() == old(View()).UpdateRatchetedTagWindow(tw)
    {
      if ratchetedKeys.Some? {
        ratchetedExpectedTags := PrecomputeTags(ratchetedKeys.value.tagSecret, 0, TAG_WINDOW_SIZE - 1, tw);
      }
    }

    static method PrecomputeTags(secret: Key, start: nat, end: nat, tw: nat) returns (m: TagTable)
      requires start <= end
      ensures m == TagsFor(secret, start, end, tw)
    {
      m := map[];
      for c := start to end + 1
        invariant m == map k: nat | start <= k < c :: Tag(secret, k, tw)
      {
        m := m[c := Tag(secret, c, tw)];
      }
    }

    /** The bitmap's answer for a counter at or below the highest. */
    predicate IsReplay(c: nat)
      reads this
    {
      if c > counter then false
      else
        var bit := counter - c;
        bit < TAG_WINDOW_SIZE && receivedBitmap.TestBit(bit)
    }

    lemma IsReplayView(c: nat)
      ensures IsReplay(c) == View().IsReplay(c)
    {
      if c <= counter && counter - c < TAG_WINDOW_SIZE {
        TestBitIsGetBit(receivedBitmap, counter - c);
      }
    }

    /** Whether some precomputed tag equals `tag`, visiting the table in any order. */
    static method Search(m: TagTable, tag: Tag) returns (found: bool)
      ensures found == Holds(m, tag)
    {
      var left := m.Keys;
      while left != {}
        invariant left <= m.Keys
        invariant forall c :: c in m && c !in left ==> m[c] != tag
      {
        var c: nat :| c in left;
        if m[c] == tag {
          return true;
        }
        left := left - {c};
      }
      return false;
    }

    /** Whether some counter of a range has `tag` in one of the two adjacent time windows. */
    static method SearchAdjacent(secret: Key, start: nat, end: nat, tag: Tag, now: nat) returns (found: bool)
      ensures found <==>
                tag.secret == secret && start <= tag.counter <= end
                && (tag.window == PrevWindow(now) || tag.window == NextWindow(now))
    {
      var windows := [PrevWindow(now), NextWindow(now)];
      for i := 0 to 2
        invariant i > 0 ==> !(tag.secret == secret && start <= tag.counter <= end && tag.window == PrevWindow(now))
        invariant i > 1 ==> !(tag.secret == secret && start <= tag.counter <= end && tag.window == NextWindow(now))
      {
        var c := start;
        while c <= end
          invariant c >= start
          invariant !(tag.secret == secret && start <= tag.counter < c && tag.counter <= end
                      && tag.window == windows[i])
        {
          if Tag(secret, c, windows[i]) == tag {
            return true;
          }
          c := c + 1;
        }
      }
      return false;
    }

    method ValidateTag(tag: Tag, now: nat) returns (r: Option<(nat, bool)>)
      ensures r == View().ValidateTag(tag, now)
    {
      IsReplayView(tag.counter);
      var start := if counter < TAG_WINDOW_SIZE then 0 else counter - (TAG_WINDOW_SIZE - 1);
      var end := counter + (TAG_WINDOW_SIZE - 1);
      var found := Search(expectedTags, tag);
      if !found {
        found := SearchAdjacent(keys.tagSecret, start, end, tag, now);
      }
      if found {
        return if IsReplay(tag.counter) then None else Some((tag.counter, false));
      }
      if !isRatcheted {
        found := Search(ratchetedExpectedTags, tag);
        if !found && ratchetedKeys.Some? {
          found := SearchAdjacent(ratchetedKeys.value.tagSecret, 0, TAG_WINDOW_SIZE - 1, tag, now);
        }
        if found {
          return Some((tag.counter, true));
        }
      }
      return None;
    }

    method MarkTagReceived(c: nat)
      modifies this`counter, this`receivedBitmap
      ensures View() == old(View()).MarkTagReceived(c)
    {
      if c > counter {
        var shift := c - counter;
        ShiftMovesOnes(receivedBitmap, shift);
        SetBitAddsOne(receivedBitmap.Shift(shift), 0);
        receivedBitmap := receivedBitmap.Shift(shift);
        counter := c;
        receivedBitmap := receivedBitmap.SetBit(0);
        return;
      }
      var bit := counter - c;
      if bit < 256 {
        SetBitAddsOne(receivedBitmap, bit);
        receivedBitmap := receivedBitmap.SetBit(bit);
      }
    }

    method CompleteRatchet()
      modifies this
      ensures View() == old(View()).CompleteRatchet()
    {
      if ratchetedKeys.Some? {
        keys := ratchetedKeys.value;
        ratchetedKeys := None;
        counter := 0;
        sendCounter := 0;
        tagWindowBase := counter;
        expectedTags := ratchetedExpectedTags;
        ratchetedExpectedTags := map[];
        EmptyHasNoOnes();
        receivedBitmap := Empty();
        isRatcheted := true;
        serverEphPub := None;
        serverHelloSignature := NoSignature;
      }
    }

    /** The part of `handle_packet` done under the session lock after a packet was opened. */
    method Receive(c: nat, isNew: bool, from: Addr, tw: nat) returns (refreshTags: bool)
      modifies this
      ensures refreshTags == (c >= old(tagWindowBase) + REFRESH_DISTANCE)
      ensures View() == old(View()).Receive(c, isNew, from, tw)
    {
      MarkTagReceived(c);
      if !isNew && addr != from {
        addr := from;
      }
      refreshTags := c >= tagWindowBase && c - tagWindowBase >= REFRESH_DISTANCE;
      if refreshTags {
        UpdateTagWindow(tw);
      }
    }
  }
}
