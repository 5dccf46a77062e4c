/** Length-prefix framing of packets on a byte stream. */
module Framing {
  import opened Wrappers
  import opened Bytes

  const MAX_FRAMED_PACKET_SIZE: nat := 1500

  datatype FrameError = ZeroLength | TooLong

  /** The length prefix is truncated to 16 bits, big-endian. */
  function FramePacket(packet: seq<byte>): seq<byte> {
    U16Be(|packet| % 0x1_0000) + packet
  }

  /** One frame at the start of `buf`: its packet and the bytes it takes, None if incomplete. */
  function DecodeFrame(buf: seq<byte>): Result<Option<(seq<byte>, nat)>, FrameError> {
    if |buf| < 2 then Ok(None) else
    var len := FromBe(buf[0], buf[1]);
    if len == 0 then Err(ZeroLength)
    else if len > MAX_FRAMED_PACKET_SIZE then Err(TooLong)
    else if |buf| < 2 + len then Ok(None)
    else Ok(Some((buf[2..2 + len], 2 + len)))
  }

  /** Everything `next_packet` yields until it has no more, the bytes left, and whether it ended in an error. */
  function Drain(buf: seq<byte>): (seq<seq<byte>>, seq<byte>, bool)
    decreases |buf|
  {
    match DecodeFrame(buf)
    case Err(_) => ([], buf, true)
    case Ok(None) => ([], buf, false)
    case Ok(Some((packet, n))) =>
      var (rest, left, failed) := Drain(buf[n..]);
      ([packet] + rest, left, failed)
  }

  function FrameAll(packets: seq<seq<byte>>): seq<byte> {
    if packets == [] then [] else FramePacket(packets[0]) + FrameAll(packets[1..])
  }

  function Concat(chunks: seq<seq<byte>>): seq<byte> {
    if chunks == [] then [] else Concat(chunks[..|chunks| - 1]) + chunks[|chunks| - 1]
  }

  // ---- One frame ---------------------------------------------------------------

  /** A framed packet comes back, whatever follows it, exactly when its size is 1 to 1500. */
  lemma FrameRoundTrip(packet: seq<byte>, rest: seq<byte>)
    ensures DecodeFrame(FramePacket(packet) + rest) == Ok(Some((packet, 2 + |packet|))) <==> 1 <= |packet| <= 1500
  {
    var buf, len := FramePacket(packet) + rest, |packet| % 0x1_0000;
    U16RoundTrip(len);
    assert FromBe(buf[0], buf[1]) == len;
    if 1 <= |packet| <= 1500 {
      assert buf[2..2 + len] == packet;
    }
  }

  /** An error is given exactly for a whole length prefix of 0 or above 1500, a packet exactly when
      its 1 to 1500 bytes are there, and otherwise nothing yet. */
  lemma FrameAnswers(high: byte, low: byte, rest: seq<byte>)
    ensures DecodeFrame([]) == Ok(None) && DecodeFrame([high]) == Ok(None)
    ensures var n := 256 * (high as int) + (low as int);
            DecodeFrame([high, low] + rest)
            == if n == 0 then Err(ZeroLength)
               else if n > 1500 then Err(TooLong)
               else if |rest| < n then Ok(None) else Ok(Some((rest[..n], 2 + n)))
  {
    var buf := [high, low] + rest;
    var n := FromBe(high, low);
    assert buf[2..] == rest;
    if n <= |rest| {
      assert buf[2..2 + n] == rest[..n];
    }
  }

  /** A packet of 65536 bytes or more is framed under a shorter length. */
  lemma PrefixWraps(packet: seq<byte>)
    ensures var n := |packet| % 0x1_0000;
            var framed := FramePacket(packet);
            |framed| == 2 + |packet| && framed[2..] == packet && 256 * (framed[0] as int) + (framed[1] as int) == n
  {
    U16RoundTrip(|packet| % 0x1_0000);
  }

  /** Less than one whole frame yields nothing and no error. */
  lemma PartialFrame(packet: seq<byte>, k: nat)
    requires 1 <= |packet| <= 1500 && k < |FramePacket(packet)|
    ensures DecodeFrame(FramePacket(packet)[..k]) == Ok(None)
  {
    var buf := FramePacket(packet)[..k];
    assert |packet| % 0x1_0000 == |packet|;
    if k >= 2 {
      U16RoundTrip(|packet|);
      hide FromBe, U16Be;
      FrameAnswers(buf[0], buf[1], buf[2..]);
      assert buf == [buf[0], buf[1]] + buf[2..];
      assert buf[0] == U16Be(|packet|)[0] && buf[1] == U16Be(|packet|)[1];
    }
  }

  // ---- Streams -------------------------------------------------------------------

  predicate Framable(packets: seq<seq<byte>>) {
    forall i :: 0 <= i < |packets| ==> 1 <= |packets[i]| <= 1500
  }

  /** Draining any prefix of a framed stream yields the packets that fit in it whole, in order,
      and leaves exactly the remaining bytes. */
  lemma {:induction false} DrainPrefix(packets: seq<seq<byte>>, k: nat) returns (n: nat)
    requires Framable(packets) && k <= |FrameAll(packets)|
    ensures n <= |packets| && |FrameAll(packets[..n])| <= k
    ensures n < |packets| ==> k < |FrameAll(packets[..n + 1])|
    ensures Drain(FrameAll(packets)[..k]) == (packets[..n], FrameAll(packets)[|FrameAll(packets[..n])|..k], false)
  {
    var stream := FrameAll(packets)[..k];
    if packets == [] {
      n := 0;
      assert packets[..0] == [];
    } else {
      var first, rest := FramePacket(packets[0]), packets[1..];
      if k < |first| {
        n := 0;
        assert stream == first[..k];
        PartialFrame(packets[0], k);
        assert packets[..1] == [packets[0]] && FrameAll([packets[0]]) == first + FrameAll([]);
        assert packets[..0] == [] && FrameAll(packets)[0..k] == stream;
      } else {
        var m := DrainPrefix(rest, k - |first|);
        n := m + 1;
        DrainOneMore(packets, k, m);
      }
    }
  }

  /** One more packet in front: where the last whole packet ends. */
  lemma EndsOneMore(packets: seq<seq<byte>>, m: nat)
    requires packets != [] && m < |packets|
    ensures |FrameAll(packets[..m + 1])| == |FramePacket(packets[0])| + |FrameAll(packets[1..][..m])|
    ensures m + 1 < |packets| ==>
              |FrameAll(packets[..m + 2])| == |FramePacket(packets[0])| + |FrameAll(packets[1..][..m + 1])|
  {
    hide FramePacket, FrameAll;
    TakeFrames(packets, m);
    if m + 1 < |packets| {
      TakeFrames(packets, m + 1);
    }
  }

  lemma DrainOneMore(packets: seq<seq<byte>>, k: nat, m: nat)
    requires packets != [] && Framable(packets) && k <= |FrameAll(packets)| && |FramePacket(packets[0])| <= k
    requires var (rest, j) := (packets[1..], k - |FramePacket(packets[0])|);
             && m <= |rest| && |FrameAll(rest[..m])| <= j
             && (m < |rest| ==> j < |FrameAll(rest[..m + 1])|)
             && Drain(FrameAll(rest)[..j]) == (rest[..m], FrameAll(rest)[|FrameAll(rest[..m])|..j], false)
    ensures |FrameAll(packets[..m + 1])| <= k
    ensures m + 1 < |packets| ==> k < |FrameAll(packets[..m + 2])|
    ensures Drain(FrameAll(packets)[..k])
         == (packets[..m + 1], FrameAll(packets)[|FrameAll(packets[..m + 1])|..k], false)
  {
    hide FramePacket, FrameAll, Drain, Framable;
    EndsOneMore(packets, m);
    StreamOneMore(packets);
    TakeOneMore(packets, m);
    var rest, first := packets[1..], |FramePacket(packets[0])|;
    var i, j := |FrameAll(rest[..m])|, k - first;
    DrainBehind(packets[0], FrameAll(rest), i, j, rest[..m]);
    assert first + j == k && |FrameAll(packets[..m + 1])| == first + i;
  }

  lemma StreamOneMore(packets: seq<seq<byte>>)
    requires packets != [] && Framable(packets)
    ensures FrameAll(packets) == FramePacket(packets[0]) + FrameAll(packets[1..]) && 1 <= |packets[0]| <= 1500
  {}

  lemma TakeOneMore(packets: seq<seq<byte>>, m: nat)
    requires m < |packets|
    ensures packets[..m + 1] == [packets[0]] + packets[1..][..m]
  {}

  /** What draining the bytes behind one packet gives, it gives after that packet. */
  lemma DrainBehind(packet: seq<byte>, left: seq<byte>, i: nat, j: nat, out: seq<seq<byte>>)
    requires 1 <= |packet| <= 1500 && i <= j <= |left| && Drain(left[..j]) == (out, left[i..j], false)
    ensures var first := FramePacket(packet);
            Drain((first + left)[..|first| + j]) == ([packet] + out, (first + left)[|first| + i..|first| + j], false)
  {
    hide FramePacket, Drain;
    TailOfSum(FramePacket(packet), left, i, j);
    DrainFirst(packet, left[..j]);
  }

  lemma TailOfSum(a: seq<byte>, b: seq<byte>, i: nat, j: nat)
    requires i <= j <= |b|
    ensures (a + b)[..|a| + j] == a + b[..j]
    ensures (a + b)[|a| + i..|a| + j] == b[i..j]
  {}

  lemma DrainFirst(packet: seq<byte>, more: seq<byte>)
    requires 1 <= |packet| <= 1500
    ensures Drain(FramePacket(packet) + more) == ([packet] + Drain(more).0, Drain(more).1, Drain(more).2)
  {
    FrameRoundTrip(packet, more);
    assert (FramePacket(packet) + more)[2 + |packet|..] == more;
  }

  lemma TakeFrames(packets: seq<seq<byte>>, m: nat)
    requires packets != [] && m < |packets|
    ensures FrameAll(packets[..m + 1]) == FramePacket(packets[0]) + FrameAll(packets[1..][..m])
  {
    assert packets[..m + 1][1..] == packets[1..][..m];
  }

  /** Draining twice is draining once the two parts together. */
  lemma {:induction false} DrainAppend(buf: seq<byte>, more: seq<byte>)
    ensures var (out, left, failed) := Drain(buf);
            !failed ==> Drain(buf + more) == (out + Drain(left + more).0, Drain(left + more).1, Drain(left + more).2)
    decreases |buf|
  {
    match DecodeFrame(buf)
    case Err(_) =>
    case Ok(None) => assert [] + Drain(buf + more).0 == Drain(buf + more).0;
    case Ok(Some((packet, n))) =>
      assert DecodeFrame(buf + more) == Ok(Some((packet, n))) by {
        assert (buf + more)[2..n] == buf[2..n];
      }
      assert (buf + more)[n..] == buf[n..] + more;
      DrainAppend(buf[n..], more);
      var (out, left, failed) := Drain(buf[n..]);
      assert [packet] + (out + Drain(left + more).0) == ([packet] + out) + Drain(left + more).0;
  }

  /** A frame with a refused length is an error after all the packets before it, and stays where it is. */
  lemma {:induction false} DrainStops(packets: seq<seq<byte>>, high: byte, low: byte, junk: seq<byte>)
    requires Framable(packets) && !(1 <= 256 * (high as int) + (low as int) <= 1500)
    ensures Drain(FrameAll(packets) + ([high, low] + junk)) == (packets, [high, low] + junk, true)
    decreases |packets|
  {
    var bad := [high, low] + junk;
    if packets == [] {
      FrameAnswers(high, low, junk);
      assert FrameAll(packets) + bad == bad;
    } else {
      DrainFirst(packets[0], FrameAll(packets[1..]) + bad);
      assert FrameAll(packets) + bad == FramePacket(packets[0]) + (FrameAll(packets[1..]) + bad);
      DrainStops(packets[1..], high, low, junk);
      assert [packets[0]] + packets[1..] == packets;
    }
  }

  // ---- The decoder, pushed and drained chunk by chunk ---------------------------------

  class FrameDecoder {
    var buf: seq<byte>

    constructor ()
      ensures buf == []
    {
      buf := [];
    }

    method Push(data: seq<byte>)
      modifies this
      ensures buf == old(buf) + data
    {
      buf := buf + data;
    }

    method NextPacket() returns (r: Result<Option<seq<byte>>, FrameError>)
      modifies this
      ensures match DecodeFrame(old(buf))
              case Err(e) => r == Err(e) && buf == old(buf)
              case Ok(None) => r == Ok(None) && buf == old(buf)
              case Ok(Some((packet, n))) => r == Ok(Some(packet)) && buf == old(buf)[n..]
    {
      match DecodeFrame(buf)
      case Err(e) => r := Err(e);
      case Ok(None) => r := Ok(None);
      case Ok(Some((packet, n))) =>
        buf := buf[n..];
        r := Ok(Some(packet));
    }

    /** The receive loops' inner loop: every complete packet is forwarded. */
    method DrainAll() returns (out: seq<seq<byte>>, failed: bool)
      modifies this
      ensures (out, buf, failed) == Drain(old(buf))
    {
      out := [];
      failed := false;
      var more := true;
      assert [] + Drain(buf).0 == Drain(buf).0;
      while more
        invariant more ==> !failed
        invariant if more then Drain(old(buf)) == (out + Drain(buf).0, Drain(buf).1, Drain(buf).2)
                  else Drain(old(buf)) == (out, buf, failed)
        decreases more, |buf|
      {
        ghost var before, collected := buf, out;
        var r := NextPacket();
        match r
        case Err(_) =>
          failed, more := true, false;
          assert collected + [] == collected;
        case Ok(None) =>
          more := false;
          assert collected + [] == collected;
        case Ok(Some(packet)) =>
          out := out + [packet];
          assert collected + ([packet] + Drain(buf).0) == out + Drain(buf).0;
      }
    }

    /** A connection: each chunk read is pushed and drained until a frame is refused.  What comes
        out is what draining all the bytes at once would give. */
    method FeedAll(chunks: seq<seq<byte>>) returns (out: seq<seq<byte>>, failed: bool)
      requires buf == []
      modifies this
      ensures (out, failed) == (Drain(Concat(chunks)).0, Drain(Concat(chunks)).2)
      ensures !failed ==> buf == Drain(Concat(chunks)).1
    {
      out := [];
      failed := false;
      for i := 0 to |chunks|
        invariant !failed ==> (out, buf, false) == Drain(Concat(chunks[..i]))
        invariant !failed
      {
        ghost var sofar := Concat(chunks[..i]);
        assert chunks[..i + 1][..i] == chunks[..i];
        DrainAppend(sofar, chunks[i]);
        Push(chunks[i]);
        var packets;
        packets, failed := DrainAll();
        out := out + packets;
        if failed {
          FailureStays(chunks, i + 1);
          return;
        }
      }
      assert chunks[..|chunks|] == chunks;
    }
  }

  /** After a refused frame nothing that follows changes what came out. */
  lemma {:induction false} DrainFailureStays(buf: seq<byte>, more: seq<byte>)
    requires Drain(buf).2
    ensures Drain(buf + more).2 && Drain(buf + more).0 == Drain(buf).0
    decreases |buf|
  {
    if DecodeFrame(buf).Ok? {
      var n := DecodeFrame(buf).value.value.1;
      assert (buf + more)[2..n] == buf[2..n];
      assert (buf + more)[n..] == buf[n..] + more;
      DrainFailureStays(buf[n..], more);
    }
  }

  lemma {:induction false} FailureStays(chunks: seq<seq<byte>>, i: nat)
    requires i <= |chunks| && Drain(Concat(chunks[..i])).2
    ensures Drain(Concat(chunks)).2 && Drain(Concat(chunks)).0 == Drain(Concat(chunks[..i])).0
    decreases |chunks| - i
  {
    if i == |chunks| {
      assert chunks[..i] == chunks;
    } else {
      assert chunks[..i + 1][..i] == chunks[..i];
      DrainFailureStays(Concat(chunks[..i]), chunks[i]);
      FailureStays(chunks, i + 1);
    }
  }

  /** Chunking does not matter: whatever the chunks of any prefix of a framed stream, the
      decoder yields the packets whole in that prefix, in order, without error. */
  lemma ChunkingIsIrrelevant(packets: seq<seq<byte>>, chunks: seq<seq<byte>>) returns (n: nat)
    requires Framable(packets) && Concat(chunks) <= FrameAll(packets)
    ensures n <= |packets| && |FrameAll(packets[..n])| <= |Concat(chunks)|
    ensures Drain(Concat(chunks)) == (packets[..n], Concat(chunks)[|FrameAll(packets[..n])|..], false)
    ensures Concat(chunks) == FrameAll(packets) ==> n == |packets| && Drain(Concat(chunks)).1 == []
  {
    var k := |Concat(chunks)|;
    assert Concat(chunks) == FrameAll(packets)[..k];
    n := DrainPrefix(packets, k);
    assert packets[..|packets|] == packets;
    if Concat(chunks) == FrameAll(packets) && n < |packets| {
      FramesGrow(packets, n + 1);
    }
  }

  lemma {:induction false} FramesGrow(packets: seq<seq<byte>>, n: nat)
    requires n <= |packets|
    ensures |FrameAll(packets[..n])| <= |FrameAll(packets)|
    decreases |packets|
  {
    if n > 0 {
      TakeFrames(packets, n - 1);
      FramesGrow(packets[1..], n - 1);
    }
  }
}
