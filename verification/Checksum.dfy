/** The Internet checksum (section 1 of RFC 1071) and the echo reply that carries it. */
module Checksum {
  import opened Wrappers
  import opened Bytes

  /** The most bytes whose words cannot overflow the 32-bit sum: 65537 * 65535 == 2^32 - 1. */
  const MAX_SUMMED: nat := 131074

  /** The sum of the 16-bit big-endian words; an odd last byte is a high half. */
  function WordSum(data: seq<byte>): nat {
    if |data| == 0 then 0
    else if |data| == 1 then FromBe(data[0], 0)
    else FromBe(data[0], data[1]) + WordSum(data[2..])
  }

  /** Carries folded into the low 16 bits. */
  function Fold(sum: nat): (r: nat)
    ensures r < 0x1_0000
  {
    if sum < 0x1_0000 then sum else Fold(sum % 0x1_0000 + sum / 0x1_0000)
  }

  /** The one's complement sum of the words is all ones: what a receiver checks. */
  predicate SumsToAllOnes(data: seq<byte>) {
    Fold(WordSum(data)) == 0xFFFF
  }

  // ---- Folding --------------------------------------------------------------------

  /** Folding keeps the sum modulo 65535 and gives 0 for 0 only; so it is determined by both. */
  lemma {:induction false} FoldIsMod(sum: nat)
    ensures Fold(sum) == if sum == 0 then 0 else if sum % 0xFFFF == 0 then 0xFFFF else sum % 0xFFFF
    decreases sum
  {
    if sum >= 0x1_0000 {
      var q, r := sum / 0x1_0000, sum % 0x1_0000;
      FoldIsMod(r + q);
      assert sum == 0xFFFF * q + (r + q);
      ModOfMultiple(q, r + q);
    }
  }

  lemma {:induction false} ModOfMultiple(q: nat, x: nat)
    ensures (0xFFFF * q + x) % 0xFFFF == x % 0xFFFF
    decreases q
  {
    if q > 0 {
      ModOfMultiple(q - 1, x);
      assert 0xFFFF * q + x == (0xFFFF * (q - 1) + x) + 0xFFFF;
    }
  }

  /** Adding the complement of the folded sum gives all ones. */
  lemma ComplementCompletes(sum: nat)
    ensures Fold(sum) <= 0xFFFF && Fold(sum + (0xFFFF - Fold(sum))) == 0xFFFF
  {
    FoldIsMod(sum);
    FoldIsMod(sum + (0xFFFF - Fold(sum)));
    var q, r := sum / 0xFFFF, sum % 0xFFFF;
    assert sum + (0xFFFF - Fold(sum)) == 0xFFFF * (if sum == 0 || r > 0 then q + 1 else q);
    ModOfMultiple(if sum == 0 || r > 0 then q + 1 else q, 0);
  }

  // ---- Summing ----------------------------------------------------------------------

  lemma {:induction false} SumIsSmall(data: seq<byte>)
    ensures WordSum(data) <= (|data| + 1) / 2 * 0xFFFF
    decreases |data|
  {
    if |data| >= 2 {
      SumIsSmall(data[2..]);
    }
  }

  lemma {:induction false} SumOfParts(a: seq<byte>, b: seq<byte>)
    requires |a| % 2 == 0
    ensures WordSum(a + b) == WordSum(a) + WordSum(b)
    decreases |a|
  {
    if a == [] {
      assert a + b == b;
    } else {
      assert (a + b)[2..] == a[2..] + b;
      SumOfParts(a[2..], b);
    }
  }

  /** A word is its first byte times 256 plus its second; words add up; an odd last byte counts as if
      a zero byte followed. */
  lemma WordsAddUp(a: byte, b: byte, data: seq<byte>, odd: seq<byte>)
    requires |odd| % 2 == 1
    ensures WordSum([]) == 0 && WordSum([a, b] + data) == 256 * (a as int) + (b as int) + WordSum(data)
    ensures WordSum(odd) == WordSum(odd + [0])
  {
    assert ([a, b] + data)[2..] == data;
    OddIsPadded(odd);
  }

  lemma {:induction false} OddIsPadded(odd: seq<byte>)
    requires |odd| % 2 == 1
    ensures WordSum(odd) == WordSum(odd + [0])
    decreases |odd|
  {
    if |odd| == 1 {
      assert (odd + [0])[2..] == [];
    } else {
      assert (odd + [0])[2..] == odd[2..] + [0];
      OddIsPadded(odd[2..]);
    }
  }

  /** The checksum loop and the carry loop, on a 32-bit accumulator that never overflows. */
  method ComputeChecksum(data: seq<byte>) returns (checksum: nat)
    requires |data| <= MAX_SUMMED
    ensures checksum == 0xFFFF - Fold(WordSum(data)) && 0 <= checksum <= 0xFFFF
  {
    var sum: nat := 0;
    var i := 0;
    assert data[0..] == data;
    while i + 1 < |data|
      invariant i % 2 == 0 && i <= |data|
      invariant sum + WordSum(data[i..]) == WordSum(data)
    {
      assert data[i..][2..] == data[i + 2..];
      sum := sum + FromBe(data[i], data[i + 1]);
      i := i + 2;
    }
    if i < |data| {
      assert |data[i..]| == 1;
      sum := sum + FromBe(data[i], 0);
    }
    SumIsSmall(data);
    assert sum == WordSum(data) < 0x1_0000_0000;
    ghost var total := sum;
    while sum / 0x1_0000 != 0
      invariant Fold(sum) == Fold(total)
      decreases sum
    {
      sum := sum % 0x1_0000 + sum / 0x1_0000;
    }
    checksum := 0xFFFF - sum;
  }

  // ---- The echo reply ------------------------------------------------------------------

  /** A message whose two checksum bytes are filled in after summing it with zeros there: the
      words now sum to all ones, so the receiver's checksum of the whole is 0. */
  lemma FilledInSumsToOnes(front: seq<byte>, rest: seq<byte>)
    requires |front| % 2 == 0
    ensures SumsToAllOnes(front + U16Be(0xFFFF - Fold(WordSum(front + [0, 0] + rest))) + rest)
  {
    var zeroed := front + [0, 0] + rest;
    ComplementCompletes(WordSum(zeroed));
    var checksum := 0xFFFF - Fold(WordSum(zeroed));
    SumAround(front, [0, 0], rest);
    SumAround(front, U16Be(checksum), rest);
    U16RoundTrip(checksum);
    assert WordSum([0, 0]) == 0;
    assert WordSum(U16Be(checksum)) == checksum;
  }

  lemma SumAround(front: seq<byte>, word: seq<byte>, rest: seq<byte>)
    requires |front| % 2 == 0 && |word| == 2
    ensures WordSum(front + word + rest) == WordSum(front) + WordSum(word) + WordSum(rest)
  {
    SumOfParts(front + word, rest);
    SumOfParts(front, word);
  }

  lemma HeaderKept(header: seq<byte>, icmp: seq<byte>)
    requires |header| == 20 && |icmp| >= 4
    ensures var r := header + icmp;
            && r[20..] == icmp && r[24..] == icmp[4..] && r[20] == icmp[0] && r[21] == icmp[1]
            && (forall i, j :: 0 <= i <= j <= 20 ==> r[i..j] == header[i..j])
            && r[0] == header[0] && r[1] == header[1]
  {}

  /** The reply to an echo request: addresses swapped, type 0, same code, id, sequence and data,
      and an ICMP part that sums to all ones.  Anything else gets no reply. */
  method BuildIcmpEchoReply(request: seq<byte>, serverIp: seq<byte>) returns (reply: Option<seq<byte>>)
    requires |serverIp| == 4 && |request| <= MAX_SUMMED
    ensures reply.Some? <==> |request| >= 28 && request[20] == 8
    ensures reply.Some? ==> var r := reply.value;
      && |r| == |request| && r[0] == 0x45 && r[1] == 0
      && r[2..4] == U16Be(|request| % 0x1_0000) && r[4..8] == request[4..8]
      && r[8..12] == [64, 1, 0, 0] && r[12..16] == serverIp && r[16..20] == request[12..16]
      && r[20] == 0 && r[21] == request[21] && r[24..] == request[24..]
      && SumsToAllOnes(r[20..])
  {
    if |request| < 28 || request[20] != 8 {
      return None;
    }
    var header: seq<byte> := [0x45, 0x00] + U16Be(|request| % 0x1_0000);
    header := header + request[4..6] + request[6..8];
    header := header + [64, 1, 0, 0] + serverIp + request[12..16];
    assert request[4..6] + request[6..8] == request[4..8];
    assert |header| == 20 && header[2..4] == U16Be(|request| % 0x1_0000) && header[4..8] == request[4..8];
    assert header[8..12] == [64, 1, 0, 0] && header[12..16] == serverIp && header[16..20] == request[12..16];
    var icmp: seq<byte> := [0, request[21], 0, 0] + request[24..28] + request[28..];
    var checksum := ComputeChecksum(icmp);
    ghost var front: seq<byte> := [0, request[21]];
    assert request[24..28] + request[28..] == request[24..];
    assert icmp == front + [0, 0] + request[24..];
    FilledInSumsToOnes(front, request[24..]);
    icmp := icmp[2 := Low(checksum / 256)][3 := Low(checksum)];
    assert icmp == front + U16Be(checksum) + request[24..];
    HeaderKept(header, icmp);
    assert icmp[4..] == request[24..];
    return Some(header + icmp);
  }
}
