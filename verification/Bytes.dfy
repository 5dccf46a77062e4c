/** Bytes, and the little- and big-endian integers of the wire formats. */
module Bytes {
  type byte = b: int | 0 <= b < 256

  function Low(n: nat): byte { n % 256 }

  function U16Be(n: nat): seq<byte>
    requires n < 0x1_0000
  {
    [Low(n / 256), Low(n)]
  }

  function U16Le(n: nat): seq<byte>
    requires n < 0x1_0000
  {
    [Low(n), Low(n / 256)]
  }

  function FromBe(high: byte, low: byte): nat {
    var h: int, l: int := high, low;
    h * 256 + l
  }

  function FromLe(low: byte, high: byte): nat { FromBe(high, low) }

  lemma U16RoundTrip(n: nat)
    requires n < 0x1_0000
    ensures FromBe(U16Be(n)[0], U16Be(n)[1]) == n
    ensures FromLe(U16Le(n)[0], U16Le(n)[1]) == n
  {}

  /** `n` as `k` little-endian bytes, the rest of `n` dropped. */
  function ToLe(n: nat, k: nat): (bytes: seq<byte>)
    ensures |bytes| == k
    decreases k
  {
    if k == 0 then [] else [Low(n)] + ToLe(n / 256, k - 1)
  }

  function FromLeBytes(bytes: seq<byte>): nat {
    if bytes == [] then 0
    else
      var b: int := bytes[0];
      b + 256 * FromLeBytes(bytes[1..])
  }

  function Pow256(k: nat): (p: nat)
    ensures p > 0
  {
    if k == 0 then 1 else 256 * Pow256(k - 1)
  }

  /** Little-endian bytes give the number back exactly when it fits. */
  lemma {:induction false} LeRoundTrip(n: nat, k: nat)
    ensures FromLeBytes(ToLe(n, k)) == n <==> n < Pow256(k)
    decreases k
  {
    if k > 0 {
      assert ToLe(n, k)[1..] == ToLe(n / 256, k - 1);
      LeRoundTrip(n / 256, k - 1);
    }
  }

  /** Byte `i` is the digit of 256 to the `i`: the lowest comes first. */
  lemma {:induction false} LittleEndian(n: nat, k: nat, i: nat)
    requires i < k
    ensures ToLe(n, k)[i] == (n / Pow256(i)) % 256
    decreases k
  {
    if i > 0 {
      LittleEndian(n / 256, k - 1, i - 1);
      DivideTwice(n, Pow256(i - 1));
    }
  }

  lemma DivideTwice(n: nat, p: nat)
    requires p > 0
    ensures n / 256 / p == n / (256 * p)
  {
    var a, q := n / 256, n / 256 / p;
    assert q * p <= a < (q + 1) * p;
    assert q * (256 * p) == 256 * (q * p) <= n;
    assert (q + 1) * (256 * p) == 256 * ((q + 1) * p) >= 256 * (a + 1) > n;
    QuotientIs(n, 256 * p, q);
  }

  lemma QuotientIs(n: nat, m: nat, q: nat)
    requires m > 0 && q * m <= n < (q + 1) * m
    ensures n / m == q
  {
    TimesIsMonotone(n / m + 1, q, m);
    TimesIsMonotone(q + 1, n / m, m);
  }

  lemma TimesIsMonotone(a: nat, b: nat, m: nat)
    ensures a <= b ==> a * m <= b * m
  {}
}
