/** The two-word 256-bit bitmaps of both endpoints.

    A `u128` word is a natural number below 2^128.  Shifts, `|` and `&` are written
    out bit by bit, so nothing about machine words is taken for granted.  `Ones` is
    the simple form, a set of bit positions, that the two-word form refines. */
module Bitset256 {
  function Pow2(n: nat): (p: nat)
    ensures p > 0
  {
    if n == 0 then 1 else 2 * Pow2(n - 1)
  }

  type u128 = w: nat | w < Pow2(128)

  // ---- Word operators ------------------------------------------------------

  /** Bit `i` of `w`. */
  function Bit(w: nat, i: nat): bool {
    if i == 0 then w % 2 == 1 else Bit(w / 2, i - 1)
  }

  /** `w << n` on 128 bits: n doublings, each dropping the top bit. */
  function Shl(w: u128, n: nat): u128
    decreases n
  {
    if n == 0 then w else Shl((2 * w) % Pow2(128), n - 1)
  }

  /** `w >> n`. */
  function Shr(w: u128, n: nat): u128
    decreases n
  {
    if n == 0 then w else Shr(w / 2, n - 1)
  }

  /** `a | b` on the low `n` bits. */
  function OrBits(a: nat, b: nat, n: nat): (r: nat)
    ensures r < Pow2(n)
  {
    if n == 0 then 0 else 2 * OrBits(a / 2, b / 2, n - 1) + if a % 2 == 1 || b % 2 == 1 then 1 else 0
  }

  /** `a & b` on the low `n` bits. */
  function AndBits(a: nat, b: nat, n: nat): (r: nat)
    ensures r < Pow2(n)
  {
    if n == 0 then 0 else 2 * AndBits(a / 2, b / 2, n - 1) + if a % 2 == 1 && b % 2 == 1 then 1 else 0
  }

  function Or(a: u128, b: u128): u128 { OrBits(a, b, 128) }

  function And(a: u128, b: u128): u128 { AndBits(a, b, 128) }

  /** `1u128 << i`. */
  function Mask(i: nat): u128
    requires i < 128
  {
    OneFits();
    Shl(1, i)
  }

  lemma OneFits()
    ensures 1 < Pow2(128)
  {
    assert Pow2(128) == 2 * Pow2(127);
  }

  // ---- What the operators do to a bit --------------------------------------

  lemma {:induction false} BitOfMod(w: nat, n: nat, i: nat)
    requires i < n
    ensures Bit(w % Pow2(n), i) == Bit(w, i)
    decreases i
  {
    var m := Pow2(n - 1);
    HalfOfMod(w, m);
    if i > 0 {
      BitOfMod(w / 2, n - 1, i - 1);
    }
  }

  lemma HalfOfMod(w: nat, m: nat)
    requires m > 0
    ensures (w % (2 * m)) / 2 == (w / 2) % m
    ensures (w % (2 * m)) % 2 == w % 2
  {
    var q, r := w / (2 * m), w % (2 * m);
    assert w == 2 * (m * q) + r;
    assert w / 2 == m * q + r / 2;
    ModOfSum(m, q, r / 2);
  }

  lemma ModOfSum(m: nat, q: nat, r: nat)
    requires r < m
    ensures (m * q + r) % m == r
  {
    SameRemainder(m, q, r, (m * q + r) / m, (m * q + r) % m);
  }

  lemma SameRemainder(m: nat, q: int, r: nat, k: int, s: nat)
    requires r < m && s < m && m * q + r == m * k + s
    ensures r == s
  {
    assert m * (q - k) == m * q - m * k == s - r;
    if q > k {
      MultipleAtLeast(m, q - k);
    } else if q < k {
      assert m * (k - q) == r - s;
      MultipleAtLeast(m, k - q);
    }
  }

  lemma MultipleAtLeast(m: nat, d: nat)
    requires d > 0
    ensures m * d >= m
  {
    assert m * d == m * (d - 1) + m;
  }

  lemma {:induction false} BitOfShl(w: u128, n: nat, i: nat)
    requires i < 128
    ensures Bit(Shl(w, n), i) <==> n <= i && Bit(w, i - n)
    decreases n
  {
    if n > 0 {
      BitOfShl((2 * w) % Pow2(128), n - 1, i);
      if n - 1 <= i {
        BitOfMod(2 * w, 128, i - (n - 1));
      }
    }
  }

  lemma {:induction false} BitOfShr(w: u128, n: nat, i: nat)
    ensures Bit(Shr(w, n), i) == Bit(w, i + n)
    decreases n
  {
    if n > 0 {
      BitOfShr(w / 2, n - 1, i);
    }
  }

  lemma {:induction false} BitAbove(w: nat, n: nat, i: nat)
    requires w < Pow2(n) && n <= i
    ensures !Bit(w, i)
    decreases i
  {
    if i > 0 {
      BitAbove(w / 2, if n == 0 then 0 else n - 1, i - 1);
    }
  }

  lemma {:induction false} BitOfOr(a: nat, b: nat, n: nat, i: nat)
    requires i < n
    ensures Bit(OrBits(a, b, n), i) <==> Bit(a, i) || Bit(b, i)
    decreases i
  {
    if i > 0 {
      BitOfOr(a / 2, b / 2, n - 1, i - 1);
    }
  }

  lemma {:induction false} BitOfMask(j: nat, i: nat)
    requires i < 128 && j < 128
    ensures Bit(Mask(j), i) <==> i == j
  {
    OneFits();
    BitOfShl(1, j, i);
    if j < i {
      BitAbove(1, 1, i - j);
    }
  }

  lemma {:induction false} NonZeroSharesBit(a: nat, b: nat, n: nat) returns (i: nat)
    requires AndBits(a, b, n) != 0
    ensures i < n && Bit(a, i) && Bit(b, i)
    decreases n
  {
    if a % 2 == 1 && b % 2 == 1 {
      i := 0;
    } else {
      i := NonZeroSharesBit(a / 2, b / 2, n - 1);
      i := i + 1;
    }
  }

  lemma {:induction false} SharedBitIsNonZero(a: nat, b: nat, n: nat, i: nat)
    requires i < n && Bit(a, i) && Bit(b, i)
    ensures AndBits(a, b, n) != 0
    decreases n
  {
    if i > 0 {
      SharedBitIsNonZero(a / 2, b / 2, n - 1, i - 1);
    }
  }

  // ---- The two-word bitmap -------------------------------------------------

  datatype Bitset256 = Bitset256(lo: u128, hi: u128) {
    /** The receiver's `get_bit`: shift down and test the low bit; false from 256 on. */
    predicate GetBit(bit: nat) {
      if bit < 128 then Bit(lo, bit) else if bit < 256 then Bit(hi, bit - 128) else false
    }

    /** The server's `get_bit`: test against a one-bit mask. */
    predicate TestBit(bit: nat)
      requires bit < 256
    {
      if bit < 128 then And(lo, Mask(bit)) != 0 else And(hi, Mask(bit - 128)) != 0
    }

    /** `set_bit` of both endpoints; the receiver ignores positions from 256 on. */
    function SetBit(bit: nat): Bitset256 {
      if bit < 128 then Bitset256(Or(lo, Mask(bit)), hi)
      else if bit < 256 then Bitset256(lo, Or(hi, Mask(bit - 128)))
      else this
    }

    /** `shl` / `shift_left` of both endpoints, in all four ranges of the shift. */
    function Shift(shift: nat): Bitset256 {
      if shift >= 256 then Empty()
      else if shift == 0 then this
      else if shift >= 128 then Bitset256(0, Shl(lo, shift - 128))
      else Bitset256(Shl(lo, shift), Or(Shl(hi, shift), Shr(lo, 128 - shift)))
    }

    /** The set of positions that are one. */
    ghost function Ones(): set<nat> {
      set i: nat | 0 <= i < 256 && GetBit(i)
    }
  }

  function Empty(): Bitset256 { Bitset256(0, 0) }

  lemma EmptyHasNoOnes()
    ensures Empty().Ones() == {}
  {
    forall i: nat | i < 256
      ensures !Empty().GetBit(i)
    {
      BitAbove(0, 0, if i < 128 then i else i - 128);
    }
  }

  lemma SetBitAddsOne(b: Bitset256, bit: nat)
    requires bit < 256
    ensures b.SetBit(bit).Ones() == b.Ones() + {bit}
  {
    forall i: nat | i < 256
      ensures b.SetBit(bit).GetBit(i) <==> i == bit || b.GetBit(i)
    {
      if bit < 128 && i < 128 {
        BitOfMask(bit, i);
        BitOfOr(b.lo, Mask(bit), 128, i);
      } else if bit >= 128 && i >= 128 {
        BitOfMask(bit - 128, i - 128);
        BitOfOr(b.hi, Mask(bit - 128), 128, i - 128);
      }
    }
  }

  /** The two-word shift moves every position up by `shift` and drops what leaves 256 bits. */
  lemma ShiftMovesOnes(b: Bitset256, shift: nat)
    ensures b.Shift(shift).Ones() == Moved(b.Ones(), shift)
  {
    forall i: nat | i < 256
      ensures b.Shift(shift).GetBit(i) <==> shift <= i && b.GetBit(i - shift)
    {
      ShiftBit(b, shift, i);
    }
    forall i: nat | i in b.Shift(shift).Ones()
      ensures i in Moved(b.Ones(), shift)
    {
      assert i - shift in b.Ones();
    }
  }

  ghost function Moved(ones: set<nat>, shift: nat): set<nat> {
    set i | i in ones && i + shift < 256 :: i + shift
  }

  lemma ShiftBit(b: Bitset256, shift: nat, i: nat)
    requires i < 256
    ensures b.Shift(shift).GetBit(i) <==> shift <= i && b.GetBit(i - shift)
  {
    if shift >= 256 {
      EmptyHasNoOnes();
      assert i !in Empty().Ones();
    } else if shift >= 128 {
      if i < 128 {
        BitAbove(0, 0, i);
      } else {
        BitOfShl(b.lo, shift - 128, i - 128);
      }
    } else if shift > 0 {
      if i < 128 {
        BitOfShl(b.lo, shift, i);
      } else {
        BitOfOr(Shl(b.hi, shift), Shr(b.lo, 128 - shift), 128, i - 128);
        BitOfShl(b.hi, shift, i - 128);
        BitOfShr(b.lo, 128 - shift, i - 128);
        if i >= shift + 128 {
          BitAbove(b.lo, 128, i - shift);
        }
      }
    }
  }

  /** The two endpoints read a bit differently and agree. */
  lemma TestBitIsGetBit(b: Bitset256, bit: nat)
    requires bit < 256
    ensures b.TestBit(bit) == b.GetBit(bit)
  {
    if bit < 128 {
      MaskReadsBit(b.lo, bit);
    } else {
      MaskReadsBit(b.hi, bit - 128);
    }
  }

  lemma MaskReadsBit(w: u128, j: nat)
    requires j < 128
    ensures And(w, Mask(j)) != 0 <==> Bit(w, j)
  {
    BitOfMask(j, j);
    if And(w, Mask(j)) != 0 {
      var i := NonZeroSharesBit(w, Mask(j), 128);
      BitOfMask(j, i);
    } else if Bit(w, j) {
      SharedBitIsNonZero(w, Mask(j), 128, j);
    }
  }
}
