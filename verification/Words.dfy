/** Machine words as ranges of the integers, with wrap-around and bit operations
    written out, and the facts about powers of two that address arithmetic rests on. */
module Words {

  const POW32: int := 0x1_0000_0000
  const POW64: int := 0x1_0000_0000_0000_0000

  type u8 = x: int | 0 <= x < 0x100
  type u32 = x: int | 0 <= x < POW32
  type u64 = x: int | 0 <= x < POW64

  /** Conversion to uint32, and the result of uint32 arithmetic. */
  function Wrap32(x: int): u32 { x % POW32 }

  /** Conversion to uint64, and the result of uint64 arithmetic. */
  function Wrap64(x: int): u64 { x % POW64 }

  lemma Wrap32Small(x: u32)
    ensures Wrap32(x) == x
  {
  }

  lemma WrapAdd(x: nat, n: nat)
    ensures Wrap32(Wrap32(x) + n) == Wrap32(x + n)
  {
  }

  lemma Wrap64Next(x: nat)
    ensures Wrap64(Wrap64(x) + 1) == Wrap64(x + 1) && Wrap64(0) == 0
  {
  }

  // ----- powers of two -----

  function Pow2(n: nat): (r: nat)
    ensures r >= 1
  {
    if n == 0 then 1 else 2 * Pow2(n - 1)
  }

  lemma TwiceProduct(p: nat, q: nat)
    ensures 2 * p * q == 2 * (p * q)
  {
  }

  lemma {:induction false} Pow2Add(a: nat, b: nat)
    ensures Pow2(a + b) == Pow2(a) * Pow2(b)
  {
    if a > 0 {
      Pow2Add(a - 1, b);
      TwiceProduct(Pow2(a - 1), Pow2(b));
    }
  }

  lemma {:induction false} Pow2Order(a: nat, b: nat)
    ensures a < b ==> 2 * Pow2(a) <= Pow2(b)
    ensures a <= b ==> Pow2(a) <= Pow2(b)
    decreases b
  {
    if a < b {
      Pow2Order(a, b - 1);
    }
  }

  lemma Pow2Is32()
    ensures Pow2(32) == POW32
  {
    assert Pow2(4) == 16;
    Pow2Add(4, 4);
    Pow2Add(8, 8);
    Pow2Add(16, 16);
  }

  lemma Pow2Is64()
    ensures Pow2(64) == POW64
  {
    Pow2Is32();
    Pow2Add(32, 32);
  }

  // ----- shifting and masking, one bit at a time -----

  /** x >> k */
  function Shr(x: nat, k: nat): nat
    decreases k
  {
    if k == 0 then x else Shr(x / 2, k - 1)
  }

  /** x with its low k bits cleared. */
  function ClearLow(x: nat, k: nat): (r: nat)
    ensures r <= x < r + Pow2(k)
    decreases k
  {
    if k == 0 then x else 2 * ClearLow(x / 2, k - 1)
  }

  /** The low k bits of x are zero: x is a multiple of 2^k. */
  predicate Aligned(x: nat, k: nat)
    decreases k
  {
    k == 0 || (x % 2 == 0 && Aligned(x / 2, k - 1))
  }

  /** Bitwise or of two unsigned words. */
  function BitOr(x: nat, y: nat): nat
    decreases x + y
  {
    if x == 0 && y == 0 then 0
    else 2 * BitOr(x / 2, y / 2) + (if x % 2 == 1 || y % 2 == 1 then 1 else 0)
  }

  lemma {:induction false} ShrTwice(x: nat, a: nat, b: nat)
    ensures Shr(Shr(x, a), b) == Shr(x, a + b)
    decreases a
  {
    if a > 0 {
      ShrTwice(x / 2, a - 1, b);
    }
  }

  lemma HalfOfSum(x: nat, l: nat)
    ensures (2 * x + l) / 2 == x + l / 2 && (2 * x + l) % 2 == l % 2
  {
  }

  lemma ShrStep(x: nat, k: nat)
    requires k > 0
    ensures Shr(x, k) == Shr(x / 2, k - 1)
  {
  }

  /** Shifting out a low word leaves the high one. */
  lemma {:induction false} ShrWord(hi: nat, lo: nat, k: nat)
    requires lo < Pow2(k)
    ensures Shr(hi * Pow2(k) + lo, k) == hi
    decreases k
  {
    if k > 0 {
      var p := Pow2(k - 1);
      assert Pow2(k) == 2 * p;
      hide Pow2;
      TwiceProduct(p, hi);
      ShrWord(hi, lo / 2, k - 1);
      HalfOfSum(p * hi, lo);
      ShrStep(hi * (2 * p) + lo, k);
    }
  }

  /** Numbers with the same high bits are those between the cleared number and the next block. */
  lemma {:induction false} SameBlock(x: nat, y: nat, k: nat)
    ensures Shr(x, k) == Shr(y, k) <==> ClearLow(x, k) <= y < ClearLow(x, k) + Pow2(k)
    decreases k
  {
    if k > 0 {
      SameBlock(x / 2, y / 2, k - 1);
    }
  }

  lemma {:induction false} ClearLowAligned(x: nat, k: nat)
    ensures Aligned(ClearLow(x, k), k)
    ensures Aligned(x, k) <==> ClearLow(x, k) == x
    decreases k
  {
    if k > 0 {
      ClearLowAligned(x / 2, k - 1);
      assert ClearLow(x, k) / 2 == ClearLow(x / 2, k - 1);
    }
  }

  /** A multiple of a power of two is a multiple of every smaller one. */
  lemma {:induction false} AlignedDown(x: nat, j: nat, k: nat)
    requires Aligned(x, k)
    ensures j <= k ==> Aligned(x, j)
    decreases j
  {
    if 0 < j <= k {
      AlignedDown(x / 2, j - 1, k - 1);
    }
  }

  lemma {:induction false} AlignedSum(x: nat, y: nat, k: nat)
    requires Aligned(x, k)
    ensures Aligned(x + y, k) <==> Aligned(y, k)
    decreases k
  {
    if k > 0 {
      assert (x + y) / 2 == x / 2 + y / 2;
      AlignedSum(x / 2, y / 2, k - 1);
    }
  }

  lemma AlignedTwice(x: nat, k: nat)
    ensures Aligned(2 * x, k + 1) <==> Aligned(x, k)
  {
    assert 2 * x / 2 == x && 2 * x % 2 == 0;
  }

  lemma {:induction false} PowerAligned(k: nat)
    ensures Aligned(Pow2(k), k) && !Aligned(Pow2(k), k + 1)
  {
    if k > 0 {
      PowerAligned(k - 1);
      AlignedTwice(Pow2(k - 1), k - 1);
      AlignedTwice(Pow2(k - 1), k);
      hide Aligned;
    }
  }

  /** The end of a block that is not aligned twice as wide is. */
  lemma {:induction false} AlignedUp(x: nat, k: nat)
    requires Aligned(x, k) && !Aligned(x, k + 1)
    ensures Aligned(x + Pow2(k), k + 1)
    decreases k
  {
    if k > 0 {
      AlignedUp(x / 2, k - 1);
      assert (x + Pow2(k)) / 2 == x / 2 + Pow2(k - 1);
    }
  }

  /** Between two distinct multiples of 2^k there is room for 2^k. */
  lemma {:induction false} AlignedGap(a: nat, e: nat, k: nat)
    requires Aligned(a, k) && Aligned(e, k) && a < e
    ensures a + Pow2(k) <= e
    decreases k
  {
    if k > 0 {
      AlignedGap(a / 2, e / 2, k - 1);
    }
  }

  lemma {:induction false} BitOrZero(x: nat)
    ensures BitOr(x, 0) == x
  {
    if x > 0 {
      BitOrZero(x / 2);
    }
  }

  /** Or-ing k low ones moves a word to the last number of its aligned block of 2^k. */
  lemma {:induction false} BitOrLowOnes(x: nat, k: nat)
    ensures BitOr(x, Pow2(k) - 1) == ClearLow(x, k) + (Pow2(k) - 1)
    decreases k
  {
    if k == 0 {
      BitOrZero(x);
    } else {
      BitOrLowOnes(x / 2, k - 1);
      var ones := Pow2(k) - 1;
      assert ones / 2 == Pow2(k - 1) - 1 && ones % 2 == 1;
    }
  }

  // ----- alignment and the remainder operator -----

  lemma Monotone(p: nat, m: int, n: int)
    requires m <= n
    ensures p * m <= p * n
  {
    assert p * n - p * m == p * (n - m);
  }

  /** The only multiple of p strictly between -p and p is zero. */
  lemma SmallMultiple(p: int, n: int)
    requires p > 0 && -p < p * n < p
    ensures n == 0
  {
    if n >= 1 {
      Monotone(p, 1, n);
    } else if n <= -1 {
      Monotone(p, n, -1);
    }
  }

  /** Quotient and remainder are determined by x == p * q + r with 0 <= r < p. */
  lemma ModIs(x: int, p: nat, q: int, r: int)
    requires p > 0 && x == p * q + r && 0 <= r < p
    ensures x % p == r && x / p == q
  {
    var q' := x / p;
    assert x == p * q' + x % p;
    assert p * (q - q') == x % p - r;
    SmallMultiple(p, q - q');
  }

  lemma HalfRemainder(x: nat, h: nat, p: nat)
    requires h == x / 2 && p > 0
    ensures x % (2 * p) == 2 * (h % p) + x % 2
  {
    var q, r := h / p, h % p;
    assert h == p * q + r;
    assert 2 * p * q == 2 * (p * q);
    ModIs(x, 2 * p, q, 2 * r + x % 2);
  }

  lemma {:induction false} AlignedIsMultiple(x: nat, k: nat)
    ensures Aligned(x, k) <==> x % Pow2(k) == 0
    decreases k
  {
    if k > 0 {
      var h, p := x / 2, Pow2(k - 1);
      AlignedIsMultiple(h, k - 1);
      HalfRemainder(x, h, p);
    }
  }

  lemma {:induction false} MultipleAligned(m: nat, q: nat)
    ensures Aligned(Pow2(m) * q, m)
  {
    if m > 0 {
      MultipleAligned(m - 1, q);
      TwiceProduct(Pow2(m - 1), q);
    }
  }

  /** Wrapping at 2^32 does not disturb alignment. */
  lemma WrapKeepsAlignment(x: nat, k: nat)
    requires k <= 32
    ensures Aligned(Wrap32(x), k) <==> Aligned(x, k)
  {
    hide Aligned, Pow2;
    Pow2Is32();
    var q := x / POW32;
    MultipleAligned(32, q);
    AlignedDown(Pow2(32) * q, k, 32);
    AlignedSum(Pow2(32) * q, Wrap32(x), k);
  }
}
