/** Single bits of a 32-bit word, as the bitmaps of fs/fs.c, tools/fsformat.c, kern/env.c and
    kern/disk_driver.c use them. */
module Words {
  const WORD := 0x1_0000_0000

  predicate IsWord(w: int) { 0 <= w < WORD }

  /** `w & (1 << k)` is not zero. */
  predicate TestBit(w: int, k: nat)
    decreases k
  {
    if k == 0 then w % 2 == 1 else TestBit(w / 2, k - 1)
  }

  /** `w | (1 << k)` */
  function SetBit(w: int, k: nat): int
    decreases k
  {
    if k == 0 then w / 2 * 2 + 1 else SetBit(w / 2, k - 1) * 2 + w % 2
  }

  /** `w & ~(1 << k)` */
  function ClearBit(w: int, k: nat): int
    decreases k
  {
    if k == 0 then w / 2 * 2 else ClearBit(w / 2, k - 1) * 2 + w % 2
  }

  lemma {:induction false} SetBitIs(w: int, k: nat, j: nat)
    ensures TestBit(SetBit(w, k), j) <==> j == k || TestBit(w, j)
    decreases k
  {
    if k > 0 && j > 0 {
      SetBitIs(w / 2, k - 1, j - 1);
      assert SetBit(w, k) / 2 == SetBit(w / 2, k - 1);
    }
  }

  lemma {:induction false} ClearBitIs(w: int, k: nat, j: nat)
    ensures TestBit(ClearBit(w, k), j) <==> j != k && TestBit(w, j)
    decreases k
  {
    if k > 0 && j > 0 {
      ClearBitIs(w / 2, k - 1, j - 1);
      assert ClearBit(w, k) / 2 == ClearBit(w / 2, k - 1);
    }
  }

  function Pow2(k: nat): int { if k == 0 then 1 else 2 * Pow2(k - 1) }

  /** Bit k counts 2^k: what the three operations say in numbers. */
  lemma {:induction false} BitAt(w: int, k: nat)
    ensures Pow2(k) >= 1 && (TestBit(w, k) <==> w / Pow2(k) % 2 == 1)
    ensures SetBit(w, k) == w + (if TestBit(w, k) then 0 else Pow2(k))
    ensures ClearBit(w, k) == w - (if TestBit(w, k) then Pow2(k) else 0)
    decreases k
  {
    if k > 0 {
      BitAt(w / 2, k - 1);
      HalvedTwice(w, Pow2(k - 1));
    }
  }

  lemma HalvedTwice(w: int, p: int)
    requires p >= 1
    ensures w / 2 / p == w / (2 * p)
  {
    var q, r := w / 2 / p, 2 * (w / 2 % p) + w % 2;
    assert w == 2 * p * q + r by {
      assert w / 2 == p * q + w / 2 % p && w == 2 * (w / 2) + w % 2;
    }
    var d := q - w / (2 * p);
    assert 2 * p * d == w % (2 * p) - r;
    assert d >= 1 ==> 2 * p * d >= 2 * p;
    assert d <= -1 ==> 2 * p * d <= -2 * p;
  }

  /** Setting or clearing bit k < n of an n-bit word leaves an n-bit word. */
  lemma {:induction false} BitsStayInRange(w: int, k: nat, n: nat)
    requires k < n && 0 <= w < Pow2(n)
    ensures 0 <= SetBit(w, k) < Pow2(n) && 0 <= ClearBit(w, k) < Pow2(n)
  {
    if k > 0 {
      BitsStayInRange(w / 2, k - 1, n - 1);
    }
  }

  lemma WordBits(w: int, k: nat)
    requires IsWord(w) && k < 32
    ensures IsWord(SetBit(w, k)) && IsWord(ClearBit(w, k))
  {
    WordIsPow2();
    BitsStayInRange(w, k, 32);
  }

  lemma {:induction false} PowSum(a: nat, b: nat)
    ensures Pow2(a + b) == Pow2(a) * Pow2(b)
  {
    if a > 0 {
      PowSum(a - 1, b);
      assert Pow2(a + b) == 2 * (Pow2(a - 1) * Pow2(b));
    }
  }

  /** A word other than zero has a bit set. */
  lemma {:induction false} NonzeroHasBit(w: int, n: nat) returns (k: nat)
    requires 0 < w < Pow2(n)
    ensures k < n && TestBit(w, k)
    decreases n
  {
    if w % 2 == 1 {
      k := 0;
    } else {
      k := NonzeroHasBit(w / 2, n - 1);
      k := k + 1;
    }
  }

  lemma {:induction false} ZeroHasNoBits(k: nat)
    ensures !TestBit(0, k)
  {
    if k > 0 { ZeroHasNoBits(k - 1); }
  }

  /** n-bit words with the same bits are the same. */
  lemma {:induction false} BitsDetermine(v: int, w: int, n: nat)
    requires 0 <= v < Pow2(n) && 0 <= w < Pow2(n)
    requires forall k: nat :: k < n ==> (TestBit(v, k) <==> TestBit(w, k))
    ensures v == w
    decreases n
  {
    if n > 0 {
      assert TestBit(v, 0) <==> TestBit(w, 0);
      forall k: nat | k < n - 1 ensures TestBit(v / 2, k) <==> TestBit(w / 2, k) {
        assert TestBit(v, k + 1) <==> TestBit(w, k + 1);
      }
      BitsDetermine(v / 2, w / 2, n - 1);
    }
  }

  /** The m lowest bits and no others. */
  lemma {:induction false} OnesBits(m: nat, j: nat)
    ensures TestBit(Pow2(m) - 1, j) <==> j < m
    decreases j
  {
    if m == 0 {
      ZeroHasNoBits(j);
    } else if j > 0 {
      OnesBits(m - 1, j - 1);
      assert (Pow2(m) - 1) / 2 == Pow2(m - 1) - 1;
    }
  }

  /** `v | w` on n bits. */
  function OrBits(v: int, w: int, n: nat): int
    decreases n
  {
    if n == 0 then 0 else OrBits(v / 2, w / 2, n - 1) * 2 + (if v % 2 == 1 || w % 2 == 1 then 1 else 0)
  }

  lemma {:induction false} OrBitsIs(v: int, w: int, n: nat, k: nat)
    ensures 0 <= OrBits(v, w, n) < Pow2(n)
    ensures TestBit(OrBits(v, w, n), k) <==> k < n && (TestBit(v, k) || TestBit(w, k))
    decreases n
  {
    if n == 0 {
      ZeroHasNoBits(k);
    } else {
      OrBitsIs(v / 2, w / 2, n - 1, if k == 0 then 0 else k - 1);
      assert OrBits(v, w, n) / 2 == OrBits(v / 2, w / 2, n - 1);
    }
  }

  /** The bits of a number that is put together of two parts. */
  lemma {:induction false} SplitBits(a: int, q: int, m: nat, k: nat)
    requires 0 <= q < Pow2(m)
    ensures TestBit(a * Pow2(m) + q, k) <==> if k < m then TestBit(q, k) else TestBit(a, k - m)
    decreases m
  {
    if m > 0 {
      var w := a * Pow2(m) + q;
      assert w == 2 * (a * Pow2(m - 1)) + q;
      assert w / 2 == a * Pow2(m - 1) + q / 2 && w % 2 == q % 2;
      if k > 0 { SplitBits(a, q / 2, m - 1, k - 1); }
    }
  }

  lemma WordIsPow2()
    ensures Pow2(32) == WORD
  {
    assert Pow2(8) == 256;
    assert Pow2(16) == 256 * Pow2(8) by { PowSum(8, 8); }
    assert Pow2(32) == Pow2(16) * Pow2(16) by { PowSum(16, 16); }
  }

  lemma WordsDiffer(v: int, w: int)
    requires IsWord(v) && IsWord(w) && forall k: nat :: k < 32 ==> (TestBit(v, k) <==> TestBit(w, k))
    ensures v == w
  {
    WordIsPow2();
    BitsDetermine(v, w, 32);
  }
}
