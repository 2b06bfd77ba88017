/** Page-table entries built from permissions that callers of the system calls choose freely: any 32-bit
    word is or-ed into the entry. */
module Entries {
  import opened Words
  import opened Sv32

  /** `ADDR_PTE(page2pa(pp)) | perm | PTE_V` */
  function EntryWord(pp: int, perm: int): int {
    OrBits(OrBits(AddrPte(Page2Pa(pp)), perm, 32), PTE_V, 32)
  }

  /** The permission has no bit above the flags but those that the frame number has anyway. */
  ghost predicate Fits(pp: int, perm: int) {
    forall k: nat :: 10 <= k < 32 && TestBit(perm, k) ==> TestBit(AddrPte(Page2Pa(pp)), k)
  }

  lemma Pow10()
    ensures Pow2(10) == 1024
  {
    assert Pow2(5) == 32;
    PowSum(5, 5);
  }

  /** The bits of a word are those of its frame number and of its flags. */
  lemma HighBits(w: int, k: nat)
    requires 0 <= w
    ensures TestBit(w, k) <==> if k < 10 then TestBit(w % 1024, k) else TestBit(w / 1024, k - 10)
  {
    Pow10();
    SplitBits(w / 1024, w % 1024, 10, k);
    assert w == w / 1024 * 1024 + w % 1024;
  }

  lemma AddrBits(pp: int, k: nat)
    requires 0 <= pp < MAXPAGES
    ensures var a := AddrPte(Page2Pa(pp)); 0 <= a < TWO32 && a % 1024 == 0 && a / 1024 == pp + KERNBASE / BY2PG
    ensures k < 10 ==> !TestBit(AddrPte(Page2Pa(pp)), k)
  {
    var n := pp + KERNBASE / BY2PG;
    assert Page2Pa(pp) / BY2PG == n;
    if k < 10 {
      HighBits(n * 1024, k);
      ZeroHasNoBits(k);
    }
  }

  lemma LowBit(w: int, k: nat)
    requires 0 <= w < 1024
    ensures TestBit(Or(w, PTE_V), k) <==> k == 0 || TestBit(w, k)
    ensures 0 <= Or(w, PTE_V) < 1024
  {
    assert Or(w, PTE_V) == SetBit(w, 0);
    SetBitIs(w, 0, k);
  }

  lemma OneHasBit(k: nat)
    ensures TestBit(PTE_V, k) <==> k == 0
  {
    if k > 0 { ZeroHasNoBits(k - 1); }
  }

  lemma EntryBits(pp: int, perm: int, k: nat)
    requires 0 <= pp < MAXPAGES && 0 <= perm < TWO32
    ensures 0 <= EntryWord(pp, perm) < TWO32
    ensures TestBit(EntryWord(pp, perm), k) <==>
      k < 32 && (k == 0 || TestBit(perm, k) || TestBit(AddrPte(Page2Pa(pp)), k))
  {
    WordIsPow2();
    OneHasBit(k);
    OrBitsIs(AddrPte(Page2Pa(pp)), perm, 32, k);
    OrBitsIs(OrBits(AddrPte(Page2Pa(pp)), perm, 32), PTE_V, 32, k);
  }

  lemma MadeBits(pp: int, perm: int, k: nat)
    requires 0 <= pp < MAXPAGES && 0 <= perm < 1024
    ensures 0 <= MakePte(pp, perm) < TWO32
    ensures TestBit(MakePte(pp, perm), k) <==> k == 0 || TestBit(perm, k) || TestBit(AddrPte(Page2Pa(pp)), k)
  {
    PteRoundTrip(pp, perm);
    AddrBits(pp, k);
    LowBit(perm, k);
    HighBits(MakePte(pp, perm), k);
    HighBits(AddrPte(Page2Pa(pp)), k);
    HighBits(perm, k);
    if k >= 10 { ZeroHasNoBits(k - 10); }
  }

  lemma AddrHasFit(pp: int, perm: int, k: nat)
    requires Fits(pp, perm) && 10 <= k < 32
    ensures TestBit(perm, k) ==> TestBit(AddrPte(Page2Pa(pp)), k)
  {}

  /** With fitting bits the entry is the one that the low ten permission bits alone give. */
  lemma FittingEntry(pp: int, perm: int)
    requires 0 <= pp < MAXPAGES && 0 <= perm < TWO32 && Fits(pp, perm)
    ensures EntryWord(pp, perm) == MakePte(pp, perm % 1024)
  {
    hide EntryWord, MakePte, Page2Pa, AddrPte, TestBit, OrBits;
    var q := perm % 1024;
    EntryBits(pp, perm, 0);
    MadeBits(pp, q, 0);
    forall k: nat | k < 32 ensures TestBit(EntryWord(pp, perm), k) <==> TestBit(MakePte(pp, q), k) {
      EntryBits(pp, perm, k);
      MadeBits(pp, q, k);
      HighBits(perm, k);
      HighBits(q, k);
      if k >= 10 { ZeroHasNoBits(k - 10); AddrHasFit(pp, perm, k); }
    }
    WordsDiffer(EntryWord(pp, perm), MakePte(pp, q));
  }

  /** The entry has the low ten permission bits, whatever the others are. */
  lemma EntryFlags(pp: int, perm: int)
    requires 0 <= pp < MAXPAGES && 0 <= perm < TWO32
    ensures 0 <= EntryWord(pp, perm) < TWO32 && PteValid(EntryWord(pp, perm))
    ensures PteFlags(EntryWord(pp, perm)) == Or(perm % 1024, PTE_V)
  {
    var w, q := EntryWord(pp, perm), perm % 1024;
    EntryBits(pp, perm, 0);
    Pow10();
    LowBit(q, 0);
    forall k: nat | k < 10 ensures TestBit(w % 1024, k) <==> TestBit(Or(q, PTE_V), k) {
      EntryBits(pp, perm, k);
      AddrBits(pp, k);
      HighBits(w, k);
      HighBits(perm, k);
      LowBit(q, k);
    }
    BitsDetermine(w % 1024, Or(q, PTE_V), 10);
    assert TestBit(w, 0);
  }

  /** The flags that the kernel reads back from what page_insert stores: those of the caller, with V, and with R
      if W is among them. */
  lemma StoredFlags(pp: int, perm: int)
    requires 0 <= pp < MAXPAGES && 0 <= perm < TWO32
    ensures var w := Stored(pp, perm).1;
            0 <= w < 1024 && w % 2 == 1 && w / 4 % 2 == perm / 4 % 2 && w / 8 == perm % 1024 / 8 &&
            w / 2 % 2 == if perm / 4 % 2 == 1 then 1 else perm / 2 % 2
  {
    hide EntryWord, InsertPerm, Or;
    var q := perm % 1024;
    StoredPerm(perm);
    EntryFlags(pp, InsertPerm(perm));
    LowFlags(perm / 1024, q);
    assert perm == 1024 * (perm / 1024) + q;
    assert HasR(perm) == HasR(q) && HasW(perm) == HasW(q);
    ReadBack(q, Or(InsertPerm(q), PTE_V));
    assert Stored(pp, perm).1 == Or(InsertPerm(q), PTE_V);
  }

  lemma ReadBack(q: int, w: int)
    requires 0 <= q < 1024 && w == Or(InsertPerm(q), PTE_V)
    ensures 0 <= w < 1024 && w % 2 == 1 && w / 4 % 2 == q / 4 % 2 && w / 8 == q / 8
    ensures w / 2 % 2 == if q / 4 % 2 == 1 then 1 else q / 2 % 2
  {
    var a, b, c, d := q % 2, q / 2 % 2, q / 4 % 2, q / 8;
    assert q == a + 2 * b + 4 * c + 8 * d by { var x := q / 2; assert q == a + 2 * x && q / 4 == x / 2 && q / 8 == x / 2 / 2; }
    var b1 := if c == 1 then 1 else b;
    var p := InsertPerm(q);
    assert p == a + 2 * b1 + 4 * c + 8 * d;
    LowThree(a, b1, c, d);
    LowThree(1, b1, c, d);
  }

  lemma LowThree(a: int, b: int, c: int, d: int)
    requires 0 <= a < 2 && 0 <= b < 2 && 0 <= c < 2
    ensures var x := a + 2 * b + 4 * c + 8 * d; x % 2 == a && x / 2 % 2 == b && x / 4 % 2 == c && x / 8 == d
  {
    var x := a + 2 * b + 4 * c + 8 * d;
    DivByParts(x, b + 2 * c + 4 * d, a, 2);
    DivByParts(x / 2, c + 2 * d, b, 2);
    DivByParts(x, c + 2 * d, a + 2 * b, 4);
    DivByParts(x / 4, d, c, 2);
    DivByParts(x, d, a + 2 * b + 4 * c, 8);
  }

  /** The entry names the frame that is counted for it if and only if the high bits of the permission
      are bits of the frame number. */
  lemma NamesItsFrameExactly(pp: int, perm: int)
    requires 0 <= pp < MAXPAGES && 0 <= perm < TWO32
    ensures Fits(pp, perm) <==> HwFrame(EntryWord(pp, perm)) == pp
  {
    hide EntryWord, TestBit, OrBits;
    var w, a := EntryWord(pp, perm), AddrPte(Page2Pa(pp));
    AddrBits(pp, 0);
    EntryBits(pp, perm, 0);
    if Fits(pp, perm) {
      FittingEntry(pp, perm);
      PteRoundTrip(pp, perm % 1024);
      LowBit(perm % 1024, 0);
      assert w == a + Or(perm % 1024, PTE_V);
    } else {
      var k: nat :| 10 <= k < 32 && TestBit(perm, k) && !TestBit(a, k);
      EntryBits(pp, perm, k);
      HighBits(w, k);
      HighBits(a, k);
    }
  }

  /** Permissions within the low ten bits fit every frame. */
  lemma FlagsFit(pp: int, perm: int)
    requires 0 <= perm < 1024
    ensures Fits(pp, perm)
  {
    forall k: nat | 10 <= k ensures !TestBit(perm, k) {
      HighBits(perm, k);
      ZeroHasNoBits(k - 10);
    }
  }

  /** Frame and flags that the kernel reads back from an entry made by page_insert. */
  function Stored(pp: int, perm: int): (int, int) {
    (PteFrame(EntryWord(pp, InsertPerm(perm))), PteFlags(EntryWord(pp, InsertPerm(perm))))
  }

  lemma StoredFits(pp: int, perm: int)
    requires 0 <= pp < MAXPAGES && 0 <= perm < TWO32
    ensures Fits(pp, perm) <==> Fits(pp, InsertPerm(perm))
    ensures Fits(pp, perm) ==> Stored(pp, perm) == (pp, Or(InsertPerm(perm % 1024), PTE_V))
    ensures Stored(pp, perm).1 == Or(InsertPerm(perm % 1024), PTE_V)
  {
    hide EntryWord, InsertPerm, PteFrame, PteFlags;
    var p := InsertPerm(perm);
    StoredPerm(perm);
    SameHighBitsFit(pp, perm, p);
    EntryFlags(pp, p);
    if Fits(pp, p) {
      FittingEntry(pp, p);
      PteRoundTrip(pp, p % 1024);
    }
  }

  lemma EvenPlusOne(n: nat, k: nat)
    requires n % 2 == 0
    ensures TestBit(n + 1, k) <==> k == 0 || TestBit(n, k)
  {
    assert (n + 1) / 2 == n / 2;
  }

  /** With bit 10 of the permission set, an even page number is moved to the next one. */
  lemma NextFrameNamed(pp: int, perm: int)
    requires 0 <= pp < MAXPAGES - 1 && pp % 2 == 0 && 0 <= perm < 1024
    ensures EntryWord(pp, perm + 1024) == MakePte(pp + 1, perm) && !Fits(pp, perm + 1024)
  {
    hide EntryWord, MakePte, Page2Pa, AddrPte, TestBit, OrBits;
    var w, v := EntryWord(pp, perm + 1024), MakePte(pp + 1, perm);
    EntryBits(pp, perm + 1024, 0);
    MadeBits(pp + 1, perm, 0);
    forall k: nat | k < 32 ensures TestBit(w, k) <==> TestBit(v, k) {
      EntryBits(pp, perm + 1024, k);
      MadeBits(pp + 1, perm, k);
      NextAddr(pp, k);
      BitTen(perm, k);
    }
    WordsDiffer(w, v);
    NamesItsFrameExactly(pp, perm + 1024);
    PteRoundTrip(pp + 1, perm);
  }

  lemma BitTen(perm: int, k: nat)
    requires 0 <= perm < 1024
    ensures TestBit(perm + 1024, k) <==> k == 10 || TestBit(perm, k)
  {
    HighBits(perm + 1024, k);
    HighBits(perm, k);
    if k >= 10 {
      ZeroHasNoBits(k - 10);
      OneHasBit(k - 10);
    }
    hide TestBit;
    DivByParts(perm + 1024, 1, perm, 1024);
    DivByParts(perm, 0, perm, 1024);
  }

  lemma NextAddr(pp: int, k: nat)
    requires 0 <= pp < MAXPAGES - 1 && pp % 2 == 0
    ensures TestBit(AddrPte(Page2Pa(pp + 1)), k) <==> k == 10 || TestBit(AddrPte(Page2Pa(pp)), k)
  {
    AddrBits(pp, k);
    AddrBits(pp + 1, k);
    HighBits(AddrPte(Page2Pa(pp)), k);
    HighBits(AddrPte(Page2Pa(pp + 1)), k);
    if k >= 10 { EvenPlusOne(pp + KERNBASE / BY2PG, k - 10); }
  }

  lemma SameHighBitsFit(pp: int, p: int, q: int)
    requires 0 <= p && 0 <= q && p / 1024 == q / 1024
    ensures Fits(pp, p) <==> Fits(pp, q)
  {
    forall k: nat | 10 <= k ensures TestBit(p, k) <==> TestBit(q, k) {
      HighBits(p, k);
      HighBits(q, k);
    }
  }

  /** A flag of a word is a flag of its low ten bits. */
  lemma LowFlags(h: int, q: int)
    requires 0 <= q < 1024
    ensures var w := 1024 * h + q; HasR(w) == HasR(q) && HasW(w) == HasW(q) && HasU(w) == HasU(q)
  {
    var w := 1024 * h + q;
    DivByParts(w, 512 * h + q / 2, q % 2, 2);
    DivByParts(512 * h + q / 2, 256 * h + q / 4, q / 2 % 2, 2);
    DivByParts(w, 256 * h + q / 4, q % 4, 4);
    DivByParts(256 * h + q / 4, 128 * h + q / 8, q / 4 % 2, 2);
    DivByParts(w, 64 * h + q / 16, q % 16, 16);
    DivByParts(64 * h + q / 16, 32 * h + q / 32, q / 16 % 2, 2);
  }

  lemma FlagInRange(q: int, bit: int)
    requires 0 <= q < 1024 && (bit == PTE_R || bit == PTE_U)
    ensures 0 <= Or(q, bit) < 1024
  {}

  /** Setting a flag changes the low ten bits as it changes them alone, and no other bit. */
  lemma FlagSet(perm: int, bit: int)
    requires 0 <= perm < TWO32 && (bit == PTE_R || bit == PTE_U)
    ensures 0 <= Or(perm, bit) < TWO32 && Or(perm, bit) / 1024 == perm / 1024
    ensures Or(perm, bit) % 1024 == Or(perm % 1024, bit)
  {
    hide HasR, HasW, HasU;
    var h, q := perm / 1024, perm % 1024;
    assert (perm / bit % 2 == 1) == (q / bit % 2 == 1) by { LowFlagIs(h, q, bit); }
    FlagInRange(q, bit);
    assert Or(perm, bit) == 1024 * h + Or(q, bit);
    DivByParts(Or(perm, bit), h, Or(q, bit), 1024);
    assert h < 0x40_0000;
  }

  lemma LowFlagIs(h: int, q: int, bit: int)
    requires 0 <= q < 1024 && (bit == PTE_R || bit == PTE_U)
    ensures ((1024 * h + q) / bit % 2 == 1) == (q / bit % 2 == 1)
  {
    LowFlags(h, q);
    assert bit == PTE_R ==> HasR(1024 * h + q) == HasR(q);
    assert bit == PTE_U ==> HasU(1024 * h + q) == HasU(q);
  }

  /** The permission that page_insert stores. */
  lemma StoredPerm(perm: int)
    requires 0 <= perm < TWO32
    ensures 0 <= InsertPerm(perm) < TWO32 && InsertPerm(perm) / 1024 == perm / 1024
    ensures InsertPerm(perm) % 1024 == InsertPerm(perm % 1024)
  {
    FlagSet(perm, PTE_R);
    LowFlags(perm / 1024, perm % 1024);
    hide Or, HasW, HasR, HasU;
    assert perm == 1024 * (perm / 1024) + perm % 1024;
  }
}
