/** Address arithmetic of the kernel (include/mmu.h, include/pmap.h): 32-bit virtual and physical
    addresses, page-table entries, and the Sv32 walk that the hardware performs
    (RISC-V Privileged Architecture 1.12, section 4.3). */
module Sv32 {
  const TWO32 := 0x1_0000_0000
  const BY2PG := 4096
  const PDMAP := 0x40_0000
  const KERNBASE := 0x8020_0000
  const ULIM := 0x8000_0000
  const UVPT := 0x7fc0_0000
  const UTOP := 0x7f40_0000
  const USTACKTOP := 0x7f3f_e000
  const UTEMP := 0x3f_e000
  const UCOW := 0x3f_f000
  const PDX_UTOP := 509
  const PDX_UVPT := 511
  const NPTE := 1024

  // The largest page count for which every frame has a 32-bit physical address.
  const MAXPAGES := 0x7_fe00

  /** Entries from here on hold an address of more than 32 bits. */
  const PTE_LIMIT := 0x4000_0000

  const PTE_V := 0x001
  const PTE_R := 0x002
  const PTE_W := 0x004
  const PTE_X := 0x008
  const PTE_U := 0x010

  /** One 4096-byte frame seen as 1024 words. */
  type Frame = seq<int>

  ghost predicate IsFrame(f: Frame) {
    |f| == NPTE && forall i :: 0 <= i < NPTE ==> 0 <= f[i] < TWO32
  }

  function Pdx(va: int): int { va / PDMAP % 1024 }
  function Ptx(va: int): int { va / BY2PG % 1024 }
  function Vpn(va: int): int { va / BY2PG }

  function Page2Pa(pp: int): int { (pp + KERNBASE / BY2PG) * BY2PG }

  /** `pa2page`: the subtraction wraps in 32 bits; a result of npage or more makes the kernel panic. */
  function Pa2Page(pa: int): int { (pa - KERNBASE) % TWO32 / BY2PG }

  function AddrPte(pa: int): int { pa / BY2PG * 1024 }

  /** `(pte & ~0x3FF) << 2` in 32 bits. */
  function PteAddr(pte: int): int { pte / 1024 * 1024 * 4 % TWO32 }

  function PteFlags(pte: int): int { pte % 1024 }
  predicate PteValid(pte: int) { pte % 2 == 1 }
  predicate HasR(pte: int) { pte / 2 % 2 == 1 }
  predicate HasW(pte: int) { pte / 4 % 2 == 1 }
  predicate HasX(pte: int) { pte / 8 % 2 == 1 }
  predicate HasU(pte: int) { pte / 16 % 2 == 1 }

  /** The frame number that an entry names. */
  function PteFrame(pte: int): int { Pa2Page(PteAddr(pte)) }

  /** The frame that the hardware finds there: its physical addresses have 34 bits, and it has no
      subtraction to wrap. */
  function HwFrame(pte: int): int { pte / 1024 - KERNBASE / BY2PG }

  /** Kernel and hardware agree on entries whose address has 32 bits. */
  lemma FrameOfSmall(w: int)
    requires 0 <= w < PTE_LIMIT
    ensures PteFrame(w) < MAXPAGES ==> HwFrame(w) == PteFrame(w)
  {
    var n := w / 1024;
    assert PteAddr(w) == n * 4096;
    if n >= KERNBASE / BY2PG {
      assert PteFrame(w) == n - KERNBASE / BY2PG;
    } else {
      assert PteFrame(w) == n + 0x7fe00;
    }
  }

  /** `w | bit` for a single bit. */
  function Or(w: int, bit: int): int
    requires bit > 0
  {
    if w / bit % 2 == 1 then w else w + bit
  }

  /** `ADDR_PTE(page2pa(pp)) | perm | PTE_V`. */
  function MakePte(pp: int, perm: int): int { AddrPte(Page2Pa(pp)) + Or(perm, PTE_V) }

  /** Permissions that `page_insert` stores: a writable page is also readable. */
  function InsertPerm(perm: int): int {
    if HasW(perm) then Or(perm, PTE_R) else perm
  }

  /** Decoding an entry gives back the frame and the permission bits it was built from. */
  lemma PteRoundTrip(pp: int, perm: int)
    requires 0 <= pp < MAXPAGES && 0 <= perm < 1024
    ensures var w := MakePte(pp, perm);
            0 <= w < PTE_LIMIT && PteValid(w) && PteFrame(w) == HwFrame(w) == pp && PteAddr(w) == Page2Pa(pp) &&
            PteFlags(w) == Or(perm, PTE_V)
  {
    var fl := Or(perm, PTE_V);
    var ppn := pp + KERNBASE / BY2PG;
    assert Page2Pa(pp) / BY2PG == ppn;
    var w := ppn * 1024 + fl;
    assert MakePte(pp, perm) == w;
    assert w / 1024 == ppn && w % 1024 == fl;
    assert PteAddr(w) == ppn * 4096;
    assert w % 2 == fl % 2;
  }

  /** A user virtual address is determined by its two indices and its offset. */
  lemma VaParts(va: int)
    requires 0 <= va < TWO32
    ensures Vpn(va) == Pdx(va) * 1024 + Ptx(va)
    ensures va < UTOP <==> Pdx(va) < PDX_UTOP
  {
    var v := va / BY2PG;
    assert va / PDMAP == v / 1024;
    assert v / 1024 < 1024;
  }

  // ---------- setting a bit of a word ----------

  lemma DivByParts(w: int, q: int, r: int, m: int)
    requires m > 0 && w == m * q + r && 0 <= r < m
    ensures w / m == q && w % m == r
  {
    var d := q - w / m;
    assert m * d == m * q - m * (w / m) == w % m - r;
    assert d >= 1 ==> m * d >= m;
    assert d <= -1 ==> m * d <= -m;
  }

  /** A word whose bit `bit` is clear splits around that bit. */
  lemma ClearBitParts(w: int, bit: int) returns (k: int, b: int)
    requires w >= 0 && bit > 0 && w / bit % 2 == 0
    ensures w == 2 * bit * k + b && 0 <= b < bit && k >= 0
  {
    b := w % bit;
    k := w / bit / 2;
    assert w / bit == 2 * k;
    assert bit * (2 * k) == 2 * bit * k;
  }

  lemma OrReadableParts(w: int, k: int, b: int)
    requires w == 4 * k + b && 0 <= b < 2
    ensures (w + 2) / 2 == 2 * k + 1 && (w + 2) % 2 == w % 2 && (w + 2) / 4 == w / 4 && (w + 2) / 1024 == w / 1024
  {
    DivByParts(w, k, b, 4);
    DivByParts(w + 2, k, b + 2, 4);
    DivByParts(w + 2, 2 * k + 1, b, 2);
    DivByParts(w, 2 * k, b, 2);
    DivByParts(k, k / 256, k % 256, 256);
    DivByParts(w, k / 256, 4 * (k % 256) + b, 1024);
    DivByParts(w + 2, k / 256, 4 * (k % 256) + b + 2, 1024);
  }

  lemma OrUserParts(w: int, k: int, b: int)
    requires w == 32 * k + b && 0 <= b < 16
    ensures (w + 16) / 16 == 2 * k + 1 && (w + 16) / 2 == w / 2 + 8 && (w + 16) / 4 == w / 4 + 4 && (w + 16) / 1024 == w / 1024
  {
    DivByParts(w + 16, 2 * k + 1, b, 16);
    DivByParts(k, k / 32, k % 32, 32);
    DivByParts(w, k / 32, 32 * (k % 32) + b, 1024);
    DivByParts(w + 16, k / 32, 32 * (k % 32) + b + 16, 1024);
  }

  lemma SameHighPart(w: int, x: int)
    requires 0 <= w < TWO32 && x / 1024 == w / 1024
    ensures 0 <= x < TWO32
  {}

  lemma OrReadable(w: int, x: int)
    requires 0 <= w < TWO32 && PteValid(w) && x == Or(w, PTE_R)
    ensures HasR(x) && PteValid(x) && HasW(x) == HasW(w) && x / 1024 == w / 1024
  {
    if !HasR(w) {
      var k, b := ClearBitParts(w, PTE_R);
      OrReadableParts(w, k, b);
      assert x == w + 2 && x / 2 == 2 * k + 1;
    }
  }

  lemma OrUser(w: int, x: int)
    requires 0 <= w < TWO32 && PteValid(w) && HasR(w) && x == Or(w, PTE_U)
    ensures HasU(x) && HasR(x) && PteValid(x) && HasW(x) == HasW(w) && x / 1024 == w / 1024
  {
    if !HasU(w) {
      var k, b := ClearBitParts(w, PTE_U);
      OrUserParts(w, k, b);
    }
  }
}
