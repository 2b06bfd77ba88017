/** What user code sees: the Sv32 walk of section 4.3 over the tables of PageTables, and the view of
    the tables themselves through `vpt` and `vpd` (user/include/lib.h). */
module SelfMap {
  import opened Sv32
  import opened PageTables
  import opened PageSteps

  datatype Walk =
    | Fault
    | Mega(entry: int)               // leaf in the directory: a 4 MiB page
    | Page(frame: int, entry: int)   // leaf in a table

  /** The hardware walk from directory frame `root`, before the permission check. An entry without R
      and X is a pointer, W without R is reserved, and a pointer in a table is a fault. */
  ghost function HwWalk(s: Mmu, root: int, va: int): Walk {
    var w1 := Word(s, root, Pdx(va));
    if !PteValid(w1) || (HasW(w1) && !HasR(w1)) then Fault
    else if HasR(w1) || HasX(w1) then Mega(w1)
    else
      var w0 := Word(s, HwFrame(w1), Ptx(va));
      if !PteValid(w0) || (HasW(w0) && !HasR(w0)) || !(HasR(w0) || HasX(w0)) then Fault
      else Page(HwFrame(w0), w0)
  }

  /** What a user-mode load of the word at `va` returns, if it is allowed. */
  ghost predicate UserLoads(s: Mmu, root: int, va: int, w: int) {
    HwWalk(s, root, va).Page? && HasR(HwWalk(s, root, va).entry) && HasU(HwWalk(s, root, va).entry) &&
    w == Word(s, HwWalk(s, root, va).frame, va % BY2PG / 4)
  }

  /** `va2pa` of include/pmap.h; -1 stands for ~0. */
  function Va2Pa(dirWord: int, tableWord: int): int {
    if !PteValid(dirWord) then -1 else if !PteValid(tableWord) then -1 else PteAddr(tableWord)
  }

  /** Below UTOP the hardware, va2pa and the abstract page map agree on every address. */
  lemma WalkIsPageMap(s: Mmu, e: int, va: int)
    requires Inv(s) && e in s.dir && 0 <= va < UTOP
    ensures Vpn(va) in PageMap(s, e) <==> Va2Pa(DirWord(s, e, Pdx(va)), LeafWord(s, e, Pdx(va), Ptx(va))) != -1
    ensures Vpn(va) in PageMap(s, e) ==>
      Pa2Page(Va2Pa(DirWord(s, e, Pdx(va)), LeafWord(s, e, Pdx(va), Ptx(va)))) == PageMap(s, e)[Vpn(va)].0
    ensures HwWalk(s, s.dir[e], va) ==
      if Vpn(va) in PageMap(s, e) && LeafPermitted(LeafWord(s, e, Pdx(va), Ptx(va)))
      then Page(PageMap(s, e)[Vpn(va)].0, LeafWord(s, e, Pdx(va), Ptx(va)))
      else Fault
  {
    VaParts(va);
    DivByParts(Vpn(va), Pdx(va), Ptx(va), 1024);
    assert LeafOf(e, Vpn(va)) == LeafUse(e, Pdx(va), Ptx(va));
    hide Inv, Live, UsesOf;
    EntriesBelow(s, e, Pdx(va), Ptx(va));
    LiveLeaf(s, e, Pdx(va), Ptx(va));
  }

  lemma LiveLeaf(s: Mmu, e: int, i: int, j: int)
    requires e in s.dir && 0 <= i < PDX_UTOP && 0 <= j < NPTE
    ensures Live(s, LeafUse(e, i, j)) <==> PteValid(DirWord(s, e, i)) && PteValid(LeafWord(s, e, i, j))
    ensures Live(s, LeafUse(e, i, j)) ==> Target(s, LeafUse(e, i, j)) == PteFrame(LeafWord(s, e, i, j))
  {}

  /** What the hardware makes of the entries below UTOP. */
  lemma EntriesBelow(s: Mmu, e: int, i: int, j: int)
    requires Inv(s) && e in s.dir && 0 <= i < PDX_UTOP && 0 <= j < NPTE
    ensures var w := DirWord(s, e, i);
            PteValid(w) ==> !HasR(w) && !HasW(w) && !HasX(w) && HwFrame(w) == PteFrame(w) == TableOf(s, e, i)
    ensures var w := LeafWord(s, e, i, j); Live(s, LeafUse(e, i, j)) ==> HwFrame(w) == PteFrame(w)
  {
    hide Sole, Counted, Partitioned, SelfMapped, UsesOf;
    var w1, w0 := DirWord(s, e, i), LeafWord(s, e, i, j);
    if PteValid(w1) {
      assert Live(s, TableUse(e, i)) && Target(s, TableUse(e, i)) == PteFrame(w1) && SoundEntry(s, TableUse(e, i));
      PointerBits(w1);
      FrameOfSmall(w1);
      if PteValid(w0) {
        assert Live(s, LeafUse(e, i, j)) && Target(s, LeafUse(e, i, j)) == PteFrame(w0) && SoundEntry(s, LeafUse(e, i, j));
        FrameOfSmall(w0);
      }
    }
  }

  ghost predicate LeafPermitted(w: int) {
    (HasW(w) ==> HasR(w)) && (HasR(w) || HasX(w))
  }

  lemma PointerBits(w: int)
    requires PteFlags(w) == PTE_V && 0 <= w
    ensures PteValid(w) && !HasR(w) && !HasW(w) && !HasX(w)
  {
    var q := w / 1024;
    DivByParts(w, 512 * q, 1, 2);
    DivByParts(w, 256 * q, 1, 4);
    DivByParts(w, 128 * q, 1, 8);
  }

  /** `vpt[vpn]` for a page number: the address at which user code reads the entry of page `vpn`. */
  function VptAddr(vpn: int): int { UVPT + 4 * vpn }

  /** `vpd[i]`. */
  function VpdAddr(i: int): int { UVPT + PDX_UVPT * BY2PG + 4 * i }

  lemma VptParts(vpn: int)
    requires 0 <= vpn < NPTE * NPTE
    ensures Pdx(VptAddr(vpn)) == PDX_UVPT && Ptx(VptAddr(vpn)) == vpn / NPTE
    ensures VptAddr(vpn) % BY2PG / 4 == vpn % NPTE
  {
    var q, r := vpn / 1024, vpn % 1024;
    var va := VptAddr(vpn);
    assert va == PDMAP * 511 + (4096 * q + 4 * r);
    DivByParts(va, 511, 4096 * q + 4 * r, PDMAP);
    DivByParts(va, 1024 * 511 + q, 4 * r, BY2PG);
    DivByParts(1024 * 511 + q, 511, q, 1024);
    DivByParts(4 * r, r, 0, 4);
  }

  /** The heart of the self-map: with the UVPT entry valid, a walk to UVPT + 4 * vpn ends in the very
      frame that the live directory names for `vpn`, readable by user code, and writable only if the
      live entry is. */
  lemma SelfMapWalk(s: Mmu, e: int, vpn: int)
    requires Inv(s) && e in s.dir && 0 <= vpn < NPTE * NPTE
    requires PteValid(DirWord(s, e, PDX_UVPT))
    requires vpn / NPTE != PDX_UVPT
    ensures PteValid(DirWord(s, e, vpn / NPTE)) ==>
      UserLoads(s, s.dir[e], VptAddr(vpn), Word(s, HwFrame(DirWord(s, e, vpn / NPTE)), vpn % NPTE)) &&
      HasW(HwWalk(s, s.dir[e], VptAddr(vpn)).entry) == HasW(DirWord(s, e, vpn / NPTE))
    ensures !PteValid(DirWord(s, e, vpn / NPTE)) ==> HwWalk(s, s.dir[e], VptAddr(vpn)) == Fault
  {
    VptParts(vpn);
    SelfMapPointer(s, e);
    assert EntryAgrees(Word(s, s.copy[e], vpn / NPTE), DirWord(s, e, vpn / NPTE));
  }

  /** The UVPT directory entry is a pointer to the copy frame. */
  lemma SelfMapPointer(s: Mmu, e: int)
    requires Inv(s) && e in s.dir && PteValid(DirWord(s, e, PDX_UVPT))
    ensures e in s.copy && HwFrame(DirWord(s, e, PDX_UVPT)) == s.copy[e]
    ensures var w := DirWord(s, e, PDX_UVPT); PteValid(w) && !HasR(w) && !HasW(w) && !HasX(w)
  {
    assert SelfMapped(s, e);
    assert Live(s, CopyUse(e)) && 0 <= Target(s, CopyUse(e)) < |s.mem|;
    PteRoundTrip(s.copy[e], 0);
    PointerBits(DirWord(s, e, PDX_UVPT));
  }

  /** Reading `vpt[vpn]` for a page below UTOP whose table exists gives the entry that pgdir_walk finds;
      where no table exists the load faults, which is why user code looks at `vpd` first. */
  lemma VptReadsLiveEntry(s: Mmu, e: int, vpn: int)
    requires Inv(s) && e in s.dir && 0 <= vpn < PDX_UTOP * NPTE
    requires PteValid(DirWord(s, e, PDX_UVPT))
    ensures Live(s, TableUse(e, vpn / NPTE)) ==>
      UserLoads(s, s.dir[e], VptAddr(vpn), LeafWord(s, e, vpn / NPTE, vpn % NPTE))
    ensures !Live(s, TableUse(e, vpn / NPTE)) ==> HwWalk(s, s.dir[e], VptAddr(vpn)) == Fault
  {
    assert vpn / NPTE < PDX_UTOP;
    SelfMapWalk(s, e, vpn);
    EntriesBelow(s, e, vpn / NPTE, vpn % NPTE);
  }

  /** Reading `vpd[i]` reads entry i of the live directory, not of the copy. */
  lemma VpdReadsLiveDirectory(s: Mmu, e: int, i: int)
    requires Inv(s) && e in s.dir && 0 <= i < NPTE && PteValid(DirWord(s, e, PDX_UVPT))
    ensures UserLoads(s, s.dir[e], VpdAddr(i), DirWord(s, e, i))
  {
    var vpn := PDX_UVPT * NPTE + i;
    DivByParts(vpn, PDX_UVPT, i, NPTE);
    VptParts(vpn);
    assert VptAddr(vpn) == VpdAddr(i);
    SelfMapPointer(s, e);
    assert Live(s, DirUse(e)) && 0 <= Target(s, DirUse(e)) < |s.mem|;
    PteRoundTrip(s.dir[e], 0);
  }

  /** A user-mode store that the hardware lets pass, and the frame that it changes. */
  ghost predicate UserStores(s: Mmu, root: int, va: int, f: int) {
    var w := HwWalk(s, root, va);
    w.Page? && HasW(w.entry) && HasU(w.entry) && w.frame == f
  }

  /** Stores of user code below UTOP reach frames that page_insert may map: never a directory, a directory
      copy or a table, and no free frame. Of the self-map they reach only what SelfMapStoresExactly says. */
  lemma StoresReachDataFrames(s: Mmu, e: int, va: int, f: int)
    requires Inv(s) && e in s.dir && (0 <= va < UTOP || UVPT <= va < ULIM)
    requires UserStores(s, s.dir[e], va, f)
    ensures va < UTOP ==> Insertable(s, f) && s.ref[f] >= 1
    ensures va >= UVPT ==> PDX_UTOP <= (va - UVPT) / BY2PG && HasW(DirWord(s, e, (va - UVPT) / BY2PG))
  {
    if va < UTOP {
      WalkIsPageMap(s, e, va);
      VaParts(va);
      DivByParts(Vpn(va), Pdx(va), Ptx(va), 1024);
      assert Live(s, LeafUse(e, Pdx(va), Ptx(va))) && Target(s, LeafUse(e, Pdx(va), Ptx(va))) == f;
      LiveIsCounted(s, LeafUse(e, Pdx(va), Ptx(va)));
    } else {
      SelfMapStoresExactly(s, e, va);
      var i := (va - UVPT) / BY2PG;
      if i < PDX_UTOP { EntriesBelow(s, e, i, 0); }
    }
  }

  /** A user store into the self-map passes if and only if the live directory entry of that page is valid
      and has the write bit; the entry of the self-map itself never has it. */
  lemma SelfMapStoresExactly(s: Mmu, e: int, va: int)
    requires Inv(s) && e in s.dir && UVPT <= va < ULIM
    ensures var i := (va - UVPT) / BY2PG;
            (exists f :: UserStores(s, s.dir[e], va, f)) <==>
              PteValid(DirWord(s, e, PDX_UVPT)) && i != PDX_UVPT && PteValid(DirWord(s, e, i)) && HasW(DirWord(s, e, i))
  {
    var i := (va - UVPT) / BY2PG;
    DivByParts(va, PDX_UVPT, va - UVPT, PDMAP);
    DivByParts(va, 1024 * PDX_UVPT + i, (va - UVPT) % BY2PG, BY2PG);
    DivByParts(1024 * PDX_UVPT + i, PDX_UVPT, i, 1024);
    if PteValid(DirWord(s, e, PDX_UVPT)) {
      SelfMapPointer(s, e);
      SelfEntryReadOnly(s, e);
      assert i != PDX_UVPT ==> EntryAgrees(Word(s, s.copy[e], i), DirWord(s, e, i));
      var w := HwWalk(s, s.dir[e], va);
      assert PteValid(Word(s, s.copy[e], i)) ==> w == Page(HwFrame(Word(s, s.copy[e], i)), Word(s, s.copy[e], i));
      assert w.Page? && HasW(w.entry) ==> UserStores(s, s.dir[e], va, w.frame);
    }
  }

  lemma SelfEntryReadOnly(s: Mmu, e: int)
    requires Inv(s) && e in s.dir && PteValid(DirWord(s, e, PDX_UVPT))
    ensures e in s.copy && var w := Word(s, s.copy[e], PDX_UVPT); PteValid(w) && HasR(w) && HasU(w) && !HasW(w)
  {
    hide Sole, Counted, Partitioned, SoundEntry;
    assert SelfMapped(s, e);
    assert Live(s, DirUse(e)) && 0 <= Target(s, DirUse(e)) < |s.mem|;
    hide InRange, Inv;
    PteRoundTrip(s.dir[e], 0);
    PointerBits(MakePte(s.dir[e], 0));
  }

  /** So when the directory has no write bit from UTOP on, as with pure pointers to tables, no user store
      passes through the self-map at all. */
  lemma NoStoreIntoSelfMap(s: Mmu, e: int, va: int, f: int)
    requires Inv(s) && e in s.dir && UVPT <= va < ULIM
    requires forall i :: PDX_UTOP <= i < NPTE && i != PDX_UVPT ==> PteValid(DirWord(s, e, i)) ==> !HasW(DirWord(s, e, i))
    ensures !UserStores(s, s.dir[e], va, f)
  {
    var i := (va - UVPT) / BY2PG;
    SelfMapStoresExactly(s, e, va);
    if i < PDX_UTOP { EntriesBelow(s, e, i, 0); }
  }
}
