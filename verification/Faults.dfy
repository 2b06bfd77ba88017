/** Page faults, said of the access that faulted: which faults go to the copy-on-write handler, which get a
    page, and that an access passes once its fault has been answered with a mapping. */
module Faults {
  import opened Sv32
  import opened PageTables
  import opened Pmap
  import opened SelfMap

  const LOAD := 13
  const STORE := 15

  /** The addresses at which a fault of that cause gets a page: a store anywhere from UTEMP to UTOP but for
      the page above the stack, a load only below the stack top. */
  predicate GetsPage(va: int, cause: int) {
    (cause == STORE && 0x3F_E000 <= va < 0x7F40_0000 && !(0x7F3F_E000 <= va < 0x7F3F_F000)) ||
    (cause == LOAD && 0x3F_E000 <= va < 0x7F3F_E000)
  }

  /** Copy-on-write is bit 8 of an entry, and only stores are handed on. */
  lemma HandlerOnlyForCowStores(cause: int, flags: int)
    ensures Exists(cause, flags) == ToCowHandler <==> cause == STORE && flags / 0x100 % 2 == 1
    ensures Exists(cause, flags) != Mapped
  {}

  lemma FillsExactly(va: int, cause: int)
    requires 0 <= va < UTOP
    ensures MayFill(va / BY2PG * BY2PG, cause) <==> GetsPage(va, cause)
  {
    SamePage(va);
    DivByParts(va, va / BY2PG, va % BY2PG, BY2PG);
  }

  /** A page that has just been filled passes loads and stores of its environment. */
  lemma FilledPasses(s: Mmu, e: int, va: int, f: int)
    requires Inv(s) && e in s.dir && 0 <= va < UTOP && Vpn(va) in PageMap(s, e) && PageMap(s, e)[Vpn(va)] == (f, 23)
    ensures UserStores(s, s.dir[e], va, f) && UserLoads(s, s.dir[e], va, Word(s, f, va % BY2PG / 4))
  {
    WalkIsPageMap(s, e, va);
    VaParts(va);
    DivByParts(Vpn(va), Pdx(va), Ptx(va), 1024);
    var w := LeafWord(s, e, Pdx(va), Ptx(va));
    assert LeafOf(e, Vpn(va)) == LeafUse(e, Pdx(va), Ptx(va)) && PteFlags(w) == 23;
    EntryIsWord(s, e, Pdx(va), Ptx(va));
    FlagsOf23(w);
  }

  lemma EntryIsWord(s: Mmu, e: int, i: int, j: int)
    requires Inv(s) && e in s.dir
    ensures LeafWord(s, e, i, j) >= 0
  {
    var f := TableOf(s, e, i);
    assert 0 <= f < |s.mem| ==> IsFrame(s.mem[f]);
  }

  lemma FlagsOf23(w: int)
    requires 0 <= w && PteFlags(w) == 23
    ensures PteValid(w) && HasR(w) && HasW(w) && HasU(w) && !HasX(w)
  {
    var h := w / 1024;
    DivByParts(w, 512 * h + 11, 1, 2);
    DivByParts(512 * h + 11, 256 * h + 5, 1, 2);
    DivByParts(w, 256 * h + 5, 3, 4);
    DivByParts(256 * h + 5, 128 * h + 2, 1, 2);
    DivByParts(w, 128 * h + 2, 7, 8);
    DivByParts(w, 64 * h + 1, 7, 16);
    DivByParts(64 * h + 1, 32 * h, 1, 2);
  }

  /** do_tlb_miss below UTOP. */
  method UserFault(k: Kernel, va: int, cause: int, e: int) returns (r: Miss)
    requires k.Valid() && e in k.dir && 0 <= va < UTOP
    modifies k`free, k`held, k`copy, k`boot, k.mem, k.ref
    ensures k.Valid() && k.dir == old(k.dir)
    ensures Vpn(va) in old(PageMap(k.View(), e)) ==> k.View() == old(k.View()) && r != Mapped
    ensures r == ToCowHandler <==>
      cause == STORE && Vpn(va) in old(PageMap(k.View(), e)) && old(PageMap(k.View(), e))[Vpn(va)].1 / 0x100 % 2 == 1
    ensures r == Mapped <==>
      Vpn(va) !in old(PageMap(k.View(), e)) && GetsPage(va, cause) && old(k.free) != [] &&
      (old(PteValid(DirWord(k.View(), e, Pdx(va)))) || |old(k.free)| > 1)
    ensures r == Mapped ==>
      var f := old(k.free)[0];
      UserStores(k.View(), k.dir[e], va, f) && UserLoads(k.View(), k.dir[e], va, 0) && f !in old(Named(k.View()))
    ensures r == Mapped ==> PageMap(k.View(), e) == old(PageMap(k.View(), e))[Vpn(va) := (old(k.free)[0], 23)]
    ensures r == Mapped ==>
      var f := old(k.free)[0];
      0 <= f < k.npage && k.mem[f] == ZeroFrame() && FramesKept(old(k.View()), k.View(), e, va / BY2PG * BY2PG)
    ensures r != Mapped ==> PageMap(k.View(), e) == old(PageMap(k.View(), e))
    ensures forall e' :: e' != e ==> PageMap(k.View(), e') == old(PageMap(k.View(), e'))
  {
    hide Inv, PageMap, FramesKept, Named, DirWord;
    ghost var s := k.View();
    SamePage(va);
    FillsExactly(va, cause);
    RoomIsTheSame(s, e, va);
    r := k.DoTlbMiss(va, cause, e, None);
    if r == Mapped {
      FilledPasses(k.View(), e, va, s.free[0]);
    }
  }

  lemma RoomIsTheSame(s: Mmu, e: int, va: int)
    requires e in s.dir && 0 <= va < UTOP
    ensures HasRoom(s, e, va / BY2PG * BY2PG) <==> s.free != [] && (PteValid(DirWord(s, e, Pdx(va))) || |s.free| > 1)
  {
    DivByParts(va / BY2PG * BY2PG, Pdx(va), va % PDMAP / BY2PG * BY2PG, PDMAP);
  }

  /** What becomes of a fault in the region of the self-map. */
  lemma SelfFaultDecided(s: Mmu, t: Mmu, e: int, a: int, cause: int, r: Miss)
    requires SelfMiss(s, t, e, a, cause, r)
    ensures e in s.dir && e in t.dir
    ensures SelfFound(s, e, Ptx(a)) ==>
      t == s && r == if cause == STORE && Word(s, s.copy[e], Ptx(a)) % 1024 / 0x100 % 2 == 1 then ToCowHandler else Panics
    ensures !SelfFound(s, e, Ptx(a)) && cause == STORE ==>
      (r == Mapped <==> |s.free| >= if PteValid(DirWord(s, e, 511)) then 1 else 2) && r != ToCowHandler
    ensures !SelfFound(s, e, Ptx(a)) && cause == LOAD ==>
      (r == Mapped <==> (e in s.copy || s.free != []) && PteValid(DirWord(t, e, (a - UVPT) / BY2PG))) && r != ToCowHandler
    ensures !SelfFound(s, e, Ptx(a)) && cause != STORE && cause != LOAD ==> t == s && r == Panics
  {
    hide SameUses, Taken, Unnamed;
  }

  /** The frames that an answered store to the self-map strands: counted, and named by no entry. */
  lemma StrandedAreLost(s: Mmu, t: Mmu, e: int, k: nat)
    requires Strands(s, t, e, true) && |s.ref| == |t.ref| && k < |s.free| && (k == 0 || (k == 1 && !PteValid(DirWord(s, e, 511))))
    requires 0 <= s.free[k] < |s.ref|
    ensures t.ref[s.free[k]] == s.ref[s.free[k]] + 1 && forall u :: Live(t, u) ==> Target(t, u) != s.free[k]
  {
    hide SameUses;
    var n := if PteValid(DirWord(s, e, PDX_UVPT)) then 1 else 2;
    assert s.free[..n][k] == s.free[k] && s.free[k] in s.free[..n];
  }

  /** A load of the self-map that the kernel has answered passes. */
  lemma AnsweredSelfLoadPasses(s: Mmu, t: Mmu, e: int, va: int)
    requires Inv(t) && e in s.dir && e in t.dir && UVPT <= va < ULIM && va % 4 == 0
    requires SelfMiss(s, t, e, va / BY2PG * BY2PG, LOAD, Mapped)
    ensures exists w :: UserLoads(t, t.dir[e], va, w)
  {
    var vpn := (va - UVPT) / 4;
    var i := (va / BY2PG * BY2PG - UVPT) / BY2PG;
    SelfPage(va);
    assert VptAddr(vpn) == va && vpn / NPTE == i;
    if i == PDX_UVPT {
      VpdReadsLiveDirectory(t, e, vpn % NPTE);
      assert VpdAddr(vpn % NPTE) == va;
    } else {
      SelfMapWalk(t, e, vpn);
    }
  }

  lemma SelfPage(va: int)
    requires UVPT <= va < ULIM && va % 4 == 0
    ensures var vpn := (va - UVPT) / 4; var i := (va / BY2PG * BY2PG - UVPT) / BY2PG;
            0 <= vpn < NPTE * NPTE && UVPT + 4 * vpn == va && vpn / NPTE == i && vpn == i * NPTE + vpn % NPTE && i < NPTE
  {
    var vpn := (va - UVPT) / 4;
    var q := va / BY2PG;
    DivByParts(va / BY2PG * BY2PG - UVPT, q - UVPT / BY2PG, 0, BY2PG);
    DivByParts(vpn, q - UVPT / BY2PG, (va - q * BY2PG) / 4, NPTE);
  }
}
