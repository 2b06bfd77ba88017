/** Physical frames, page tables and their life cycle: kern/pmap.c, the memory part of kern/env.c, and
    the directory copy of kern/tlbex.c. An env is named by its slot in `envs`; `dir` and `copy` are
    the env_pgdir and env_pgdir_copy_pa fields of the envs in use. */
module Pmap {
  import opened Sv32
  import opened Counting
  import opened PageTables
  import opened PageSteps
  import opened Entries

  datatype Option<+T> = None | Some(value: T)

  const E_INVAL := 3
  const E_NO_MEM := 4

  const UENVS := UTOP
  const UPAGES := 0x7f80_0000

  predicate IllegalVa(va: int) { va < UTEMP || va >= UTOP }

  class Kernel {
    const npage: int
    const mem: array<Frame>
    const ref: array<int>
    var free: seq<int>
    var dir: map<int, int>
    var copy: map<int, int>
    ghost var held: set<int>
    ghost var boot: seq<int>

    ghost function View(): Mmu
      reads this, mem, ref
    {
      Mmu(mem[..], ref[..], free, dir, copy, held, boot)
    }

    ghost predicate Sized()
      reads this
    {
      mem.Length == ref.Length == npage && 0 <= npage <= MAXPAGES && mem as object != ref as object
    }

    ghost predicate Valid()
      reads this, mem, ref
    {
      Sized() && Inv(View())
    }

    constructor (npages: int, words: array<Frame>, refs: array<int>)
      requires 0 <= npages <= MAXPAGES && words.Length == refs.Length == npages && words as object != refs as object
      ensures Sized() && mem == words && ref == refs && npage == npages
      ensures free == [] && dir == map[] && copy == map[] && held == {}
    {
      npage, mem, ref := npages, words, refs;
      free, dir, copy, held := [], map[], map[], {};
      boot := [];
    }

    /** `page_init`: frames below `freemem` are in use for good, the others go on the free list. The
        counts start at zero, and `freemem`, rounded up, lies within physical memory. */
    method PageInit(freemem: int)
      requires Sized() && dir == map[] && copy == map[] && held == {}
      requires forall f :: 0 <= f < npage ==> ref[f] == 0 && IsFrame(mem[f])
      requires 0 <= freemem <= KERNBASE + npage * BY2PG
      modifies `free, `boot, ref
      ensures Valid()
      ensures forall f :: 0 <= f < npage ==>
        (if KERNBASE + f * BY2PG < freemem then boot[f] == 1 && f !in free else boot[f] == 0 && f in free)
      ensures |free| <= npage && forall n :: 0 <= n < |free| ==> free[n] == npage - 1 - n
    {
      free := [];
      var top := (freemem + BY2PG - 1) / BY2PG * BY2PG;
      boot := seq(npage, f => 0);
      var i := 0;
      while Page2Pa(i) < top
        invariant 0 <= i <= npage && |boot| == npage && free == []
        invariant i > 0 ==> Page2Pa(i - 1) < top
        invariant forall f :: 0 <= f < npage ==> ref[f] == boot[f] == (if f < i then 1 else 0)
        decreases top - Page2Pa(i)
      {
        ref[i] := 1;
        boot := boot[i := 1];
        i := i + 1;
      }
      ghost var k := i;
      while i < npage
        invariant k <= i <= npage
        invariant |free| == i - k && forall n :: 0 <= n < i - k ==> free[n] == i - 1 - n
        invariant |boot| == npage && forall f :: 0 <= f < npage ==> ref[f] == boot[f] == (if f < k then 1 else 0)
      {
        free := [i] + free;
        i := i + 1;
      }
      InitialCore(View(), k);
    }

    /** Frames are zeroed when they are handed out; the caller holds the frame until it refers to it. */
    method PageAlloc() returns (ok: bool, pp: int)
      requires Sized() && Core(View())
      modifies `free, `held, mem
      ensures Sized() && Core(View())
      ensures ok <==> old(free) != []
      ensures !ok ==> View() == old(View())
      ensures ok ==> pp == old(free)[0] && 0 <= pp < npage && View() == AllocFrame(old(View()))
      ensures SameUses(old(View()), View())
    {
      if free == [] {
        return false, -1;
      }
      assert free[0] in free;
      pp := free[0];
      free := free[1..];
      mem[pp] := ZeroFrame();
      held := held + {pp};
      ok := true;
      AllocKeepsCore(old(View()), View());
    }

    method PageFree(pp: int)
      requires Sized() && 0 <= pp < npage && ref[pp] == 0
      modifies `free
      ensures free == [pp] + old(free)
    {
      free := [pp] + free;
    }

    method PageDecref(pp: int)
      requires Sized() && 0 <= pp < npage && ref[pp] > 0
      modifies `free, ref
      ensures View() == Release(old(View()), pp)
    {
      ref[pp] := ref[pp] - 1;
      if ref[pp] == 0 {
        PageFree(pp);
      }
    }

    /** `KADDR(PTE_ADDR(pte))` as a frame number; the kernel's range check cannot fail on a live entry. */
    method FrameAt(pte: int, ghost u: Use) returns (f: int)
      requires Sized() && Core(View()) && Live(View(), u)
      requires Target(View(), u) == PteFrame(pte)
      ensures f == PteFrame(pte) && 0 <= f < npage
    {
      f := Pa2Page(PteAddr(pte));
      assert 0 <= f < npage;  // otherwise: panic
    }

    /** The entry for `va` as (table frame, index). With `create` a missing table is allocated. */
    method PgdirWalk(d: int, va: int, create: bool, ghost e: int) returns (ok: bool, pte: Option<(int, int)>)
      requires Sized() && Core(View()) && e in dir && dir[e] == d && 0 <= va < UTOP
      modifies `free, `held, mem, ref
      ensures Core(View()) && View() == Walked(old(View()), e, Pdx(va), create)
      ensures ok <==> !create || old(PteValid(DirWord(View(), e, Pdx(va)))) || old(free) != []
      ensures pte.Some? <==> Live(View(), TableUse(e, Pdx(va)))
      ensures pte.Some? ==>
        pte.value == (TableOf(View(), e, Pdx(va)), Ptx(va)) && 0 <= pte.value.0 < npage && |mem[pte.value.0]| == NPTE
    {
      hide Counted, Partitioned, Sole, InRange;
      ghost var s := View();
      var i := Pdx(va);
      VaParts(va);
      DirInRange(s, e);
      WalkedKeeps(s, Walked(s, e, i, create), e, i, create);
      if !PteValid(mem[d][i]) {
        if !create {
          return true, None;
        }
        var got, pp := PageAlloc();
        if !got {
          return false, None;
        }
        AllocKeepsCore(s, View());
        assert SameUse(s, View(), DirUse(e));
        DirInRange(View(), e);
        ref[pp] := 1;
        mem[d] := mem[d][i := AddrPte(Page2Pa(pp)) + PTE_V];
        held := held - {pp};
        assert View() == Walked(s, e, i, create);
      }
      TableInRange(View(), e, i);
      var t := FrameAt(mem[d][i], TableUse(e, i));
      return true, Some((t, Ptx(va)));
    }

    /** The frame mapped at `va`, and where its entry is. */
    method PageLookup(d: int, va: int, ghost e: int) returns (pp: Option<int>, pte: (int, int))
      requires Sized() && Core(View()) && e in dir && dir[e] == d && 0 <= va < UTOP
      modifies `free, `held, mem, ref
      ensures View() == old(View())
      ensures pp == (if Vpn(va) in PageMap(View(), e) then Some(PageMap(View(), e)[Vpn(va)].0) else None)
      ensures pp.Some? <==> Live(View(), LeafUse(e, Pdx(va), Ptx(va)))
      ensures pp.Some? ==> pp.value == Target(View(), LeafUse(e, Pdx(va), Ptx(va))) && 0 <= pp.value < npage
      ensures pp.Some? ==>
        pte == (TableOf(View(), e, Pdx(va)), Ptx(va)) && 0 <= pte.0 < npage && |mem[pte.0]| == NPTE
    {
      hide Counted, Partitioned, Sole, InRange;
      VaParts(va);
      assert Vpn(va) / NPTE == Pdx(va) && Vpn(va) % NPTE == Ptx(va);
      var _, w := PgdirWalk(d, va, false, e);
      if w.None? || !PteValid(mem[w.value.0][w.value.1]) {
        return None, (0, 0);
      }
      var f := FrameAt(mem[w.value.0][w.value.1], LeafUse(e, Pdx(va), Ptx(va)));
      return Some(f), w.value;
    }

    /** The frame is released before its entry is cleared; the invariant is back when the call ends. */
    method PageRemove(d: int, va: int, ghost e: int)
      requires Sized() && Core(View()) && e in dir && dir[e] == d && 0 <= va < UTOP
      modifies `free, `held, mem, ref
      ensures Core(View()) && View() == Removed(old(View()), e, Pdx(va), Ptx(va))
      ensures PageMap(View(), e) == PageMap(old(View()), e) - {Vpn(va)}
      ensures forall e' :: e' != e ==> PageMap(View(), e') == PageMap(old(View()), e')
      ensures old(Valid()) ==> Valid()
    {
      hide Counted, Partitioned, Sole, InRange, SameUse, SelfMapped, PageMap, Insertable;
      ghost var s := View();
      VaParts(va);
      var pp, pte := PageLookup(d, va, e);
      if pp.Some? {
        LiveIsCounted(s, LeafUse(e, Pdx(va), Ptx(va)));
        PageDecref(pp.value);
        mem[pte.0] := mem[pte.0][pte.1 := 0];
      }
      assert View() == Removed(s, e, Pdx(va), Ptx(va));
      RemovedKeeps(s, View(), e, Pdx(va), Ptx(va));
      RemovedPageMaps(s, View(), e, Pdx(va), Ptx(va));
    }

    /** The last part of page_insert: write the entry, count the reference, drop the self-map. */
    method InstallLeaf(d: int, pp: int, t: int, j: int, perm: int, ghost e: int, ghost i: int)
      requires Sized() && Core(View()) && e in dir && dir[e] == d && 0 <= perm < TWO32
      requires Live(View(), TableUse(e, i)) && t == TableOf(View(), e, i) && 0 <= j < NPTE
      requires 0 <= t < npage && |mem[t]| == NPTE
      requires !Live(View(), LeafUse(e, i, j)) && Insertable(View(), pp) && 0 <= ref[pp] < 0xFFFF
      modifies `held, mem, ref
      ensures View() == WithWord(LeafInstalled(old(View()), e, i, j, pp, perm % 1024), e, i, j, EntryWord(pp, perm))
    {
      hide Counted, Partitioned, Sole, InRange, SameBut, SameUse, SelfMapped, EntryWord, MakePte, LeafInstalled;
      ghost var w := View();
      ghost var g := LeafInstalled(w, e, i, j, pp, perm % 1024);
      InstalledIs(w, g, e, i, j, pp, perm % 1024);
      mem[t] := mem[t][j := EntryWord(pp, perm)];
      ref[pp] := (ref[pp] + 1) % 0x10000;
      held := held - {pp};
      mem[d] := mem[d][PDX_UVPT := 0];
      TwoWrites(w.mem, t, d, j, MakePte(pp, perm % 1024), EntryWord(pp, perm));
    }

    /** The short path of page_insert: the frame is mapped there already. */
    method RewriteLeaf(pp: int, t: int, j: int, perm: int, ghost e: int, ghost i: int)
      requires Sized() && Inv(View()) && e in dir && 0 <= perm < TWO32 && 0 <= i < PDX_UTOP && 0 <= j < NPTE
      requires Live(View(), LeafUse(e, i, j)) && Target(View(), LeafUse(e, i, j)) == pp && Insertable(View(), pp)
      requires t == TableOf(View(), e, i) && 0 <= t < npage && |mem[t]| == NPTE
      modifies mem
      ensures View() == WithWord(Inserted(old(View()), e, i, j, pp, perm % 1024), e, i, j, EntryWord(pp, perm))
    {
      hide Counted, Partitioned, Sole, InRange, SameBut, SameUse, SelfMapped, EntryWord;
      ghost var s := View();
      ghost var g := Inserted(s, e, i, j, pp, perm % 1024);
      InsertedKeeps(s, g, e, i, j, pp, perm % 1024);
      WordWritten(s, g, e, i, j, pp, perm % 1024);
      mem[t] := mem[t][j := EntryWord(pp, perm)];
      assert s.mem[t][j := MakePte(pp, perm % 1024)][j := EntryWord(pp, perm)] == s.mem[t][j := EntryWord(pp, perm)];
    }

    /** Map frame `pp` at `va`, with any 32-bit permission. `pp` is held by the caller or mapped already;
        its 16-bit count has room. The invariant is kept if and only if the high bits of the permission
        fit the frame number. */
    method PageInsert(d: int, pp: int, va: int, perm0: int, ghost e: int) returns (ok: bool)
      requires Valid() && e in dir && dir[e] == d && 0 <= va < UTOP && 0 <= perm0 < TWO32
      requires Insertable(View(), pp) && 0 <= ref[pp] < 0xFFFF
      modifies `free, `held, mem, ref
      ensures Sized() && pp < MAXPAGES && (Valid() <==> !ok || Fits(pp, perm0))
      ensures ok <==> old(PteValid(DirWord(View(), e, Pdx(va)))) || old(free) != []
      ensures !ok ==> View() == old(View())
      ensures ok ==> PageInserted(old(View()), View(), e, va, pp, InsertPerm(perm0))
      ensures ok ==> PageMap(View(), e) == PageMap(old(View()), e)[Vpn(va) := Stored(pp, perm0)]
      ensures ok ==> mem[pp] == old(mem[pp]) && held == old(held) - {pp} && FramesKept(old(View()), View(), e, va)
      ensures ok ==> forall e' :: e' != e ==> PageMap(View(), e') == PageMap(old(View()), e')
    {
      hide Counted, Partitioned, Sole, InRange, SameBut, SelfMapped, EntryWord, Stored, Fits, WithWord, PageMap;
      ghost var s := View();
      VaParts(va);
      ghost var i, j := Pdx(va), Ptx(va);
      var perm := perm0;
      var _, pte := PgdirWalk(d, va, false, e);
      if HasW(perm) {
        perm := Or(perm, PTE_R);
      }
      StoredPerm(perm0);
      if pte.Some? && PteValid(mem[pte.value.0][pte.value.1]) {
        var f := FrameAt(mem[pte.value.0][pte.value.1], LeafUse(e, i, j));
        if f != pp {
          PageRemove(d, va, e);
        } else {
          RewriteLeaf(pp, pte.value.0, pte.value.1, perm, e, i);
          InsertDone(s, View(), e, va, pp, perm0);
          return true;
        }
      }
      ok := InsertAbsent(d, pp, va, perm, e, s);
      if ok {
        InsertDone(s, View(), e, va, pp, perm0);
      }
    }

    /** Steps 2 and 3 of page_insert: `pp` is not mapped at `va`, and what was there has been removed. */
    method InsertAbsent(d: int, pp: int, va: int, perm: int, ghost e: int, ghost s: Mmu) returns (ok: bool)
      requires Sized() && Inv(s) && e in s.dir && e in dir && dir[e] == d && 0 <= va < UTOP && 0 <= perm < TWO32 && Pdx(va) < PDX_UTOP
      requires View() == Removed(s, e, Pdx(va), Ptx(va)) && Core(View()) && Insertable(s, pp) && 0 <= s.ref[pp] < 0xFFFF
      requires !(Live(s, LeafUse(e, Pdx(va), Ptx(va))) && Target(s, LeafUse(e, Pdx(va), Ptx(va))) == pp)
      modifies `free, `held, mem, ref
      ensures ok <==> PteValid(DirWord(s, e, Pdx(va))) || s.free != []
      ensures !ok ==> View() == s
      ensures ok ==> PageInserted(s, View(), e, va, pp, perm)
    {
      hide Counted, Partitioned, Sole, InRange, SameBut, SelfMapped, EntryWord, WithWord, PageMap;
      ghost var i, j := Pdx(va), Ptx(va);
      ghost var m := View();
      RemovedKeeps(s, m, e, i, j);
      InsertCanWalk(s, m, e, i, j);
      var pte;
      ok, pte := PgdirWalk(d, va, true, e);
      if !ok {
        return;
      }
      WalkedForInsert(s, m, View(), e, i, j, pp);
      InstallLeaf(d, pp, pte.value.0, pte.value.1, perm, e, i);
      InsertedKeeps(s, Inserted(s, e, i, j, pp, perm % 1024), e, i, j, pp, perm % 1024);
    }

    /** `env_setup_vm`: a directory for env slot `e`, empty below UTOP. */
    method EnvSetupVm(e: int, kernelDir: Frame, baseDir: Frame) returns (ok: bool)
      requires Valid() && e !in dir && IsFrame(kernelDir) && IsFrame(baseDir)
      requires forall i :: 0 <= i < 512 ==> kernelDir[i] == 0
      modifies this`free, this`held, this`dir, mem, ref
      ensures Valid()
      ensures ok <==> old(free) != []
      ensures !ok ==> View() == old(View())
      ensures ok ==> dir == old(dir)[e := old(free)[0]] && copy == old(copy) && held == old(held)
      ensures ok ==> PageMap(View(), e) == map[]
      ensures ok ==> forall i :: 0 <= i < NPTE ==>
        DirWord(View(), e, i) == if 509 <= i < 511 then baseDir[i] else kernelDir[i]
      ensures forall e' :: e' != e ==> PageMap(View(), e') == PageMap(old(View()), e')
    {
      hide Counted, Partitioned, Sole, InRange, SameBut;
      ghost var s := View();
      var pp;
      ok, pp := PageAlloc();
      if !ok {
        return;
      }
      ghost var m := View();
      AllocKeepsCore(s, m);
      ref[pp] := ref[pp] + 1;
      held := held - {pp};
      dir := dir[e := pp];
      mem[pp] := kernelDir;
      mem[pp] := mem[pp][..PDX_UTOP] + baseDir[PDX_UTOP..PDX_UVPT] + mem[pp][PDX_UVPT..];
      assert View() == WithDir(m, e, pp, kernelDir[..PDX_UTOP] + baseDir[PDX_UTOP..PDX_UVPT] + kernelDir[PDX_UVPT..]);
      SetupDone(s, m, View(), e, pp, mem[pp]);
    }

    /** The inner loop of `env_free`: unmap every page of one table. */
    method UnmapTable(d: int, pdeno: int, pt: int, e: int, ghost s0: Mmu)
      requires Sized() && Tearing(s0, View(), e, pdeno) && dir[e] == d && 0 <= pdeno < PDX_UTOP
      requires Live(View(), TableUse(e, pdeno)) && TableOf(View(), e, pdeno) == pt && 0 <= pt < npage
      modifies `free, `held, mem, ref
      ensures Tearing(s0, View(), e, pdeno)
      ensures Live(View(), TableUse(e, pdeno)) && TableOf(View(), e, pdeno) == pt
      ensures forall j :: 0 <= j < NPTE ==> !Live(View(), LeafUse(e, pdeno, j))
    {
      hide Counted, Partitioned, Sole, InRange, SameBut, SameUse, SelfMapped, PageMap, Insertable, Removed;
      var pteno := 0;
      while pteno < NPTE
        invariant 0 <= pteno <= NPTE && Sized()
        invariant Tearing(s0, View(), e, pdeno)
        invariant Live(View(), TableUse(e, pdeno)) && TableOf(View(), e, pdeno) == pt
        invariant forall j :: 0 <= j < pteno ==> !Live(View(), LeafUse(e, pdeno, j))
      {
        ghost var s := View();
        TableInRange(s, e, pdeno);
        if PteValid(mem[pt][pteno]) {
          var va := pdeno * PDMAP + pteno * BY2PG;
          assert Pdx(va) == pdeno && Ptx(va) == pteno;
          PageRemove(d, va, e);
          TearLeaf(s0, s, View(), e, pdeno, pteno);
        }
        pteno := pteno + 1;
      }
    }

    /** `env_free`, memory part: unmap every page below UTOP, then give back the tables, the directory
        copy and the directory. */
    method EnvFree(e: int)
      requires Valid() && e in dir
      modifies this`free, this`held, this`dir, this`copy, mem, ref
      ensures Valid()
      ensures dir == old(dir) - {e} && copy == old(copy) - {e} && held == old(held) && boot == old(boot)
      ensures Freed(old(View()), View(), e)
    {
      hide Counted, Partitioned, Sole, InRange, SameBut, SameUse;
      ghost var s0 := View();
      TearingStarts(s0, e);
      var d := dir[e];
      var pdeno := 0;
      while pdeno < PDX_UTOP
        invariant 0 <= pdeno <= PDX_UTOP && Sized()
        invariant Tearing(s0, View(), e, pdeno) && copy == s0.copy
      {
        DirInRange(View(), e);
        if PteValid(mem[d][pdeno]) {
          var pa := PteAddr(mem[d][pdeno]);
          var pt := FrameAt(mem[d][pdeno], TableUse(e, pdeno));
          UnmapTable(d, pdeno, pt, e, s0);
          ghost var s := View();
          DirInRange(s, e);
          LiveIsCounted(s, TableUse(e, pdeno));
          mem[d] := mem[d][pdeno := 0];
          PageDecref(Pa2Page(pa));
          TearTable(s0, s, View(), e, pdeno, pt);
        }
        pdeno := pdeno + 1;
      }
      ghost var s1 := View();
      assert s1.copy == s0.copy;
      if e in copy {
        WithoutCopyKeeps(s1, WithoutCopy(s1, e), e);
        assert ref[copy[e]] == 1;  // otherwise: kernel assertion failure
        PageDecref(copy[e]);
        copy := copy - {e};
      }
      ghost var s2 := View();
      TearCopy(s0, s1, s2, e);
      DirInRange(s2, e);
      LiveIsCounted(s2, DirUse(e));
      PageDecref(d);
      dir := dir - {e};
      TearDone(s0, s2, View(), e);
    }

    /** The copy loop of `do_tlb_miss`: frame `p` becomes frame `d` with its valid entries user-readable. */
    method ExposeDir(d: int, p: int)
      requires Sized() && 0 <= d < npage && 0 <= p < npage && d != p && IsFrame(mem[d])
      modifies mem
      ensures IsFrame(mem[p]) && IsFrame(mem[d]) && Exposed(mem[p], mem[d], NPTE)
      ensures mem[..] == old(mem[..])[p := mem[p]]
    {
      mem[p] := mem[d];
      var i := 0;
      while i < NPTE
        invariant 0 <= i <= NPTE
        invariant IsFrame(mem[p]) && IsFrame(mem[d]) && Exposed(mem[p], mem[d], i)
        invariant mem[..] == old(mem[..])[p := mem[p]]
      {
        ExposeEntry(mem[p][i]);
        if PteValid(mem[p][i]) {
          mem[p] := mem[p][i := Or(Or(mem[p][i], PTE_R), PTE_U)];
        }
        i := i + 1;
      }
    }

    /** `curenv->env_pgdir_copy_pa`, allocated on first use. */
    method CopyFrameOf(e: int) returns (ok: bool, p: int)
      requires Valid() && e in dir
      modifies this`free, this`held, this`copy, mem, ref
      ensures Sized() && Core(View())
      ensures ok <==> e in old(copy) || old(free) != []
      ensures !ok ==> View() == old(View())
      ensures ok ==> e in copy && copy[e] == p && copy - {e} == old(copy) - {e}
      ensures e in old(copy) ==> copy == old(copy)
      ensures dir == old(dir) && held == old(held)
      ensures forall e' :: e' in dir && e' != e ==> SelfMapped(View(), e')
      ensures forall e' :: PageMap(View(), e') == PageMap(old(View()), e')
    {
      hide Counted, Partitioned, Sole, InRange, SameBut, SelfMapped;
      ghost var s := View();
      if e in copy {
        return true, copy[e];
      }
      ok, p := PageAlloc();
      if !ok {
        return;
      }
      ghost var m := View();
      ref[p] := ref[p] + 1;
      held := held - {p};
      copy := copy[e := p];
      assert View() == WithCopy(m, e, p);
      CopyMade(s, m, View(), e, p);
    }

    /** The load-fault branch of `do_tlb_miss` for addresses in [UVPT, ULIM): give env `e` an up-to-date,
        user-readable copy of its directory and let its directory use that copy as a page table.
        `ok` is false where the kernel panics: no frame is left, or no table exists at `addr`. */
    method MapSelf(d: int, addr: int, e: int) returns (ok: bool)
      requires Valid() && e in dir && dir[e] == d && UVPT <= addr < ULIM
      modifies this`free, this`held, this`copy, mem, ref
      ensures Valid()
      ensures e !in old(copy) && old(free) == [] ==> !ok && View() == old(View())
      ensures e in old(copy) || old(free) != [] ==>
        e in copy && DirWord(View(), e, PDX_UVPT) == MakePte(copy[e], 0) &&
        (ok <==> PteValid(DirWord(View(), e, (addr - UVPT) / BY2PG)))
      ensures dir == old(dir) && held == old(held) && copy - {e} == old(copy) - {e}
      ensures forall e' :: PageMap(View(), e') == PageMap(old(View()), e')
    {
      hide Counted, Partitioned, Sole, InRange, SameBut, SameUse, SelfMapped, Live, PageMap;
      var p;
      ok, p := CopyFrameOf(e);
      if !ok {
        return;
      }
      LinkCopy(d, p, e);
      ok := PteValid(mem[d][(addr - UVPT) / BY2PG]);
    }

    /** The copy is filled, and the directory uses it as a page table. */
    method LinkCopy(d: int, p: int, e: int)
      requires Sized() && Core(View()) && e in dir && dir[e] == d && e in copy && copy[e] == p
      requires forall e' :: e' in dir && e' != e ==> SelfMapped(View(), e')
      modifies mem
      ensures Valid() && DirWord(View(), e, PDX_UVPT) == MakePte(copy[e], 0) && 0 <= d < npage && IsFrame(mem[d])
      ensures forall e' :: PageMap(View(), e') == PageMap(old(View()), e')
    {
      hide Counted, Partitioned, Sole, InRange, SameBut, SameUse, SelfMapped, Live, PageMap;
      ghost var c := View();
      DirInRange(c, e);
      CopyInRange(c, e);
      ExposeDir(d, p);
      PteRoundTrip(d, 0);
      PteRoundTrip(p, 0);
      ExposeEntry(AddrPte(Page2Pa(d)) + PTE_V);
      mem[p] := mem[p][PDX_UVPT := Or(Or(AddrPte(Page2Pa(d)) + PTE_V, PTE_R), PTE_U)];
      mem[d] := mem[d][PDX_UVPT := AddrPte(Page2Pa(p)) + PTE_V];
      SelfMapMade(c, View(), e, mem[p], mem[d]);
    }

    /** `passive_alloc` for an aligned address that page_lookup has not found. `ok` is false where the kernel
        panics: for an address that must not be mapped, or without a frame for the page or its table. */
    method PassiveAlloc(va: int, e: int) returns (ok: bool)
      requires Valid() && e in dir && 0 <= va < TWO32 && va % BY2PG == 0
      requires UVPT <= va < ULIM ==> !SelfFound(View(), e, Ptx(va))
      modifies this`free, this`held, this`boot, mem, ref
      ensures Valid()
      ensures va < UTOP ==> Passive(old(View()), View(), e, va, ok)
      ensures UVPT <= va < ULIM ==> Strands(old(View()), View(), e, ok)
      ensures UTOP <= va < UVPT || ULIM <= va ==> !ok && View() == old(View())
      ensures forall e' :: e' != e || va >= UTOP ==> PageMap(View(), e') == PageMap(old(View()), e')
    {
      hide Inv, PageMap, Or, InsertPerm, Strands, FramesKept, Named;
      if va < UTEMP {
        return false;
      }
      if USTACKTOP <= va < USTACKTOP + BY2PG {
        return false;
      }
      if UENVS <= va < UPAGES {
        return false;
      }
      if UPAGES <= va < UVPT {
        return false;
      }
      if va >= ULIM {
        return false;
      }
      if va >= UVPT {
        ok := StoreIntoSelfMap(dir[e], va, e);
        return;
      }
      SamePage(va);
      if free != [] { PassivePerm(View(), PTE_R + PTE_W + PTE_U); }
      ok := AllocAt(va / BY2PG * BY2PG, PTE_R + PTE_W + PTE_U, e);
    }

    /** What passive_alloc and sys_mem_alloc share: page_alloc, then page_insert. Without a table the
        zeroed frame is not given back. */
    method AllocAt(va: int, perm: int, e: int) returns (ok: bool)
      requires Valid() && e in dir && 0 <= va < UTOP && 0 <= perm < TWO32
      modifies `free, `held, mem, ref
      ensures Sized() && (!ok ==> Valid())
      ensures ok <==> old(free) != [] && (old(PteValid(DirWord(View(), e, Pdx(va)))) || |old(free)| > 1)
      ensures ok ==>
        0 <= old(free)[0] < npage && mem[old(free)[0]] == ZeroFrame() && held == old(held) &&
        PageMap(View(), e) == PageMap(old(View()), e)[Vpn(va) := Stored(old(free)[0], perm)]
      ensures ok ==> (Valid() <==> Fits(old(free)[0], perm))
      ensures ok ==> FramesKept(old(View()), View(), e, va) && old(free)[0] !in Named(old(View()))
      ensures !ok ==> PageMap(View(), e) == PageMap(old(View()), e)
      ensures !ok ==> held == old(held) + (if old(free) == [] then {} else {old(free)[0]})
      ensures forall e' :: e' != e ==> PageMap(View(), e') == PageMap(old(View()), e')
    {
      hide Counted, Sole, InRange, SameBut, SameUse, SelfMapped, PageMap, Stored, Fits, FramesKept, Named;
      ghost var s := View();
      var pp;
      ok, pp := PageAlloc();
      if !ok {
        return;
      }
      VaParts(va);
      AllocDone(s, View(), e, Pdx(va));
      AllocKeepsFrames(s, View(), e, va);
      ghost var m := View();
      ok := PageInsert(dir[e], pp, va, perm, e);
      if ok { FramesKeptOn(s, m, View(), e, va); }
    }

    /** The table that page_insert takes for an address of the self-map: the directory copy, or a new frame
        when the entry is not valid. */
    method SelfTable(d: int, e: int) returns (ok: bool, t: int)
      requires Sized() && Core(View()) && e in dir && dir[e] == d && SelfMapped(View(), e)
      modifies this`free, this`held, this`boot, mem, ref
      ensures Sized() && Unnoticed(old(View()), View(), e) && (ok ==> 0 <= t < npage && IsFrame(mem[t]))
      ensures ok && old(PteValid(DirWord(View(), e, PDX_UVPT))) ==> e in copy && t == copy[e] && View() == old(View())
      ensures !ok ==> !old(PteValid(DirWord(View(), e, PDX_UVPT))) && old(free) == [] && View() == old(View())
      ensures ok && !old(PteValid(DirWord(View(), e, PDX_UVPT))) ==>
        |old(free)| > 0 && t == old(free)[0] && Taken(old(View()), View(), 1) && forall u :: Live(View(), u) ==> Target(View(), u) != t
    {
      hide Core, SelfMapped, SameUses;
      ghost var s := View();
      CoreDir(s, e);
      if PteValid(mem[d][PDX_UVPT]) {
        SelfTableIs(s, e);
        t := Pa2Page(PteAddr(mem[d][PDX_UVPT]));
        UnnoticedSelf(s, e);
        return true, t;
      }
      if free == [] {
        UnnoticedSelf(s, e);
        return false, -1;
      }
      ok := true;
      t := NewSelfTable(d, e);
    }

    /** A table of its own for the self-map's addresses, as pgdir_walk makes it. */
    method NewSelfTable(d: int, e: int) returns (t: int)
      requires Sized() && Core(View()) && e in dir && dir[e] == d && free != []
      modifies this`free, this`held, this`boot, mem, ref
      ensures Sized() && Unnoticed(old(View()), View(), e) && 0 <= t < npage && IsFrame(mem[t])
      ensures t == old(free)[0] && Taken(old(View()), View(), 1) && forall u :: Live(View(), u) ==> Target(View(), u) != t
    {
      hide Core, SelfMapped, SameUses;
      ghost var s := View();
      CoreDir(s, e);
      FreeHead(s);
      var ok;
      ok, t := PageAlloc();
      ghost var m := View();
      AllocUnnoticed(s, m, e);
      ref[t] := 1;
      boot := boot[t := boot[t] + 1];
      held := held - {t};
      assert View() == Charged(m, t);
      ghost var c := View();
      ChargedUnnoticed(m, c, e, t);
      UnnoticedTwice(s, m, c, e);
      CoreDir(c, e);
      PteRoundTrip(t, 0);
      mem[d] := mem[d][PDX_UVPT := AddrPte(Page2Pa(t)) + PTE_V];
      SelfEntryWrite(c, View(), e, AddrPte(Page2Pa(t)) + PTE_V);
      UnnoticedTwice(s, c, View(), e);
      StillUnnamed(m, c, View(), e, t);
    }

    /** page_alloc and page_insert at an address of the self-map that is not mapped there. The entry is
        written, and then the last store of page_insert takes the table away again. */
    method StoreIntoSelfMap(d: int, addr: int, e: int) returns (ok: bool)
      requires Valid() && e in dir && dir[e] == d && UVPT <= addr < ULIM && !SelfFound(View(), e, Ptx(addr))
      modifies this`free, this`held, this`boot, mem, ref
      ensures Valid() && Strands(old(View()), View(), e, ok)
      ensures forall e' :: PageMap(View(), e') == PageMap(old(View()), e')
    {
      hide Core, SelfMapped, SameUses, PageMap, Strands;
      ghost var s := View();
      if free == [] {
        UnnoticedSelf(s, e);
        NothingStranded(s, s, e);
        return false;
      }
      FreeHead(s);
      var p;
      ok, p := PageAlloc();
      ghost var m := View();
      AllocUnnoticed(s, m, e);
      AllocDone(s, m, e, PDX_UVPT);
      var t;
      ok, t := SelfTable(d, e);
      ghost var c := View();
      UnnoticedTwice(s, m, c, e);
      if !ok {
        NothingStranded(s, c, e);
        return;
      }
      EntryIntoSelfMap(d, p, t, Ptx(addr), e);
      UnnoticedTwice(s, c, View(), e);
      StrandsDone(s, m, c, View(), e, p, t);
    }

    /** The last part of page_insert at an address of the self-map. */
    method EntryIntoSelfMap(d: int, p: int, t: int, j: int, e: int)
      requires Sized() && Core(View()) && e in dir && dir[e] == d && p in held && 0 <= t < npage && IsFrame(mem[t])
      requires (e in copy && t == copy[e]) || forall u :: Live(View(), u) ==> Target(View(), u) != t
      requires 0 <= p < npage && 0 <= j < NPTE && ref[p] == 0 && |boot| == npage
      modifies this`held, this`boot, mem, ref
      ensures Sized() && Unnoticed(old(View()), View(), e) && DirWord(View(), e, PDX_UVPT) == 0
      ensures held == old(held) - {p} && ref[..] == old(ref[..][p := ref[p] + 1]) && boot == old(boot[p := boot[p] + 1])
    {
      hide Core, SelfMapped, SameUses;
      ghost var c := View();
      PteRoundTrip(p, PTE_R + PTE_W + PTE_U);
      mem[t] := mem[t][j := AddrPte(Page2Pa(p)) + Or(PTE_R + PTE_W + PTE_U, PTE_V)];
      ghost var x := View();
      ScratchWrite(c, x, e, t, mem[t]);
      ref[p] := (ref[p] + 1) % 0x10000;
      boot := boot[p := boot[p] + 1];
      held := held - {p};
      ghost var y := View();
      assert y == Charged(x, p);
      ChargedUnnoticed(x, y, e, p);
      UnnoticedTwice(c, x, y, e);
      CoreDir(y, e);
      mem[d] := mem[d][PDX_UVPT := 0];
      SelfEntryWrite(y, View(), e, 0);
      UnnoticedTwice(c, y, View(), e);
    }

    /** `do_tlb_miss`. `shared` is what page_lookup finds in tables that all envs share, for addresses from
        UTOP on that are outside the self-map: the flags of an entry, or nothing. */
    method DoTlbMiss(stval: int, scause: int, e: int, shared: Option<int>) returns (r: Miss)
      requires Valid() && e in dir && 0 <= stval < TWO32
      modifies this`free, this`held, this`copy, this`boot, mem, ref
      ensures Valid()
      ensures stval < UTOP && Vpn(stval) in PageMap(old(View()), e) ==>
        View() == old(View()) && r == Exists(scause, PageMap(old(View()), e)[Vpn(stval)].1)
      ensures stval < UTOP && Vpn(stval) !in PageMap(old(View()), e) ==> Filled(old(View()), View(), e, stval / BY2PG * BY2PG, scause, r)
      ensures UTOP <= stval < UVPT || ULIM <= stval ==>
        View() == old(View()) && r == if shared.Some? then Exists(scause, shared.value) else Panics
      ensures UVPT <= stval < ULIM ==> SelfMiss(old(View()), View(), e, stval / BY2PG * BY2PG, scause, r)
      ensures forall e' :: e' != e || stval >= UTOP ==> PageMap(View(), e') == PageMap(old(View()), e')
    {
      hide Counted, Partitioned, Sole, InRange, SelfMapped, PageMap, Strands, Zeroed, HasRoom, Reloaded, Live;
      var addr := stval / BY2PG * BY2PG;
      SamePage(stval);
      if addr < UTOP {
        var p, pte := PageLookup(dir[e], addr, e);
        if p.Some? {
          LookedUp(View(), e, addr);
          return Exists(scause, mem[pte.0][pte.1] % 1024);
        }
      } else if UVPT <= addr < ULIM {
        var found, word := SelfLookup(dir[e], addr, e);
        if found {
          return Exists(scause, word % 1024);
        }
      } else if shared.Some? {
        return Exists(scause, shared.value);
      }
      if scause == 15 {
        var ok := PassiveAlloc(addr, e);
        return if ok then Mapped else Panics;
      } else if scause == 13 {
        if UTEMP <= addr < USTACKTOP {
          var ok := PassiveAlloc(addr, e);
          return if ok then Mapped else Panics;
        }
        if addr < UVPT || addr >= ULIM {
          return Panics;
        }
        var ok := LoadFromSelfMap(addr, e);
        return if ok then Mapped else Panics;
      }
      r := Panics;
    }

    method LoadFromSelfMap(addr: int, e: int) returns (ok: bool)
      requires Valid() && e in dir && UVPT <= addr < ULIM
      modifies this`free, this`held, this`copy, mem, ref
      ensures Valid() && e in dir && Reloaded(old(View()), View(), e, addr, ok)
      ensures forall e' :: PageMap(View(), e') == PageMap(old(View()), e')
    {
      hide Counted, Partitioned, Sole, InRange, SelfMapped, PageMap;
      ok := MapSelf(dir[e], addr, e);
      if ok {
        SelfEntryValid(View(), e);
      }
    }

    /** page_lookup for an address of the self-map. */
    method SelfLookup(d: int, addr: int, ghost e: int) returns (found: bool, word: int)
      requires Valid() && e in dir && dir[e] == d && UVPT <= addr < ULIM
      ensures found <==> SelfFound(View(), e, Ptx(addr))
      ensures found ==> word == Word(View(), copy[e], Ptx(addr))
    {
      hide Counted, Partitioned, Sole, InRange;
      DirInRange(View(), e);
      if !PteValid(mem[d][PDX_UVPT]) {
        return false, 0;
      }
      SelfTableIs(View(), e);
      var t := Pa2Page(PteAddr(mem[d][PDX_UVPT]));
      word := mem[t][Ptx(addr)];
      found := PteValid(word);
    }

    /** `sys_mem_alloc` on env `e`, after the env check. When the table for `va` cannot be allocated, the
        zeroed frame is not given back: it stays held for good. The caller's `perm` is not checked. */
    method SysMemAlloc(e: int, va: int, perm: int) returns (r: int)
      requires Valid() && e in dir && 0 <= va < TWO32 && 0 <= perm < TWO32
      modifies `free, `held, mem, ref
      ensures Sized() && (r != 0 ==> Valid())
      ensures r == -E_INVAL <==> va < 0x3F_E000 || va >= 0x7F40_0000
      ensures r == (if IllegalVa(va) then -E_INVAL
                    else if old(free) == [] then -E_NO_MEM
                    else if !old(PteValid(DirWord(View(), e, Pdx(va)))) && |old(free)| == 1 then -E_NO_MEM
                    else 0)
      ensures r == 0 ==>
        0 <= old(free)[0] < npage && mem[old(free)[0]] == ZeroFrame() && held == old(held) &&
        PageMap(View(), e) == PageMap(old(View()), e)[Vpn(va) := Stored(old(free)[0], Or(perm, PTE_U))]
      ensures r == 0 ==> (Valid() <==> Fits(old(free)[0], perm))
      ensures r == 0 ==> FramesKept(old(View()), View(), e, va) && old(free)[0] !in Named(old(View()))
      ensures r != 0 ==> PageMap(View(), e) == PageMap(old(View()), e)
      ensures r != 0 ==> held == old(held) + (if IllegalVa(va) || old(free) == [] then {} else {old(free)[0]})
      ensures forall e' :: e' != e ==> PageMap(View(), e') == PageMap(old(View()), e')
    {
      hide Inv, PageMap, Stored, Fits, FramesKept, Named;
      if IllegalVa(va) {
        return -E_INVAL;
      }
      FlagSet(perm, PTE_U);
      if free != [] { SameHighBitsFit(free[0], perm, Or(perm, PTE_U)); }
      var ok := AllocAt(va, Or(perm, PTE_U), e);
      r := if ok then 0 else -E_NO_MEM;
    }

    /** `sys_mem_map`: the page at `srcva` of env `src` also at `dstva` of env `dst`. */
    method SysMemMap(src: int, srcva: int, dst: int, dstva: int, perm: int) returns (r: int)
      requires Valid() && src in dir && dst in dir
      requires 0 <= srcva < TWO32 && 0 <= dstva < TWO32 && 0 <= perm < TWO32
      requires forall f :: 0 <= f < npage ==> 0 <= ref[f] < 0xFFFF
      modifies `free, `held, mem, ref
      ensures Sized() && held == old(held)
      ensures r == -E_INVAL <==>
        srcva < 0x3F_E000 || srcva >= 0x7F40_0000 || dstva < 0x3F_E000 || dstva >= 0x7F40_0000 || Vpn(srcva) !in PageMap(old(View()), src)
      ensures r == (if IllegalVa(srcva) || IllegalVa(dstva) || Vpn(srcva) !in PageMap(old(View()), src) then -E_INVAL
                    else if !old(PteValid(DirWord(View(), dst, Pdx(dstva)))) && old(free) == [] then -E_NO_MEM
                    else 0)
      ensures r == 0 ==> PageMap(View(), dst) == PageMap(old(View()), dst)
        [Vpn(dstva) := Stored(PageMap(old(View()), src)[Vpn(srcva)].0, Or(perm, PTE_U))]
      ensures r == 0 ==> (Valid() <==> Fits(PageMap(old(View()), src)[Vpn(srcva)].0, perm))
      ensures r == 0 ==> FramesKept(old(View()), View(), dst, dstva)
      ensures r == 0 ==> var f := PageMap(old(View()), src)[Vpn(srcva)].0; 0 <= f < npage && mem[f] == old(mem[..])[f]
      ensures r != 0 ==> View() == old(View())
      ensures forall e' :: e' != dst ==> PageMap(View(), e') == PageMap(old(View()), e')
    {
      hide Counted, Partitioned, Sole, InRange, SameBut, SameUse, SelfMapped, PageMap, Stored, Fits, FramesKept;
      if IllegalVa(srcva) || IllegalVa(dstva) {
        return -E_INVAL;
      }
      var pp, _ := PageLookup(dir[src], srcva, src);
      if pp.None? {
        return -E_INVAL;
      }
      LeafIsInsertable(View(), LeafUse(src, Pdx(srcva), Ptx(srcva)));
      FlagSet(perm, PTE_U);
      SameHighBitsFit(pp.value, perm, Or(perm, PTE_U));
      LeafNotHeld(View(), LeafUse(src, Pdx(srcva), Ptx(srcva)));
      var ok := PageInsert(dir[dst], pp.value, dstva, Or(perm, PTE_U), dst);
      r := if ok then 0 else -E_NO_MEM;
    }

    /** `sys_mem_unmap`. */
    method SysMemUnmap(e: int, va: int) returns (r: int)
      requires Valid() && e in dir && 0 <= va < TWO32
      modifies `free, `held, mem, ref
      ensures Valid() && held == old(held)
      ensures r == -E_INVAL <==> va < 0x3F_E000 || va >= 0x7F40_0000
      ensures r == if IllegalVa(va) then -E_INVAL else 0
      ensures r == 0 ==> PageMap(View(), e) == PageMap(old(View()), e) - {Vpn(va)}
      ensures r == 0 ==> FramesKept(old(View()), View(), e, va)
      ensures r != 0 ==> View() == old(View())
      ensures forall e' :: e' != e ==> PageMap(View(), e') == PageMap(old(View()), e')
    {
      hide Counted, Partitioned, Sole, InRange, SameBut, SameUse, SelfMapped, PageMap;
      if IllegalVa(va) {
        return -E_INVAL;
      }
      ghost var s := View();
      PageRemove(dir[e], va, e);
      RemovedKeeps(s, View(), e, Pdx(va), Ptx(va));
      r := 0;
    }
  }

  /** What becomes of a page fault. */
  datatype Miss = ToCowHandler | Mapped | Panics

  /** The addresses that passive_alloc maps. */
  predicate PassiveVa(va: int) { UTEMP <= va < UTOP && !(USTACKTOP <= va < USTACKTOP + BY2PG) }

  predicate MayFill(va: int, cause: int) {
    (cause == 15 || (cause == 13 && UTEMP <= va < USTACKTOP)) && PassiveVa(va)
  }

  ghost predicate HasRoom(s: Mmu, e: int, va: int)
    requires e in s.dir
  {
    s.free != [] && (PteValid(DirWord(s, e, Pdx(va))) || |s.free| > 1)
  }

  /** A zeroed frame is mapped at `va`, readable and writable, exactly when the address may be filled and
      there are frames for the page and its table. */
  ghost predicate Passive(s: Mmu, t: Mmu, e: int, va: int, ok: bool) {
    e in s.dir && (ok <==> PassiveVa(va) && HasRoom(s, e, va)) && t.boot == s.boot &&
    if ok then s.free != [] && Zeroed(s, t, e, va) else PageMap(t, e) == PageMap(s, e)
  }

  ghost predicate Zeroed(s: Mmu, t: Mmu, e: int, va: int)
    requires s.free != []
  {
    0 <= s.free[0] < |t.mem| && t.mem[s.free[0]] == ZeroFrame() && t.held == s.held &&
    FramesKept(s, t, e, va) && s.free[0] !in Named(s) &&
    PageMap(t, e) == PageMap(s, e)[Vpn(va) := (s.free[0], PTE_V + PTE_R + PTE_W + PTE_U)]
  }

  /** A page fault where nothing is mapped: a store or a load below the stack top gets a page, or panic.
      `a` is the fault address, rounded down. */
  ghost predicate Filled(s: Mmu, t: Mmu, e: int, a: int, cause: int, r: Miss) {
    e in s.dir && t.boot == s.boot &&
    r == (if MayFill(a, cause) && HasRoom(s, e, a) then Mapped else Panics) &&
    if r == Mapped then s.free != [] && Zeroed(s, t, e, a) else PageMap(t, e) == PageMap(s, e)
  }

  /** What page_lookup finds for page j of the self-map. */
  ghost predicate SelfFound(s: Mmu, e: int, j: int)
    requires e in s.dir
  {
    PteValid(DirWord(s, e, PDX_UVPT)) && e in s.copy && PteValid(Word(s, s.copy[e], j))
  }

  /** The first n free frames are counted, and nothing gives them back. */
  ghost predicate Taken(s: Mmu, t: Mmu, n: nat) {
    n <= |s.free| && t.free == s.free[n..] && t.held == s.held && |t.ref| == |s.ref| && |t.boot| == |s.boot| &&
    (forall f :: 0 <= f < |s.ref| ==> t.ref[f] == s.ref[f] + (if f in s.free[..n] then 1 else 0)) &&
    (forall f :: 0 <= f < |s.boot| ==> t.boot[f] == s.boot[f] + (if f in s.free[..n] then 1 else 0))
  }

  /** A store into the self-map: one frame, or two when there is no table, are counted from now on although
      no entry names them, and the self-map is gone. */
  ghost predicate Strands(s: Mmu, t: Mmu, e: int, ok: bool) {
    e in s.dir && e in t.dir && SameUses(s, t) &&
    var n := if PteValid(DirWord(s, e, PDX_UVPT)) then 1 else 2;
    (ok <==> |s.free| >= n) &&
    (ok ==> Taken(s, t, n) && !PteValid(DirWord(t, e, PDX_UVPT)) && Unnamed(t, s.free[..n]))
  }

  ghost predicate Unnamed(t: Mmu, fs: seq<int>) {
    forall u :: Live(t, u) ==> Target(t, u) !in fs
  }

  /** What the kernel does when page_lookup finds an entry. */
  function Exists(cause: int, flags: int): Miss {
    if cause == 15 && IsCow(flags) then ToCowHandler else Panics
  }

  /** A fault in the region of the self-map; `a` is the fault address, rounded down. */
  ghost predicate SelfMiss(s: Mmu, t: Mmu, e: int, a: int, cause: int, r: Miss) {
    e in s.dir && e in t.dir &&
    if SelfFound(s, e, Ptx(a)) then t == s && r == Exists(cause, PteFlags(Word(s, s.copy[e], Ptx(a))))
    else if cause == 15 then Strands(s, t, e, r == Mapped) && r != ToCowHandler
    else if cause == 13 then Reloaded(s, t, e, a, r == Mapped) && r != ToCowHandler
    else t == s && r == Panics
  }

  /** A load from the self-map brings it up to date; it panics without a frame for the copy, or where no
      table exists. */
  ghost predicate Reloaded(s: Mmu, t: Mmu, e: int, va: int, ok: bool)
    requires e in s.dir && e in t.dir
  {
    t.boot == s.boot && (ok ==> PteValid(DirWord(t, e, PDX_UVPT))) &&
    (ok <==> (e in s.copy || s.free != []) && PteValid(DirWord(t, e, (va - UVPT) / BY2PG)))
  }

  lemma CoreDir(s: Mmu, e: int)
    requires Core(s) && e in s.dir
    ensures 0 <= s.dir[e] < |s.mem| <= MAXPAGES && IsFrame(s.mem[s.dir[e]])
  {
    DirInRange(s, e);
  }

  lemma FreeHead(s: Mmu)
    requires Core(s) && s.free != []
    ensures 0 <= s.free[0] < |s.mem| == |s.ref| == |s.boot| <= MAXPAGES
    ensures s.ref[s.free[0]] == 0 && s.free[0] !in s.held && s.free[0] !in s.free[1..]
  {
    assert s.free[0] in s.free;
  }

  /** The table of the self-map is the directory copy. */
  lemma SelfTableIs(s: Mmu, e: int)
    requires Core(s) && e in s.dir && SelfMapped(s, e) && PteValid(DirWord(s, e, PDX_UVPT))
    ensures e in s.copy && PteFrame(DirWord(s, e, PDX_UVPT)) == s.copy[e]
    ensures 0 <= s.copy[e] < |s.mem| && IsFrame(s.mem[s.copy[e]])
  {
    CopyInRange(s, e);
    PteRoundTrip(s.copy[e], 0);
  }

  lemma UnnoticedSelf(s: Mmu, e: int)
    requires Core(s)
    ensures Unnoticed(s, s, e)
  {}

  lemma StillUnnamed(m: Mmu, c: Mmu, t: Mmu, e: int, f: int)
    requires Unnoticed(m, c, e) && Unnoticed(c, t, e) && forall u :: Live(m, u) ==> Target(m, u) != f
    ensures forall u :: Live(t, u) ==> Target(t, u) != f
  {
    hide Core, SelfMapped;
    forall u | Live(t, u) ensures Target(t, u) != f {
      assert SameUse(m, c, u) && SameUse(c, t, u);
    }
  }

  /** A store into the self-map, from page_alloc (m) over the table (c) to the end (t). */
  lemma StrandsDone(s: Mmu, m: Mmu, c: Mmu, t: Mmu, e: int, p: int, f: int)
    requires Inv(s) && e in s.dir && s.free != [] && p == s.free[0] && 0 <= p < |s.mem| && m == AllocFrame(s)
    requires if PteValid(DirWord(s, e, PDX_UVPT)) then c == m else Taken(m, c, 1) && f == m.free[0]
    requires t.free == c.free && t.held == c.held - {p} && 0 <= p < |c.ref| == |c.boot|
    requires t.ref == c.ref[p := c.ref[p] + 1] && t.boot == c.boot[p := c.boot[p] + 1]
    requires Unnoticed(s, t, e) && !PteValid(DirWord(t, e, PDX_UVPT))
    ensures Inv(t) && Strands(s, t, e, true)
    ensures forall e' :: PageMap(t, e') == PageMap(s, e')
  {
    hide Counted, Sole, InRange, SameBut, SameUse, SelfMapped, PageMap;
    FreeHead(s);
    var n := if PteValid(DirWord(s, e, PDX_UVPT)) then 1 else 2;
    UnnoticedPageMaps(s, t, e);
    SelfMapUnset(t, e);
    TakenTwice(s, m, c, t, p, n);
    FreeUnnamed(s, t, n);
    assert Core(t);
  }

  lemma TakenTwice(s: Mmu, m: Mmu, c: Mmu, t: Mmu, p: int, n: nat)
    requires s.free != [] && p == s.free[0] && NoDup(s.free) && 0 <= p < |s.ref| == |s.boot| && p !in s.held
    requires n == 1 || n == 2
    requires m.free == s.free[1..] && m.ref == s.ref && m.boot == s.boot && m.held == s.held + {p}
    requires if n == 1 then c == m else Taken(m, c, 1)
    requires 0 <= p < |c.ref| == |c.boot|
    requires t.free == c.free && t.held == c.held - {p} && t.ref == c.ref[p := c.ref[p] + 1] && t.boot == c.boot[p := c.boot[p] + 1]
    ensures Taken(s, t, n)
  {
    if n == 2 {
      assert s.free[1..][..1] == [s.free[1]] && s.free[..2] == [p, s.free[1]] && s.free[1] != p;
    } else {
      assert s.free[..1] == [p];
    }
  }

  lemma FreeUnnamed(s: Mmu, t: Mmu, n: nat)
    requires Core(s) && SameUses(s, t) && n <= |s.free|
    ensures Unnamed(t, s.free[..n])
  {
    forall u | Live(t, u) ensures Target(t, u) !in s.free[..n] {
      assert SameUse(s, t, u);
      LiveIsCounted(s, u);
      assert forall f :: f in s.free[..n] ==> f in s.free;
    }
  }

  /** Without enough frames the kernel panics. */
  lemma NothingStranded(s: Mmu, t: Mmu, e: int)
    requires Inv(s) && Inv(t) && e in s.dir && e in t.dir && SameUses(s, t)
    requires |s.free| < if PteValid(DirWord(s, e, PDX_UVPT)) then 1 else 2
    ensures Strands(s, t, e, false)
    ensures forall e' :: PageMap(t, e') == PageMap(s, e')
  {
    hide Core, SelfMapped;
    forall e' ensures PageMap(t, e') == PageMap(s, e') {
      SameLeavesSamePageMap(s, t, e');
    }
  }

  lemma PassivePerm(s: Mmu, perm: int)
    requires Inv(s) && s.free != [] && perm == PTE_R + PTE_W + PTE_U
    ensures var f := s.free[0]; Fits(f, perm) && Stored(f, perm) == (f, PTE_V + PTE_R + PTE_W + PTE_U)
  {
    hide Counted, Partitioned, Sole, InRange, SelfMapped, Stored, Fits;
    var f := s.free[0];
    FreeHead(s);
    FlagsFit(f, perm);
    StoredFits(f, perm);
    assert perm % 1024 == 22 && InsertPerm(22) == 22 && Or(22, PTE_V) == 23;
  }

  predicate IsCow(flags: int) { flags / 0x100 % 2 == 1 }

  lemma SamePage(va: int)
    requires 0 <= va
    ensures var a := va / BY2PG * BY2PG; Vpn(a) == Vpn(va) && a % BY2PG == 0 && a <= va && a / BY2PG * BY2PG == a
    ensures va < UTOP ==> va / BY2PG * BY2PG < UTOP
    ensures UVPT <= va < ULIM ==> UVPT <= va / BY2PG * BY2PG < ULIM
  {
    DivByParts(va / BY2PG * BY2PG, va / BY2PG, 0, BY2PG);
  }

  /** The flags of the entry that page_lookup finds. */
  lemma LookedUp(s: Mmu, e: int, va: int)
    requires Core(s) && e in s.dir && 0 <= va < UTOP && Live(s, LeafUse(e, Pdx(va), Ptx(va)))
    ensures Vpn(va) in PageMap(s, e) && PageMap(s, e)[Vpn(va)].1 == LeafWord(s, e, Pdx(va), Ptx(va)) % 1024
  {
    VaParts(va);
    DivByParts(Vpn(va), Pdx(va), Ptx(va), 1024);
    assert LeafOf(e, Vpn(va)) == LeafUse(e, Pdx(va), Ptx(va));
  }

  lemma SelfEntryValid(s: Mmu, e: int)
    requires Core(s) && e in s.dir && e in s.copy && DirWord(s, e, PDX_UVPT) == MakePte(s.copy[e], 0)
    ensures PteValid(DirWord(s, e, PDX_UVPT))
  {
    CopyInRange(s, e);
    PteRoundTrip(s.copy[e], 0);
  }

  /** Whether page_insert can get a table is decided by the state before it removes the old entry. */
  lemma InsertCanWalk(s: Mmu, m: Mmu, e: int, i: int, j: int)
    requires Core(s) && e in s.dir && m == Removed(s, e, i, j) && 0 <= i < PDX_UTOP
    ensures m.dir == s.dir && (PteValid(DirWord(m, e, i)) <==> PteValid(DirWord(s, e, i)))
    ensures !PteValid(DirWord(s, e, i)) ==> m == s
  {
    RemovedKeeps(s, m, e, i, j);
    assert SameUse(s, m, TableUse(e, i));
  }

  lemma TwoWrites(mem: seq<Frame>, t: int, d: int, j: int, v: int, w: int)
    requires 0 <= t < |mem| && 0 <= d < |mem| && t != d && |mem[t]| == |mem[d]| == NPTE && 0 <= j < NPTE
    ensures var g := mem[t := mem[t][j := v]]; var h := mem[t := mem[t][j := w]];
            g[d := g[d][PDX_UVPT := 0]][t := g[t][j := w]] == h[d := h[d][PDX_UVPT := 0]]
  {
    assert mem[t][j := v][j := w] == mem[t][j := w];
  }

  /** The table of the entry is the same after page_insert's last part. */
  lemma InstalledTable(s: Mmu, t: Mmu, e: int, i: int, j: int)
    requires Structure(s) && Live(s, TableUse(e, i)) && SameBut(s, t, LeafUse(e, i, j)) && t.dir == s.dir
    ensures TableOf(t, e, i) == TableOf(s, e, i) && s.dir[e] != TableOf(s, e, i)
  {
    assert SameUse(s, t, TableUse(e, i));
    assert Live(s, DirUse(e)) && Target(s, DirUse(e)) == s.dir[e] && Target(s, TableUse(e, i)) == TableOf(s, e, i);
  }

  lemma InstalledIs(s: Mmu, t: Mmu, e: int, i: int, j: int, pp: int, perm: int)
    requires Core(s) && Live(s, TableUse(e, i)) && 0 <= j < NPTE && !Live(s, LeafUse(e, i, j))
    requires Insertable(s, pp) && 0 <= perm < 1024 && t == LeafInstalled(s, e, i, j, pp, perm)
    ensures var f, d := TableOf(s, e, i), s.dir[e];
            0 <= f < |s.mem| && 0 <= d < |s.mem| && f != d && IsFrame(s.mem[f]) && IsFrame(s.mem[d]) &&
            t.mem == (var g := s.mem[f := s.mem[f][j := MakePte(pp, perm)]]; g[d := g[d][PDX_UVPT := 0]])
    ensures t.ref == s.ref[pp := s.ref[pp] + 1] && t.held == s.held - {pp} && t.free == s.free && t.boot == s.boot
    ensures t.dir == s.dir && t.copy == s.copy && TableOf(t, e, i) == TableOf(s, e, i)
  {
    hide Counted, Partitioned, Sole, InRange, SameBut, SameUse, SelfMapped;
    TableInRange(s, e, i);
    DirInRange(s, e);
    var l := WithLeaf(s, e, i, j, pp, perm);
    WithLeafKeepsCore(s, l, e, i, j, pp, perm);
    LeafInstalledKeeps(s, t, e, i, j, pp, perm);
    InstalledTable(s, t, e, i, j);
  }

  lemma WordWritten(s: Mmu, t: Mmu, e: int, i: int, j: int, pp: int, perm: int)
    requires Core(s) && Live(s, LeafUse(e, i, j)) && Target(s, LeafUse(e, i, j)) == pp
    requires 0 <= i < PDX_UTOP && 0 <= j < NPTE && Insertable(s, pp) && 0 <= perm < 1024
    requires t == Inserted(s, e, i, j, pp, perm)
    ensures TableOf(t, e, i) == TableOf(s, e, i)
  {
    assert Live(s, TableUse(e, i));
    TableInRange(s, e, i);
    PteRoundTrip(pp, perm);
    TableWrite(s, t, e, i, j, MakePte(pp, perm));
  }

  lemma InsertDone(s: Mmu, t: Mmu, e: int, va: int, pp: int, perm: int)
    requires Inv(s) && e in s.dir && 0 <= va < UTOP && Pdx(va) < PDX_UTOP && Insertable(s, pp) && 0 <= perm < TWO32
    requires PageInserted(s, t, e, va, pp, InsertPerm(perm))
    ensures pp < MAXPAGES && (Inv(t) <==> Fits(pp, perm))
    ensures PageMap(t, e) == PageMap(s, e)[Vpn(va) := Stored(pp, perm)]
    ensures forall e' :: e' != e ==> PageMap(t, e') == PageMap(s, e')
    ensures pp < |t.mem| && t.mem[pp] == s.mem[pp] && t.held == s.held - {pp} && FramesKept(s, t, e, va)
  {
    hide Counted, Partitioned, Sole, InRange, SameBut, SameUse, SelfMapped, Inserted, PageMap, EntryWord, InsertPerm, Fits, WithWord;
    hide Live, Word, DirWord, TableOf, LeafWord, MakePte;
    var p, i, j := InsertPerm(perm), Pdx(va), Ptx(va);
    VaParts(va);
    assert Insertable(s, pp) && pp < MAXPAGES;
    StoredPerm(perm);
    StoredFits(pp, perm);
    var g := Inserted(s, e, i, j, pp, p % 1024);
    InsertedKeeps(s, g, e, i, j, pp, p % 1024);
    EntryFlags(pp, p);
    WordOver(s, g, t, e, i, j, pp, p);
  }

  /** The contents of all data frames that stay in use. */
  ghost predicate FramesKept(s: Mmu, t: Mmu, e: int, va: int) {
    forall f :: Survives(s, e, Pdx(va), Ptx(va), f) ==> f < |t.mem| && t.mem[f] == s.mem[f]
  }

  /** The frames that pages of any env lie in. */
  ghost function Named(s: Mmu): iset<int> {
    iset e, v | v in PageMap(s, e) :: PageMap(s, e)[v].0
  }

  lemma FramesKeptOn(s: Mmu, m: Mmu, t: Mmu, e: int, va: int)
    requires FramesKept(s, m, e, va) && FramesKept(m, t, e, va)
    requires forall f :: Survives(s, e, Pdx(va), Ptx(va), f) ==> Survives(m, e, Pdx(va), Ptx(va), f)
    ensures FramesKept(s, t, e, va)
  {}

  lemma AllocKeepsFrames(s: Mmu, m: Mmu, e: int, va: int)
    requires Core(s) && s.free != [] && 0 <= s.free[0] < |s.mem| && m == AllocFrame(s)
    ensures FramesKept(s, m, e, va) && s.free[0] !in Named(s)
    ensures forall f :: Survives(s, e, Pdx(va), Ptx(va), f) ==> Survives(m, e, Pdx(va), Ptx(va), f)
  {
    AllocKeepsCore(s, m);
    FreeHead(s);
    hide Counted, Sole, InRange, Partitioned;
    var i, j := Pdx(va), Ptx(va);
    assert SameUse(s, m, LeafUse(e, i, j));
    forall f | Survives(s, e, i, j, f) ensures Survives(m, e, i, j, f) && m.mem[f] == s.mem[f] {
      forall v | Live(m, v) && !v.LeafUse? ensures Target(m, v) != f {
        assert SameUse(s, m, v);
      }
    }
    forall e', v | v in PageMap(s, e') ensures PageMap(s, e')[v].0 != s.free[0] {
      assert Live(s, LeafOf(e', v)) && Target(s, LeafOf(e', v)) == PageMap(s, e')[v].0;
    }
  }

  /** Whatever word stands in the place of the entry that page_insert should have made. */
  lemma WordOver(s: Mmu, g: Mmu, t: Mmu, e: int, i: int, j: int, pp: int, p: int)
    requires Inv(g) && e in s.dir && e in g.dir && 0 <= i < PDX_UTOP && 0 <= j < NPTE && 0 <= pp < MAXPAGES && 0 <= p < TWO32
    requires Live(g, LeafUse(e, i, j)) && LeafWord(g, e, i, j) == MakePte(pp, p % 1024)
    requires 0 <= EntryWord(pp, p) < TWO32 && PteValid(EntryWord(pp, p)) && t == WithWord(g, e, i, j, EntryWord(pp, p))
    requires forall u :: u != LeafUse(e, i, j) && u != TableUse(e, i) ==> SameUse(s, g, u)
    requires Insertable(g, pp)
    ensures Inv(t) <==> Fits(pp, p)
    ensures var w := EntryWord(pp, p); PageMap(t, e) == PageMap(s, e)[i * NPTE + j := (PteFrame(w), PteFlags(w))]
    ensures forall e' :: e' != e ==> PageMap(t, e') == PageMap(s, e')
    ensures |t.mem| == |g.mem| && t.held == g.held && forall f :: Insertable(g, f) ==> t.mem[f] == g.mem[f]
  {
    hide Counted, Partitioned, Sole, InRange, SameBut, SelfMapped, PageMap, EntryWord;
    var w := EntryWord(pp, p);
    assert Live(g, TableUse(e, i)) && Target(g, TableUse(e, i)) == TableOf(g, e, i);
    TableInRange(g, e, i);
    TableWrite(g, t, e, i, j, w);
    PteRoundTrip(pp, p % 1024);
    NamesItsFrameExactly(pp, p);
    if Fits(pp, p) {
      FittingEntry(pp, p);
      assert g.mem[TableOf(g, e, i)][j := w] == g.mem[TableOf(g, e, i)];
      assert t.mem == g.mem;
    } else {
      MisnamedBreaksCore(g, t, e, i, j, w);
    }
    SameThroughBoth(s, g, t, e, i, j);
    InsertedPageMaps(s, t, e, i, j, w);
  }

  lemma SameThroughBoth(s: Mmu, g: Mmu, t: Mmu, e: int, i: int, j: int)
    requires forall u :: u != LeafUse(e, i, j) && u != TableUse(e, i) ==> SameUse(s, g, u)
    requires SameBut(g, t, LeafUse(e, i, j))
    ensures forall u :: u != LeafUse(e, i, j) && u != TableUse(e, i) ==> SameUse(s, t, u)
  {
    forall u | u != LeafUse(e, i, j) && u != TableUse(e, i) ensures SameUse(s, t, u) {
      assert SameUse(s, g, u) && SameUse(g, t, u);
    }
  }

  lemma SetupDone(s: Mmu, m: Mmu, t: Mmu, e: int, f: int, words: Frame)
    requires Inv(s) && s.free != [] && f == s.free[0] && 0 <= f < |s.mem| && m == AllocFrame(s) && e !in s.dir
    requires IsFrame(words) && forall i :: 0 <= i < PDX_UTOP || i == PDX_UVPT ==> words[i] == 0
    requires |m.mem| == |m.ref| == |s.mem| && t == WithDir(m, e, f, words)
    ensures Inv(t) && PageMap(t, e) == map[] && t.held == s.held
    ensures forall e' :: e' != e ==> PageMap(t, e') == PageMap(s, e')
  {
    assert f in s.free && f !in s.held;
    hide Counted, Partitioned, Sole, InRange, SelfMapped, SameBut, SameUses;
    AllocKeepsCore(s, m);
    WithDirKeeps(m, t, e, f, words);
    assert SelfMapped(t, e) by { assert words[PDX_UVPT] == 0; SelfMapUnset(t, e); }
    NewFrameKeepsSelfMaps(s, t, e, f);
    SetupPageMaps(s, m, t, e);
  }

  lemma SelfMapUnset(s: Mmu, e: int)
    requires e in s.dir && !PteValid(DirWord(s, e, PDX_UVPT))
    ensures SelfMapped(s, e)
  {}

  lemma SetupPageMaps(s: Mmu, m: Mmu, t: Mmu, e: int)
    requires SameUses(s, m) && SameBut(m, t, DirUse(e)) && forall i :: !Live(t, TableUse(e, i))
    ensures PageMap(t, e) == map[]
    ensures forall e' :: e' != e ==> PageMap(t, e') == PageMap(s, e')
  {
    forall e' | e' != e ensures PageMap(t, e') == PageMap(s, e') {
      forall i, j ensures SameUse(s, t, LeafUse(e', i, j)) {
        assert SameUse(s, m, LeafUse(e', i, j)) && SameUse(m, t, LeafUse(e', i, j));
      }
      SameLeavesSamePageMap(s, t, e');
    }
    forall i, j ensures !Live(t, LeafUse(e, i, j)) {
      assert !Live(t, TableUse(e, i));
    }
  }

  /** Writing a frame that nothing named leaves the self-maps of the other envs alone. */
  lemma NewFrameKeepsSelfMaps(s: Mmu, t: Mmu, e: int, f: int)
    requires forall u :: Live(s, u) ==> Target(s, u) != f
    requires |t.mem| == |s.mem| && forall g :: 0 <= g < |s.mem| && g != f ==> t.mem[g] == s.mem[g]
    requires forall e' :: e' in s.dir && e' != e ==> e' in t.dir && t.dir[e'] == s.dir[e']
    requires forall e' :: e' in s.dir && e' != e ==>
      (e' in t.copy <==> e' in s.copy) && (e' in s.copy ==> t.copy[e'] == s.copy[e'])
    ensures forall e' :: e' in s.dir && e' != e && SelfMapped(s, e') ==> SelfMapped(t, e')
  {
    forall e' | e' in s.dir && e' != e && SelfMapped(s, e') ensures SelfMapped(t, e') {
      assert Live(s, DirUse(e')) && Target(s, DirUse(e')) == s.dir[e'] != f;
      if e' in s.copy {
        assert Live(s, CopyUse(e')) && Target(s, CopyUse(e')) == s.copy[e'] != f;
        forall i ensures Word(t, s.copy[e'], i) == Word(s, s.copy[e'], i) {
        }
      }
      forall i ensures DirWord(t, e', i) == DirWord(s, e', i) {
      }
    }
  }

  /** A state on the way from `s0` to the state without env e: the first n directory entries of e are
      gone, nothing of any other env has changed. */
  ghost predicate Tearing(s0: Mmu, s: Mmu, e: int, n: int) {
    Core(s) && s.dir == s0.dir && (s.copy == s0.copy || s.copy == s0.copy - {e}) &&
    s.held == s0.held && s.boot == s0.boot && e in s.dir && |s.mem| == |s0.mem| &&
    (forall u: Use :: u.e != e ==> SameUse(s0, s, u)) &&
    (forall i :: 0 <= i < n ==> !Live(s, TableUse(e, i))) &&
    (forall e' :: e' in s.dir && e' != e ==> SelfMapped(s, e'))
  }

  /** What env_free achieves: exactly env e's uses are gone. Every frame's count drops by its number of
      uses by e, a frame becomes free just when e was its only user, and all other page maps stay. */
  ghost predicate Freed(s: Mmu, t: Mmu, e: int) {
    |t.ref| == |s.ref| &&
    (forall f :: 0 <= f < |s.ref| ==> t.ref[f] == s.ref[f] - |UsesBy(s, f, e)|) &&
    (forall f :: f in t.free <==> f in s.free || (0 <= f < |s.ref| && s.ref[f] > 0 && s.ref[f] == |UsesBy(s, f, e)|)) &&
    (forall e' :: e' != e ==> PageMap(t, e') == PageMap(s, e'))
  }

  ghost function UsesBy(s: Mmu, f: int, e: int): (r: set<Use>)
    ensures forall u :: u in r <==> Live(s, u) && Target(s, u) == f && u.e == e
  {
    set u | u in UsesOf(s, f) && u.e == e
  }

  lemma TearingStarts(s: Mmu, e: int)
    requires Inv(s) && e in s.dir
    ensures Tearing(s, s, e, 0)
  {}

  lemma TearLeaf(s0: Mmu, s: Mmu, t: Mmu, e: int, i: int, j: int)
    requires Tearing(s0, s, e, i) && Live(s, TableUse(e, i)) && t == Removed(s, e, i, j)
    ensures Tearing(s0, t, e, i) && Live(t, TableUse(e, i)) && TableOf(t, e, i) == TableOf(s, e, i)
    ensures !Live(t, LeafUse(e, i, j))
    ensures forall j' :: !Live(s, LeafUse(e, i, j')) ==> !Live(t, LeafUse(e, i, j'))
  {
    hide Counted, Partitioned, Sole, InRange;
    RemovedKeeps(s, t, e, i, j);
    assert SameUse(s, t, TableUse(e, i));
    assert Target(s, TableUse(e, i)) == TableOf(s, e, i) && Target(t, TableUse(e, i)) == TableOf(t, e, i);
    forall u: Use | u.e != e ensures SameUse(s0, t, u) {
      assert SameUse(s0, s, u) && SameUse(s, t, u);
    }
    forall i' | 0 <= i' < i ensures !Live(t, TableUse(e, i')) {
      assert SameUse(s, t, TableUse(e, i'));
    }
    forall j' | !Live(s, LeafUse(e, i, j')) ensures !Live(t, LeafUse(e, i, j')) {
      if j' != j { assert SameUse(s, t, LeafUse(e, i, j')); }
    }
  }

  lemma TearTable(s0: Mmu, s: Mmu, t: Mmu, e: int, i: int, f: int)
    requires Tearing(s0, s, e, i) && Live(s, TableUse(e, i)) && f == TableOf(s, e, i) && 0 <= f < |s.ref|
    requires forall j :: 0 <= j < NPTE ==> !Live(s, LeafUse(e, i, j))
    requires 0 <= s.dir[e] < |s.mem| && |s.mem[s.dir[e]]| == NPTE && t == WithoutTable(s, e, i, f)
    ensures Tearing(s0, t, e, i + 1)
  {
    hide Counted, Partitioned, Sole, InRange;
    WithoutTableKeepsCore(s, t, e, i, f);
    forall u: Use | u.e != e ensures SameUse(s0, t, u) {
      assert SameUse(s0, s, u) && SameUse(s, t, u);
    }
    forall i' | 0 <= i' <= i ensures !Live(t, TableUse(e, i')) {
      if i' < i { assert SameUse(s, t, TableUse(e, i')); }
    }
    DirWriteKeepsSelfMaps(s, t, e);
  }

  /** A step that changes at most env e's directory frame leaves the other self-maps alone. */
  lemma DirWriteKeepsSelfMaps(s: Mmu, t: Mmu, e: int)
    requires Structure(s) && e in s.dir && |t.mem| == |s.mem|
    requires forall g :: 0 <= g < |s.mem| && g != s.dir[e] ==> t.mem[g] == s.mem[g]
    requires t.dir == s.dir && t.copy - {e} == s.copy - {e}
    ensures forall e' :: e' in s.dir && e' != e && SelfMapped(s, e') ==> SelfMapped(t, e')
  {
    assert Live(s, DirUse(e)) && Target(s, DirUse(e)) == s.dir[e];
    forall e' | e' in s.dir && e' != e && SelfMapped(s, e') ensures SelfMapped(t, e') {
      assert Live(s, DirUse(e')) && Target(s, DirUse(e')) == s.dir[e'];
      assert e' in s.copy <==> e' in s.copy - {e};
      assert e' in t.copy <==> e' in t.copy - {e};
      if e' in s.copy {
        assert Live(s, CopyUse(e')) && Target(s, CopyUse(e')) == s.copy[e'];
        assert t.copy[e'] == (t.copy - {e})[e'];
        forall i ensures Word(t, s.copy[e'], i) == Word(s, s.copy[e'], i) {
        }
      }
      forall i ensures DirWord(t, e', i) == DirWord(s, e', i) {
      }
    }
  }

  lemma TearCopy(s0: Mmu, s: Mmu, t: Mmu, e: int)
    requires Tearing(s0, s, e, PDX_UTOP) && s.copy == s0.copy
    requires t == if e in s.copy then WithoutCopy(s, e) else s
    ensures Tearing(s0, t, e, PDX_UTOP) && t.copy == s0.copy - {e}
  {
    hide Counted, Partitioned, Sole, InRange;
    if e in s.copy {
      WithoutCopyKeeps(s, t, e);
      forall u: Use | u.e != e ensures SameUse(s0, t, u) {
        assert SameUse(s0, s, u) && SameUse(s, t, u);
      }
      forall i | 0 <= i < PDX_UTOP ensures !Live(t, TableUse(e, i)) {
        assert SameUse(s, t, TableUse(e, i));
      }
      DirWriteKeepsSelfMaps(s, t, e);
    }
  }

  lemma TearDone(s0: Mmu, s: Mmu, t: Mmu, e: int)
    requires Inv(s0) && Tearing(s0, s, e, PDX_UTOP) && s.copy == s0.copy - {e} && t == WithoutDir(s, e)
    ensures Inv(t) && Freed(s0, t, e)
  {
    hide Counted, Partitioned, Sole, InRange;
    forall i ensures !Live(s, TableUse(e, i)) {
    }
    WithoutDirKeeps(s, t, e);
    forall u: Use | u.e != e ensures SameUse(s0, t, u) {
      assert SameUse(s0, s, u) && SameUse(s, t, u);
    }
    forall e' | e' in t.dir ensures SelfMapped(t, e') {
      assert SelfMapped(s, e');
      SelfMapsOnlyReadMemory(s, t, e');
    }
    FreedExactly(s0, t, e);
  }

  lemma SelfMapsOnlyReadMemory(s: Mmu, t: Mmu, e: int)
    requires e in s.dir && e in t.dir && s.dir[e] == t.dir[e] && s.mem == t.mem && s.copy == t.copy
    requires SelfMapped(s, e)
    ensures SelfMapped(t, e)
  {
    forall i ensures DirWord(t, e, i) == DirWord(s, e, i) {
    }
  }

  lemma FreedExactly(s: Mmu, t: Mmu, e: int)
    requires Core(s) && Core(t) && e !in t.dir && |t.mem| == |s.mem| && t.boot == s.boot && t.held == s.held
    requires forall u: Use :: u.e != e ==> SameUse(s, t, u)
    ensures Freed(s, t, e)
  {
    forall f | 0 <= f < |s.ref| ensures t.ref[f] == s.ref[f] - |UsesBy(s, f, e)| && t.ref[f] >= 0 {
      FreedCount(s, t, e, f);
    }
    forall e' | e' != e ensures PageMap(t, e') == PageMap(s, e') {
      SameLeavesSamePageMap(s, t, e');
    }
  }

  lemma FreedCount(s: Mmu, t: Mmu, e: int, f: int)
    requires e !in t.dir && forall u: Use :: u.e != e ==> SameUse(s, t, u)
    ensures |UsesOf(t, f)| == |UsesOf(s, f)| - |UsesBy(s, f, e)|
  {
    var a, b, c := UsesOf(s, f), UsesOf(t, f), UsesBy(s, f, e);
    forall u: Use ensures u in a <==> u in b || u in c {
      if u.e != e { assert SameUse(s, t, u); }
    }
    assert a == b + c && b !! c;
  }

  lemma CopyInRange(s: Mmu, e: int)
    requires Structure(s) && e in s.copy
    ensures 0 <= s.copy[e] < |s.mem| && IsFrame(s.mem[s.copy[e]]) && e in s.dir && s.copy[e] != s.dir[e]
  {
    assert Live(s, CopyUse(e)) && Target(s, CopyUse(e)) == s.copy[e];
    assert Live(s, DirUse(e)) && Target(s, DirUse(e)) == s.dir[e];
  }

  /** Taking a frame for the directory copy of env e. */
  lemma CopyMade(s: Mmu, m: Mmu, t: Mmu, e: int, f: int)
    requires Inv(s) && s.free != [] && f == s.free[0] && 0 <= f < |s.mem| && m == AllocFrame(s)
    requires e in s.dir && e !in s.copy && |m.ref| == |s.ref| == |s.mem| && t == WithCopy(m, e, f)
    ensures Core(t) && t.held == s.held
    ensures forall e' :: e' in t.dir && e' != e ==> SelfMapped(t, e')
    ensures forall e' :: PageMap(t, e') == PageMap(s, e')
  {
    assert f in s.free && f !in s.held;
    hide Counted, Partitioned, Sole, InRange, SelfMapped, SameBut, SameUses;
    AllocKeepsCore(s, m);
    WithCopyKeeps(m, t, e, f);
    NewFrameKeepsSelfMaps(s, t, e, f);
    CopyPageMaps(s, m, t, e);
  }

  lemma CopyPageMaps(s: Mmu, m: Mmu, t: Mmu, e: int)
    requires SameUses(s, m) && SameBut(m, t, CopyUse(e))
    ensures forall e' :: PageMap(t, e') == PageMap(s, e')
  {
    forall e' ensures PageMap(t, e') == PageMap(s, e') {
      forall i, j ensures SameUse(s, t, LeafUse(e', i, j)) {
        assert SameUse(s, m, LeafUse(e', i, j)) && SameUse(m, t, LeafUse(e', i, j));
      }
      SameLeavesSamePageMap(s, t, e');
    }
  }

  /** Filling the copy and pointing the directory at it establishes the self-map and changes no use. */
  lemma SelfMapMade(c: Mmu, t: Mmu, e: int, w: Frame, dw: Frame)
    requires Core(c) && e in c.copy && e in c.dir && 0 <= c.copy[e] < |c.mem| && 0 <= c.dir[e] < |c.mem|
    requires IsFrame(w) && IsFrame(dw) && |c.mem[c.dir[e]]| == NPTE
    requires t == Mmu(c.mem[c.copy[e] := w][c.dir[e] := dw], c.ref, c.free, c.dir, c.copy, c.held, c.boot)
    requires dw == c.mem[c.dir[e]][PDX_UVPT := MakePte(c.copy[e], 0)] && 0 <= MakePte(c.copy[e], 0) < TWO32
    requires forall i :: 0 <= i < NPTE && i != PDX_UVPT ==> EntryAgrees(w[i], c.mem[c.dir[e]][i])
    requires EntryAgrees(w[PDX_UVPT], MakePte(c.dir[e], 0))
    requires forall e' :: e' in c.dir && e' != e ==> SelfMapped(c, e')
    ensures Inv(t)
    ensures forall e' :: PageMap(t, e') == PageMap(c, e')
  {
    hide Counted, Partitioned, Sole, InRange, SelfMapped;
    var p := c.copy[e];
    CopyInRange(c, e);
    var x := Mmu(c.mem[p := w], c.ref, c.free, c.dir, c.copy, c.held, c.boot);
    CopyWrite(c, x, e, w);
    SameUsesKeepCore(c, x);
    DirWrite(x, t, e, PDX_UVPT, MakePte(p, 0));
    forall v ensures SameUse(x, t, v) {
    }
    SameUsesKeepCore(x, t);
    forall v ensures SameUse(c, t, v) {
      assert SameUse(c, x, v) && SameUse(x, t, v);
    }
    forall e' ensures PageMap(t, e') == PageMap(c, e') {
      SameLeavesSamePageMap(c, t, e');
    }
    forall e' | e' in c.dir && e' != e ensures SelfMapped(t, e') {
      SelfMapsKept(c, x, p, e');
      assert Live(x, DirUse(e)) && Live(x, DirUse(e'));
      CopyAndDirsDiffer(x, e, e');
      SelfMapsKept(x, t, c.dir[e], e');
    }
    SelfMapEstablished(t, e, w, dw);
  }

  lemma CopyAndDirsDiffer(s: Mmu, e: int, e': int)
    requires Structure(s) && e in s.dir && e' in s.dir && e' != e
    ensures s.dir[e'] != s.dir[e] && (e' in s.copy ==> s.copy[e'] != s.dir[e])
  {
    assert Live(s, DirUse(e)) && Target(s, DirUse(e)) == s.dir[e];
    assert Live(s, DirUse(e')) && Target(s, DirUse(e')) == s.dir[e'];
    if e' in s.copy {
      assert Live(s, CopyUse(e')) && Target(s, CopyUse(e')) == s.copy[e'];
    }
  }

  lemma SelfMapEstablished(t: Mmu, e: int, w: Frame, dw: Frame)
    requires e in t.dir && e in t.copy && 0 <= t.dir[e] < |t.mem| && 0 <= t.copy[e] < |t.mem|
    requires t.mem[t.dir[e]] == dw && t.mem[t.copy[e]] == w && |w| == |dw| == NPTE
    requires dw[PDX_UVPT] == MakePte(t.copy[e], 0)
    requires forall i :: 0 <= i < NPTE && i != PDX_UVPT ==> EntryAgrees(w[i], dw[i])
    requires EntryAgrees(w[PDX_UVPT], MakePte(t.dir[e], 0))
    ensures SelfMapped(t, e)
  {
    forall i | 0 <= i < NPTE ensures DirWord(t, e, i) == dw[i] && Word(t, t.copy[e], i) == w[i] {
    }
  }

  /** With no env there is no use: counts equal the boot references. */
  lemma InitialCore(s: Mmu, k: int)
    requires Shape(s) && s.dir == map[] && s.held == {} && 0 <= k <= |s.mem|
    requires forall f :: 0 <= f < |s.mem| ==> s.ref[f] == s.boot[f] == (if f < k then 1 else 0)
    requires |s.free| == |s.mem| - k && forall n :: 0 <= n < |s.mem| - k ==> s.free[n] == |s.mem| - 1 - n
    ensures Inv(s) && forall f :: f in s.free <==> k <= f < |s.mem|
  {
    forall f ensures f in s.free <==> k <= f < |s.mem| {
      if k <= f < |s.mem| {
        assert s.free[|s.mem| - 1 - f] == f;
      }
    }
    forall f ensures UsesOf(s, f) == {} {
    }
  }

  /** A frame just handed out can be inserted, and the allocation changed no page map or self-map. */
  lemma AllocDone(s: Mmu, m: Mmu, e: int, i: int)
    requires Inv(s) && s.free != [] && 0 <= s.free[0] < |s.mem| && m == AllocFrame(s) && e in s.dir
    ensures Inv(m) && Insertable(m, s.free[0]) && m.ref[s.free[0]] == 0 && s.free[0] !in s.held
    ensures DirWord(m, e, i) == DirWord(s, e, i) && m.mem[s.free[0]] == ZeroFrame()
    ensures forall e' :: PageMap(m, e') == PageMap(s, e')
  {
    var f := s.free[0];
    assert f in s.free;
    AllocKeepsCore(s, m);
    hide Counted, Sole, InRange;
    forall e' | e' in m.dir ensures SelfMapped(m, e') {
      assert SelfMapped(s, e') && Live(s, DirUse(e')) && Target(s, DirUse(e')) == s.dir[e'] != f;
      if e' in s.copy {
        assert Live(s, CopyUse(e')) && Target(s, CopyUse(e')) == s.copy[e'] != f;
      }
      SelfMapsKept(s, m, f, e');
    }
    assert Live(s, DirUse(e)) && Target(s, DirUse(e)) == s.dir[e] != f;
    forall e' ensures PageMap(m, e') == PageMap(s, e') {
      SameLeavesSamePageMap(s, m, e');
    }
    forall v | Live(m, v) && !v.LeafUse? ensures Target(m, v) != f {
      assert SameUse(s, m, v);
    }
    assert m.free == s.free[1..] && f !in s.free[1..];
  }

  /** A mapped frame can be mapped again. */
  lemma LeafIsInsertable(s: Mmu, u: Use)
    requires Core(s) && Live(s, u) && u.LeafUse?
    ensures Insertable(s, Target(s, u))
  {
    LiveIsCounted(s, u);
  }

  lemma LeafNotHeld(s: Mmu, u: Use)
    requires Core(s) && Live(s, u)
    ensures Target(s, u) !in s.held
  {
    LiveIsCounted(s, u);
  }
}
