/** The system calls that fork.c uses, on the page tables: the page maps of the kernel are address spaces of
    the copy-on-write machine, and a call changes both in the same way. */
module CowMemory {
  import Sv32
  import Entries
  import PageTables
  import PageSteps
  import Pmap
  import Faults
  import CowProgram
  import opened CowModel

  // ---------- permissions ----------

  function B(b: bool): int { if b then 1 else 0 }

  /** The fields of the low ten bits of an entry; `rest` are V, X, U and the bits between U and COW. */
  function PermOf(w: int): Perm {
    Perm(w / 2 % 2 == 1, w / 4 % 2 == 1, w / 0x100 % 2 == 1, w / 0x200 % 2 == 1, w % 2 + w / 8 % 32 * 8)
  }

  function WordOf(p: Perm): int { p.rest + 2 * B(p.r) + 4 * B(p.w) + 0x100 * B(p.cow) + 0x200 * B(p.lib) }

  predicate RestOk(rest: int) { 0 <= rest < 0x100 && rest / 2 % 2 == 0 && rest / 4 % 2 == 0 }

  /** The fields of a sum of bits. */
  lemma Fields(v: int, r: int, w: int, m: int, c: int, l: int)
    requires 0 <= v < 2 && 0 <= r < 2 && 0 <= w < 2 && 0 <= m < 32 && 0 <= c < 2 && 0 <= l < 2
    ensures var x := v + 2 * r + 4 * w + 8 * m + 0x100 * c + 0x200 * l;
            x % 2 == v && x / 2 % 2 == r && x / 4 % 2 == w && x / 8 % 32 == m && x / 0x100 % 2 == c && x / 0x200 % 2 == l
  {
    var x := v + 2 * r + 4 * w + 8 * m + 0x100 * c + 0x200 * l;
    Sv32.DivByParts(x, r + 2 * w + 4 * m + 0x80 * c + 0x100 * l, v, 2);
    Sv32.DivByParts(x / 2, w + 2 * m + 0x40 * c + 0x80 * l, r, 2);
    Sv32.DivByParts(x, w + 2 * m + 0x40 * c + 0x80 * l, v + 2 * r, 4);
    Sv32.DivByParts(x / 4, m + 0x20 * c + 0x40 * l, w, 2);
    Sv32.DivByParts(x, m + 0x20 * c + 0x40 * l, v + 2 * r + 4 * w, 8);
    Sv32.DivByParts(x / 8, c + 2 * l, m, 0x20);
    Sv32.DivByParts(x, c + 2 * l, v + 2 * r + 4 * w + 8 * m, 0x100);
    Sv32.DivByParts(x / 0x100, l, c, 2);
    Sv32.DivByParts(x, l, v + 2 * r + 4 * w + 8 * m + 0x100 * c, 0x200);
  }

  lemma PermRoundTrip(w: int)
    requires 0 <= w < 1024
    ensures RestOk(PermOf(w).rest) && WordOf(PermOf(w)) == w
  {
    var a := w / 2;
    var b := a / 2;
    var c := b / 2;
    var d := c / 32;
    Fields(w % 2, a % 2, b % 2, c % 32, d % 2, d / 2);
    Fields(w % 2, 0, 0, c % 32, 0, 0);
    assert w == w % 2 + 2 * (a % 2) + 4 * (b % 2) + 8 * (c % 32) + 0x100 * (d % 2) + 0x200 * (d / 2);
  }

  lemma WordRoundTrip(p: Perm)
    requires RestOk(p.rest)
    ensures 0 <= WordOf(p) < 1024 && PermOf(WordOf(p)) == p
  {
    var v, m := RestParts(p.rest);
    Fields(v, B(p.r), B(p.w), m, B(p.cow), B(p.lib));
    assert WordOf(p) == v + 2 * B(p.r) + 4 * B(p.w) + 8 * m + 0x100 * B(p.cow) + 0x200 * B(p.lib);
  }

  lemma RestParts(rest: int) returns (v: int, m: int)
    requires RestOk(rest)
    ensures 0 <= v < 2 && 0 <= m < 32 && rest == v + 8 * m
  {
    var a := rest / 2;
    var b := a / 2;
    v, m := rest % 2, b / 2;
    assert rest == v + 2 * (a % 2) + 4 * (b % 2) + 8 * m;
    Fields(v, a % 2, b % 2, m, 0, 0);
  }

  /** `(perm ^ PTE_W) | PTE_COW` in duppage, `(perm ^ PTE_COW) | PTE_W` in cow_entry, and the rule of
      page_insert, on words and on fields. */
  lemma PermSteps(w: int)
    requires 0 <= w < 1024
    ensures NeedsCow(PermOf(w)) <==> w / 4 % 2 == 1 && w / 0x100 % 2 == 0 && w / 0x200 % 2 == 0
    ensures NeedsCow(PermOf(w)) ==> PermOf(w - 4 + 0x100) == CowPerm(PermOf(w))
    ensures PermOf(w).cow ==> PermOf(w - 0x100 + (if Sv32.HasW(w) then 0 else 4)) == PermOf(w).(cow := false, w := true)
    ensures PermOf(Sv32.InsertPerm(w)) == InsertPerm(PermOf(w)) && 0 <= Sv32.InsertPerm(w) < 1024
  {
    hide RestOk, PermOf;
    var p := PermOf(w);
    PermRoundTrip(w);
    FlagFields(w);
    CowPermWord(p);
    OwnPermWord(p);
    InsertPermWord(p);
    hide WordOf;
  }

  lemma CowPermWord(p: Perm)
    requires RestOk(p.rest)
    ensures NeedsCow(p) ==> PermOf(WordOf(p) - 4 + 0x100) == CowPerm(p)
  {
    hide PermOf;
    WordRoundTrip(CowPerm(p));
  }

  lemma OwnPermWord(p: Perm)
    requires RestOk(p.rest)
    ensures p.cow ==> PermOf(WordOf(p) - 0x100 + (if p.w then 0 else 4)) == p.(cow := false, w := true)
  {
    hide PermOf;
    WordRoundTrip(p.(cow := false, w := true));
  }

  lemma InsertPermWord(p: Perm)
    requires RestOk(p.rest)
    ensures var w := WordOf(p);
            0 <= Sv32.InsertPerm(w) < 1024 && PermOf(Sv32.InsertPerm(w)) == InsertPerm(p)
  {
    WordRoundTrip(p);
    FlagFields(WordOf(p));
    WordRoundTrip(InsertPerm(p));
    hide PermOf, RestOk, Sv32.HasW, Sv32.HasR;
    assert Sv32.InsertPerm(WordOf(p)) == WordOf(InsertPerm(p)) by {
      assert Sv32.Or(WordOf(p), Sv32.PTE_R) == if Sv32.HasR(WordOf(p)) then WordOf(p) else WordOf(p) + 2 by { OrIs(WordOf(p)); }
    }
  }

  lemma OrIs(w: int)
    ensures Sv32.Or(w, Sv32.PTE_R) == if Sv32.HasR(w) then w else w + 2
  {}

  lemma FlagFields(w: int)
    ensures Sv32.HasW(w) == PermOf(w).w && Sv32.HasR(w) == PermOf(w).r
    ensures NeedsCow(PermOf(w)) <==> w / 4 % 2 == 1 && w / 0x100 % 2 == 0 && w / 0x200 % 2 == 0
  {}

  /** What page_insert stores for the permission of a user entry. */
  lemma UserPermStored(f: int, w: int)
    requires 0 <= f < Sv32.MAXPAGES && 0 <= w < 1024 && Sv32.PteValid(w) && Sv32.HasU(w)
    ensures Sv32.Or(w, Sv32.PTE_U) == w && Entries.Fits(f, w)
    ensures Entries.Stored(f, w).0 == f && PermOf(Entries.Stored(f, w).1) == InsertPerm(PermOf(w))
  {
    hide Entries.Stored, Entries.Fits, PermOf;
    Entries.FlagsFit(f, w);
    Entries.StoredFits(f, w);
    PermSteps(w);
    StaysValid(w);
  }

  lemma StaysValid(w: int)
    requires 0 <= w < 1024 && Sv32.PteValid(w)
    ensures w % 1024 == w && Sv32.Or(Sv32.InsertPerm(w), Sv32.PTE_V) == Sv32.InsertPerm(w)
  {}

  // ---------- address spaces ----------

  /** The address space of env e, as the copy-on-write machine sees it. */
  ghost function Space(s: PageTables.Mmu, e: int): map<int, Pte> {
    map v | v in PageTables.PageMap(s, e) :: Pte(PageTables.PageMap(s, e)[v].0, PermOf(PageTables.PageMap(s, e)[v].1))
  }

  /** The bytes of a frame. */
  function Bytes(f: Sv32.Frame): Page
    requires |f| == Sv32.NPTE
  {
    seq(BY2PG, k requires 0 <= k < BY2PG =>
      f[k / 4] / (if k % 4 == 0 then 1 else if k % 4 == 1 then 0x100 else if k % 4 == 2 then 0x1_0000 else 0x100_0000) % 0x100)
  }

  /** The machine has the address spaces of the kernel's envs, and the contents of their pages. */
  ghost predicate Shows(s: PageTables.Mmu, m: State) {
    (forall f :: 0 <= f < |s.mem| ==> f in m.mem) &&
    forall e :: e in m.envs ==> e in s.dir && m.envs[e].space == Space(s, e) && HasContents(s, m, e)
  }

  ghost predicate HasContents(s: PageTables.Mmu, m: State, e: int)
    requires e in m.envs
  {
    forall v :: v in m.envs[e].space ==>
      var f := m.envs[e].space[v].frame;
      0 <= f < |s.mem| && |s.mem[f]| == Sv32.NPTE && f in m.mem && m.mem[f] == Bytes(s.mem[f])
  }

  lemma SpaceUpdated(s: PageTables.Mmu, t: PageTables.Mmu, e: int, v: int, x: (int, int))
    requires PageTables.PageMap(t, e) == PageTables.PageMap(s, e)[v := x]
    ensures Space(t, e) == Space(s, e)[v := Pte(x.0, PermOf(x.1))]
  {}

  lemma SpaceShrunk(s: PageTables.Mmu, t: PageTables.Mmu, e: int, v: int)
    requires PageTables.PageMap(t, e) == PageTables.PageMap(s, e) - {v}
    ensures Space(t, e) == Space(s, e) - {v}
  {}

  /** A mapped frame is a data frame, and mapped twice it stays in use when one of the mappings goes. */
  lemma MappedSurvives(s: PageTables.Mmu, e: int, v: int, d: int, va: int)
    requires PageTables.Inv(s) && v in Space(s, e) && d in s.dir && 0 <= va < Sv32.UTOP && (e != d || v != Sv32.Vpn(va))
    ensures PageSteps.Survives(s, d, Sv32.Pdx(va), Sv32.Ptx(va), Space(s, e)[v].frame)
  {
    var u, w := PageTables.LeafOf(e, v), PageTables.LeafUse(d, Sv32.Pdx(va), Sv32.Ptx(va));
    Sv32.VaParts(va);
    Sv32.DivByParts(Sv32.Vpn(va), Sv32.Pdx(va), Sv32.Ptx(va), 1024);
    assert u != w by { assert v == v / 1024 * 1024 + v % 1024; }
    assert PageTables.Live(s, u) && PageTables.Target(s, u) == Space(s, e)[v].frame;
    Pmap.LeafIsInsertable(s, u);
    if PageTables.Live(s, w) && PageTables.Target(s, w) == PageTables.Target(s, u) { TwiceMapped(s, u, w); }
  }

  lemma TwiceMapped(s: PageTables.Mmu, u: PageTables.Use, w: PageTables.Use)
    requires PageTables.Core(s) && PageTables.Live(s, u) && PageTables.Live(s, w) && u != w
    requires PageTables.Target(s, u) == PageTables.Target(s, w)
    ensures 0 <= PageTables.Target(s, u) < |s.ref| && s.ref[PageTables.Target(s, u)] > 1
  {
    var f := PageTables.Target(s, u);
    TwoInSet(PageTables.UsesOf(s, f), u, w);
    PageTables.TargetInRange(s, u);
    hide PageTables.Structure, PageTables.Partitioned, PageTables.UsesOf, PageTables.Target;
  }

  lemma TwoInSet<T>(a: set<T>, x: T, y: T)
    requires x in a && y in a && x != y
    ensures |a| >= 2
  {
    assert |a - {x, y}| + |{x, y}| == |a|;
  }

  /** The page table of page v is there. */
  ghost predicate HasTable(s: PageTables.Mmu, e: int, v: int)
    requires e in s.dir
  {
    Sv32.PteValid(PageTables.DirWord(s, e, v / 1024))
  }

  /** sys_mem_map for a user permission is the map update of the copy-on-write machine. */
  method MapCall(k: Pmap.Kernel, src: int, sv: int, dst: int, dv: int, w: int) returns (r: int)
    requires k.Valid() && src in k.dir && dst in k.dir && 0 <= sv < UTOP_PN && 0 <= dv < UTOP_PN
    requires 0 <= w < 1024 && Sv32.PteValid(w) && Sv32.HasU(w) && forall f :: 0 <= f < k.npage ==> 0 <= k.ref[f] < 0xFFFF
    modifies k`free, k`held, k.mem, k.ref
    ensures k.Valid() && k.dir == old(k.dir)
    ensures r == 0 <==>
      0x3FE <= sv && 0x3FE <= dv && sv in old(Space(k.View(), src)) && (old(HasTable(k.View(), dst, dv)) || old(k.free) != [])
    ensures r == 0 ==>
      Space(k.View(), dst) == old(Space(k.View(), dst))[dv := Pte(old(Space(k.View(), src))[sv].frame, InsertPerm(PermOf(w)))]
    ensures r == 0 ==> Pmap.FramesKept(old(k.View()), k.View(), dst, dv * BY2PG)
    ensures r == 0 ==>
      var f := old(Space(k.View(), src))[sv].frame; 0 <= f < k.npage && k.mem[f] == old(k.mem[..])[f]
    ensures r != 0 ==> k.View() == old(k.View())
    ensures forall e :: e != dst ==> Space(k.View(), e) == old(Space(k.View(), e))
  {
    hide PageTables.Inv, PageTables.PageMap, PermOf, Entries.Stored, Entries.Fits, Pmap.FramesKept;
    ghost var s := k.View();
    PageNumber(sv);
    PageNumber(dv);
    r := k.SysMemMap(src, sv * BY2PG, dst, dv * BY2PG, w);
    if r == 0 {
      MapPermKept(s, src, sv, w);
      SpaceUpdated(s, k.View(), dst, dv, Entries.Stored(PageTables.PageMap(s, src)[sv].0, w));
    }
  }

  lemma PageNumber(v: int)
    requires 0 <= v < UTOP_PN
    ensures 0 <= v * BY2PG < Sv32.UTOP && Sv32.Vpn(v * BY2PG) == v && Sv32.Pdx(v * BY2PG) == v / 1024
    ensures 0x3FE <= v <==> 0x3F_E000 <= v * BY2PG
  {
    Sv32.DivByParts(v * BY2PG, v, 0, BY2PG);
    Sv32.DivByParts(v * BY2PG, v / 1024, v % 1024 * BY2PG, Sv32.PDMAP);
  }

  lemma MapPermKept(s: PageTables.Mmu, e: int, v: int, w: int)
    requires PageTables.Inv(s) && v in PageTables.PageMap(s, e) && 0 <= w < 1024 && Sv32.PteValid(w) && Sv32.HasU(w)
    ensures var f := PageTables.PageMap(s, e)[v].0;
            0 <= f < Sv32.MAXPAGES && Sv32.Or(w, Sv32.PTE_U) == w && Entries.Fits(f, w) &&
            Entries.Stored(f, w).0 == f && PermOf(Entries.Stored(f, w).1) == InsertPerm(PermOf(w))
  {
    PageTables.TargetInRange(s, PageTables.LeafOf(e, v));
    UserPermStored(PageTables.PageMap(s, e)[v].0, w);
  }

  /** So the map calls of duppage and cow_entry do on the page tables what they do in the machine. */
  method MapBoth(k: Pmap.Kernel, m: CowProgram.Machine, src: int, sv: int, dst: int, dv: int, w: int) returns (r: int)
    requires k.Valid() && Shows(k.View(), m.View()) && Maps(m.View(), src, sv) && dst in m.envs
    requires 0 <= sv < UTOP_PN && 0 <= dv < UTOP_PN && 0 <= w < 1024 && Sv32.PteValid(w) && Sv32.HasU(w)
    requires forall f :: 0 <= f < k.npage ==> 0 <= k.ref[f] < 0xFFFF
    modifies k`free, k`held, k.mem, k.ref, m`envs
    ensures k.Valid() && Shows(k.View(), m.View())
    ensures r == 0 <==> 0x3FE <= sv && 0x3FE <= dv && (old(HasTable(k.View(), dst, dv)) || old(k.free) != [])
    ensures r == 0 ==> m.envs == old(m.envs)[dst := MapPage(old(m.envs)[dst], dv, old(Entry(m.View(), src, sv)).frame, PermOf(w))]
    ensures r != 0 ==> m.envs == old(m.envs)
  {
    hide PageTables.Inv, Space, PermOf, Pmap.FramesKept, HasContents;
    ghost var s, q := k.View(), m.View();
    r := MapCall(k, src, sv, dst, dv, w);
    if r == 0 {
      m.MemMap(src, sv, dst, dv, PermOf(w));
      ShowsAfterMap(s, k.View(), q, m.View(), src, sv, dst, dv, InsertPerm(PermOf(w)));
    }
  }

  lemma ShowsAfterMap(s: PageTables.Mmu, t: PageTables.Mmu, q: State, p: State, src: int, sv: int, dst: int, dv: int, perm: Perm)
    requires PageTables.Inv(s) && PageTables.Inv(t) && t.dir == s.dir && |t.mem| == |s.mem| && Shows(s, q) && Maps(q, src, sv)
    requires dst in q.envs && 0 <= dv < UTOP_PN && p.mem == q.mem
    requires Space(t, dst) == Space(s, dst)[dv := Pte(Entry(q, src, sv).frame, perm)]
    requires forall e :: e != dst ==> Space(t, e) == Space(s, e)
    requires Pmap.FramesKept(s, t, dst, dv * BY2PG)
    requires var f := Entry(q, src, sv).frame; 0 <= f < |s.mem| && t.mem[f] == s.mem[f]
    requires p.envs == q.envs[dst := q.envs[dst].(space := Space(t, dst))]
    ensures Shows(t, p)
  {
    hide PageTables.Inv, Space, Bytes;
    PageNumber(dv);
    forall e | e in p.envs ensures e in t.dir && p.envs[e].space == Space(t, e) && HasContents(t, p, e) {
      assert HasContents(s, q, e) && HasContents(s, q, src);
      forall v | v in p.envs[e].space && (e != dst || v != dv)
        ensures var f := p.envs[e].space[v].frame; 0 <= f < |s.mem| && f < |t.mem| && t.mem[f] == s.mem[f]
      {
        MappedSurvives(s, e, v, dst, dv * BY2PG);
      }
    }
  }

  /** sys_mem_alloc for a user permission: a zero page in a frame that nobody maps. */
  method AllocCall(k: Pmap.Kernel, e: int, v: int, w: int) returns (r: int, f: int)
    requires k.Valid() && e in k.dir && 0 <= v < UTOP_PN && 0 <= w < 1024 && Sv32.PteValid(w) && Sv32.HasU(w)
    modifies k`free, k`held, k.mem, k.ref
    ensures k.Valid() && k.dir == old(k.dir)
    ensures r == 0 <==> 0x3FE <= v && old(k.free) != [] && (old(HasTable(k.View(), e, v)) || |old(k.free)| > 1)
    ensures r == 0 ==> 0 <= f < k.npage && k.mem[f] == PageTables.ZeroFrame() && old(NoneMaps(k.View(), f))
    ensures r == 0 ==> Space(k.View(), e) == old(Space(k.View(), e))[v := Pte(f, InsertPerm(PermOf(w)))]
    ensures r == 0 ==> Pmap.FramesKept(old(k.View()), k.View(), e, v * BY2PG)
    ensures forall e' :: e' != e || r != 0 ==> Space(k.View(), e') == old(Space(k.View(), e'))
  {
    hide PageTables.Inv, PageTables.PageMap, PermOf, Entries.Stored, Entries.Fits, Pmap.FramesKept, Pmap.Named, NoneMaps;
    ghost var s := k.View();
    PageNumber(v);
    f := if k.free == [] then -1 else k.free[0];
    r := k.SysMemAlloc(e, v * BY2PG, w);
    if r == 0 {
      NotNamed(s, f);
      UserPermStored(f, w);
      SpaceUpdated(s, k.View(), e, v, Entries.Stored(f, w));
    }
  }

  ghost predicate NoneMaps(s: PageTables.Mmu, f: int) {
    forall e, v :: v in Space(s, e) ==> Space(s, e)[v].frame != f
  }

  lemma NotNamed(s: PageTables.Mmu, f: int)
    requires PageTables.Inv(s) && s.free != [] && f == s.free[0] && f !in Pmap.Named(s)
    ensures NoneMaps(s, f) && 0 <= f < Sv32.MAXPAGES
  {
    Pmap.FreeHead(s);
  }

  /** sys_mem_alloc for the work page of the fault handler, on both sides. */
  method AllocBoth(k: Pmap.Kernel, m: CowProgram.Machine, e: int, v: int, w: int) returns (r: int, f: int)
    requires k.Valid() && Shows(k.View(), m.View()) && Running(m.View(), e) && 0 <= w < 1024 && Sv32.PteValid(w) && Sv32.HasU(w)
    requires m.envs[e].cow == Saved(v, InsertPerm(PermOf(w)))
    modifies k`free, k`held, k.mem, k.ref, m`envs, m`mem
    ensures k.Valid()
    ensures r == 0 <==> old(k.free) != [] && (old(HasTable(k.View(), e, UCOW_PN)) || |old(k.free)| > 1)
    ensures r == 0 ==> Shows(k.View(), m.View()) && old(Enabled(m.View(), CowAlloc(e, f)))
    ensures r == 0 ==> m.View() == After(old(m.View()), CowAlloc(e, f))
  {
    hide PageTables.Inv, Space, PermOf, Pmap.FramesKept, HasContents, NoneMaps, Bytes;
    ghost var s, q := k.View(), m.View();
    r, f := AllocCall(k, e, UCOW_PN, w);
    if r == 0 {
      UnmappedIsUnused(s, q, f);
      m.AllocWorkPage(e, v, PermOf(w), f);
      ShowsAfterAlloc(s, k.View(), q, m.View(), e, UCOW_PN, f, InsertPerm(PermOf(w)));
    }
  }

  lemma UnmappedIsUnused(s: PageTables.Mmu, q: State, f: int)
    requires Shows(s, q) && NoneMaps(s, f) && 0 <= f < |s.mem|
    ensures Unused(q, f)
  {
    hide Space, HasContents;
  }

  lemma ShowsAfterAlloc(s: PageTables.Mmu, t: PageTables.Mmu, q: State, p: State, d: int, dv: int, f: int, perm: Perm)
    requires PageTables.Inv(s) && PageTables.Inv(t) && t.dir == s.dir && |t.mem| == |s.mem| && Shows(s, q)
    requires d in q.envs && 0 <= dv < UTOP_PN && 0 <= f < |s.mem| && p.mem == q.mem[f := ZeroPage()]
    requires Space(t, d) == Space(s, d)[dv := Pte(f, perm)] && NoneMaps(s, f) && t.mem[f] == PageTables.ZeroFrame()
    requires forall e :: e != d ==> Space(t, e) == Space(s, e)
    requires Pmap.FramesKept(s, t, d, dv * BY2PG)
    requires p.envs.Keys == q.envs.Keys && p.envs[d].space == Space(t, d) && forall e :: e in q.envs && e != d ==> p.envs[e] == q.envs[e]
    ensures Shows(t, p)
  {
    hide PageTables.Inv, Space;
    PageNumber(dv);
    assert Bytes(PageTables.ZeroFrame()) == ZeroPage();
    hide Bytes;
    forall e | e in p.envs ensures e in t.dir && p.envs[e].space == Space(t, e) && HasContents(t, p, e) {
      assert e in q.envs.Keys && HasContents(s, q, e);
      forall v | v in p.envs[e].space && (e != d || v != dv)
        ensures var g := p.envs[e].space[v].frame; g != f && 0 <= g < |s.mem| && g < |t.mem| && t.mem[g] == s.mem[g]
      {
        MappedSurvives(s, e, v, d, dv * BY2PG);
      }
    }
  }

  /** sys_mem_unmap of the work page, on both sides. */
  method DropBoth(k: Pmap.Kernel, m: CowProgram.Machine, e: int)
    requires k.Valid() && Shows(k.View(), m.View()) && Enabled(m.View(), CowUnmap(e))
    modifies k`free, k`held, k.mem, k.ref, m`envs
    ensures k.Valid() && Shows(k.View(), m.View()) && m.View() == After(old(m.View()), CowUnmap(e))
  {
    hide PageTables.Inv, PageTables.PageMap, Space, PermOf, Pmap.FramesKept, HasContents, Bytes;
    ghost var s, q := k.View(), m.View();
    PageNumber(UCOW_PN);
    var r := k.SysMemUnmap(e, UCOW_PN * BY2PG);
    m.DropWorkPage(e);
    SpaceShrunk(s, k.View(), e, UCOW_PN);
    forall e' | e' != e ensures Space(k.View(), e') == Space(s, e') { SameSpace(s, k.View(), e'); }
    ShowsAfterDrop(s, k.View(), q, m.View(), e, UCOW_PN);
  }

  lemma SameSpace(s: PageTables.Mmu, t: PageTables.Mmu, e: int)
    requires PageTables.PageMap(t, e) == PageTables.PageMap(s, e)
    ensures Space(t, e) == Space(s, e)
  {}

  lemma ShowsAfterDrop(s: PageTables.Mmu, t: PageTables.Mmu, q: State, p: State, d: int, dv: int)
    requires PageTables.Inv(s) && PageTables.Inv(t) && t.dir == s.dir && |t.mem| == |s.mem| && Shows(s, q)
    requires d in q.envs && 0 <= dv < UTOP_PN && p.mem == q.mem && Space(t, d) == Space(s, d) - {dv}
    requires forall e :: e != d ==> Space(t, e) == Space(s, e)
    requires Pmap.FramesKept(s, t, d, dv * BY2PG)
    requires p.envs.Keys == q.envs.Keys && p.envs[d].space == Space(t, d) && forall e :: e in q.envs && e != d ==> p.envs[e] == q.envs[e]
    ensures Shows(t, p)
  {
    hide PageTables.Inv, Space, Bytes;
    PageNumber(dv);
    forall e | e in p.envs ensures e in t.dir && p.envs[e].space == Space(t, e) && HasContents(t, p, e) {
      assert e in q.envs.Keys && HasContents(s, q, e);
      forall v | v in p.envs[e].space
        ensures var g := p.envs[e].space[v].frame; 0 <= g < |s.mem| && g < |t.mem| && t.mem[g] == s.mem[g]
      {
        MappedSurvives(s, e, v, d, dv * BY2PG);
      }
    }
  }

  // ---------- page faults ----------

  /** The test of do_tlb_miss on the low ten bits of an entry is the COW field of the machine. */
  lemma CowBitIsCow(cause: int, w: int)
    requires 0 <= w < 1024
    ensures Pmap.Exists(cause, w) == Pmap.ToCowHandler <==> cause == Faults.STORE && PermOf(w).cow
    ensures PermOf(w).cow <==> w / 0x100 % 2 == 1
  {
    Faults.HandlerOnlyForCowStores(cause, w);
  }

  lemma FilledPerm()
    ensures PermOf(23) == Perm(true, true, false, false, 17)
    ensures InsertPerm(PermOf(23)) == PermOf(23) && PermOk(PermOf(23))
  {}

  lemma MappedCow(s: PageTables.Mmu, q: State, e: int, v: int)
    requires Shows(s, q) && e in q.envs
    ensures Maps(q, e, v) <==> v in PageTables.PageMap(s, e)
    ensures Maps(q, e, v) ==>
      Entry(q, e, v).frame == PageTables.PageMap(s, e)[v].0 &&
      (Entry(q, e, v).perm.cow <==> PageTables.PageMap(s, e)[v].1 / 0x100 % 2 == 1)
  {}

  /** A fault of user code, on both sides: a store to a copy-on-write page goes to the handler of fork.c, whose
      first step is then enabled; an unmapped page in reach becomes a zero page; every other fault panics. */
  method FaultBoth(k: Pmap.Kernel, m: CowProgram.Machine, e: int, va: int, cause: int) returns (r: Pmap.Miss)
    requires k.Valid() && Shows(k.View(), m.View()) && 0 <= va < Sv32.UTOP
    requires UserCode(m.View(), e, va / BY2PG) && !InTransit(m.View(), e, va / BY2PG)
    modifies k`free, k`held, k`copy, k`boot, k.mem, k.ref, m`envs, m`mem
    ensures k.Valid()
    ensures r == Pmap.ToCowHandler <==>
      cause == Faults.STORE && old(Maps(m.View(), e, va / BY2PG)) && old(Entry(m.View(), e, va / BY2PG)).perm.cow
    ensures r == Pmap.ToCowHandler && old(m.envs[e].cow.Idle?) ==> Enabled(m.View(), CowFault(e, va / BY2PG))
    ensures r == Pmap.Mapped <==>
      !old(Maps(m.View(), e, va / BY2PG)) && Faults.GetsPage(va, cause) && old(k.free) != [] &&
      (old(HasTable(k.View(), e, va / BY2PG)) || |old(k.free)| > 1)
    ensures r == Pmap.Mapped ==>
      var fill := Alloc(e, va / BY2PG, PermOf(23), old(k.free)[0]);
      old(Enabled(m.View(), fill)) && m.View() == After(old(m.View()), fill)
    ensures r != Pmap.Mapped ==> m.View() == old(m.View())
    ensures r == Pmap.Mapped || old(Maps(m.View(), e, va / BY2PG)) ==> Shows(k.View(), m.View())
  {
    hide PageTables.Inv, PageTables.PageMap, Space, PermOf, Pmap.FramesKept, HasContents, NoneMaps, Bytes, Pmap.Named, Faults.GetsPage;
    ghost var s, q := k.View(), m.View();
    var v := va / BY2PG;
    var f := if k.free == [] then -1 else k.free[0];
    MappedCow(s, q, e, v);
    PageOfAddress(va);
    r := Faults.UserFault(k, va, cause, e);
    if r == Pmap.Mapped {
      NotNamed(s, f);
      UnmappedIsUnused(s, q, f);
      FilledPerm();
      m.FillPage(e, v, PermOf(23), f);
      SpaceUpdated(s, k.View(), e, v, (f, 23));
      forall e' | e' != e ensures Space(k.View(), e') == Space(s, e') { SameSpace(s, k.View(), e'); }
      ShowsAfterAlloc(s, k.View(), q, m.View(), e, v, f, PermOf(23));
    }
  }

  lemma PageOfAddress(va: int)
    requires 0 <= va < Sv32.UTOP
    ensures va / BY2PG == Sv32.Vpn(va) && 0 <= va / BY2PG < UTOP_PN && Sv32.Pdx(va) == va / BY2PG / 1024
  {
    Sv32.VaParts(va);
    Sv32.DivByParts(va / BY2PG, Sv32.Pdx(va), Sv32.Ptx(va), 1024);
  }
}
