/** What each write to a table, directory or frame does to the uses, to the invariant and to every
    env's page map. The methods of Pmap take exactly these steps. */
module PageSteps {
  import opened Sv32
  import opened PageTables
  import opened Entries

  ghost function WriteWord(s: Mmu, f: int, i: int, w: int): Mmu
    requires 0 <= f < |s.mem| && 0 <= i < |s.mem[f]|
  {
    Mmu(s.mem[f := s.mem[f][i := w]], s.ref, s.free, s.dir, s.copy, s.held, s.boot)
  }

  ghost function Release(s: Mmu, f: int): Mmu
    requires 0 <= f < |s.ref|
  {
    Mmu(s.mem, s.ref[f := s.ref[f] - 1], if s.ref[f] == 1 then [f] + s.free else s.free, s.dir, s.copy, s.held, s.boot)
  }

  ghost function Retain(s: Mmu, f: int): Mmu
    requires 0 <= f < |s.ref|
  {
    Mmu(s.mem, s.ref[f := s.ref[f] + 1], s.free, s.dir, s.copy, s.held - {f}, s.boot)
  }

  /** A frame that page_insert may map: in use or held, and not part of a translation structure. */
  ghost predicate Insertable(s: Mmu, f: int) {
    0 <= f < |s.mem| && f !in s.free && forall v :: Live(s, v) && !v.LeafUse? ==> Target(s, v) != f
  }

  // ---------- single writes ----------

  /** Writing word j of the table of (e, i) touches the leaf use (e, i, j) and nothing else. */
  lemma TableWrite(s: Mmu, t: Mmu, e: int, i: int, j: int, w: int)
    requires Structure(s) && Live(s, TableUse(e, i)) && 0 <= j < NPTE && 0 <= w < TWO32
    requires 0 <= TableOf(s, e, i) < |s.mem| && t == WriteWord(s, TableOf(s, e, i), j, w)
    ensures Shape(t) && LeafWord(t, e, i, j) == w
    ensures TableOf(t, e, i) == TableOf(s, e, i)
    ensures Live(t, LeafUse(e, i, j)) <==> PteValid(w)
    ensures SameBut(s, t, LeafUse(e, i, j))
  {
    var f := TableOf(s, e, i);
    assert Target(s, TableUse(e, i)) == f;
    forall e' | e' in s.dir ensures s.dir[e'] != f {
      assert Live(s, DirUse(e')) && Target(s, DirUse(e')) == s.dir[e'];
    }
    forall e', i' | e' in s.dir ensures DirWord(t, e', i') == DirWord(s, e', i') {
    }
    forall v: Use | v != LeafUse(e, i, j) ensures SameUse(s, t, v) {
      if v.LeafUse? && Live(s, TableUse(v.e, v.i)) && (v.e, v.i) != (e, i) {
        assert Target(s, TableUse(v.e, v.i)) == TableOf(s, v.e, v.i) != f;
      }
    }
  }

  /** The uses that go through directory entry i of env e. */
  ghost predicate AtEntry(v: Use, e: int, i: int) {
    match v
    case TableUse(e', i') => e' == e && i' == i
    case LeafUse(e', i', j') => e' == e && i' == i
    case _ => false
  }

  /** Writing word i of a directory touches the table use (e, i) and the leaves below it. */
  lemma DirWrite(s: Mmu, t: Mmu, e: int, i: int, w: int)
    requires Structure(s) && e in s.dir && 0 <= i < NPTE && 0 <= w < TWO32
    requires 0 <= s.dir[e] < |s.mem| && t == WriteWord(s, s.dir[e], i, w)
    ensures Shape(t) && DirWord(t, e, i) == w
    ensures forall e', i' :: e' in s.dir && (e', i') != (e, i) ==> DirWord(t, e', i') == DirWord(s, e', i')
    ensures forall v :: !AtEntry(v, e, i) ==> SameUse(s, t, v)
  {
    var d := s.dir[e];
    assert Live(s, DirUse(e)) && Target(s, DirUse(e)) == d;
    forall e' | e' in s.dir && e' != e ensures s.dir[e'] != d {
      assert Live(s, DirUse(e')) && Target(s, DirUse(e')) == s.dir[e'];
    }
    forall e', i' | e' in s.dir && (e', i') != (e, i) ensures DirWord(t, e', i') == DirWord(s, e', i') {
    }
    forall v | !AtEntry(v, e, i) ensures SameUse(s, t, v) {
      if v.LeafUse? && Live(s, TableUse(v.e, v.i)) {
        assert Target(s, TableUse(v.e, v.i)) == TableOf(s, v.e, v.i) != d;
      }
    }
  }

  /** Equal uses and equal counts: the invariant carries over. */
  lemma SameUsesKeepCore(s: Mmu, t: Mmu)
    requires Core(s) && SameUses(s, t) && Shape(t) && |t.mem| == |s.mem|
    requires t.ref == s.ref && t.free == s.free && t.held == s.held && t.boot == s.boot
    ensures Core(t)
  {
    forall f | 0 <= f < |t.mem| ensures UsesOf(t, f) == UsesOf(s, f) {
      CountUnchanged(s, t, f);
    }
  }

  /** Equal leaf entries: equal page maps. */
  lemma SameLeavesSamePageMap(s: Mmu, t: Mmu, e: int)
    requires forall i, j :: SameUse(s, t, LeafUse(e, i, j))
    ensures PageMap(t, e) == PageMap(s, e)
  {
    forall v ensures SameUse(s, t, LeafOf(e, v)) {
    }
  }

  /** Page number `vpn` is the only one whose leaf entry is (i, j). */
  ghost predicate OnlyLeaf(vpn: int, i: int, j: int) {
    0 <= vpn < 509 * 1024 &&
    forall e, v :: LeafOf(e, v) == LeafUse(e, i, j) <==> v == vpn
  }

  lemma LeafIndex(i: int, j: int)
    requires 0 <= i < PDX_UTOP && 0 <= j < NPTE
    ensures OnlyLeaf(i * NPTE + j, i, j)
  {
    var vpn := i * NPTE + j;
    DivByParts(vpn, i, j, NPTE);
    forall e, v ensures LeafOf(e, v) == LeafUse(e, i, j) <==> v == vpn {
      assert v == v / NPTE * NPTE + v % NPTE;
    }
  }

  /** One leaf entry differs: the page maps differ at that page only. */
  lemma OneLeafPageMap(s: Mmu, t: Mmu, e: int, i: int, j: int, vpn: int)
    requires OnlyLeaf(vpn, i, j)
    requires forall v: Use :: v.LeafUse? && v.e == e && v != LeafUse(e, i, j) ==> SameUse(s, t, v)
    ensures Live(t, LeafUse(e, i, j)) ==> PageMap(t, e) == PageMap(s, e)[vpn := EntryOf(t, LeafUse(e, i, j))]
    ensures !Live(t, LeafUse(e, i, j)) ==> PageMap(t, e) == PageMap(s, e) - {vpn}
  {
    assert LeafOf(e, vpn) == LeafUse(e, i, j);
    hide LeafWord, Word, DirWord, TableOf, Live;
    forall v | v != vpn ensures SameUse(s, t, LeafOf(e, v)) {
      assert LeafOf(e, v) != LeafUse(e, i, j);
    }
  }

  // ---------- the steps ----------

  /** `page_alloc`: the head of the free list, zeroed, now held by the caller. */
  ghost function AllocFrame(s: Mmu): Mmu
    requires s.free != [] && 0 <= s.free[0] < |s.mem|
  {
    Mmu(s.mem[s.free[0] := ZeroFrame()], s.ref, s.free[1..], s.dir, s.copy, s.held + {s.free[0]}, s.boot)
  }

  /** Overwriting a frame that no entry names changes no use. */
  lemma UnusedFrameWrite(s: Mmu, t: Mmu, f: int, z: Frame)
    requires Structure(s) && 0 <= f < |s.mem| && IsFrame(z)
    requires t.mem == s.mem[f := z] && t.dir == s.dir && t.copy == s.copy && |t.ref| == |s.ref| && t.boot == s.boot
    requires forall u :: Live(s, u) ==> Target(s, u) != f
    ensures Shape(t) && SameUses(s, t)
  {
    forall e | e in s.dir ensures s.dir[e] != f {
      assert Live(s, DirUse(e)) && Target(s, DirUse(e)) == s.dir[e];
    }
    forall v ensures SameUse(s, t, v) {
      if v.LeafUse? && Live(s, TableUse(v.e, v.i)) {
        assert Target(s, TableUse(v.e, v.i)) == TableOf(s, v.e, v.i) != f;
      }
    }
  }

  lemma AllocKeepsCore(s: Mmu, t: Mmu)
    requires Core(s) && s.free != [] && 0 <= s.free[0] < |s.mem| && t == AllocFrame(s)
    ensures Core(t) && SameUses(s, t) && |s.ref| == |s.mem| && s.ref[s.free[0]] == 0
    ensures forall u :: Live(s, u) ==> Target(s, u) != s.free[0]
  {
    var f := s.free[0];
    assert f in s.free;
    UnreferencedHasNoUse(s, f);
    UnusedFrameWrite(s, t, f, ZeroFrame());
    assert Partitioned(t) by {
      forall g ensures g in t.free <==> 0 <= g < |t.mem| && t.ref[g] == 0 && g !in t.held {
        assert g in s.free <==> g == f || g in s.free[1..];
      }
    }
    forall g | 0 <= g < |t.mem| ensures UsesOf(t, g) == UsesOf(s, g) {
      CountUnchanged(s, t, g);
    }
  }

  /** A held, zeroed frame becomes the table of (e, i). */
  ghost function WithTable(s: Mmu, e: int, i: int, f: int): Mmu
    requires e in s.dir && 0 <= s.dir[e] < |s.mem| && 0 <= i < |s.mem[s.dir[e]]| && 0 <= f < |s.ref|
  {
    Retain(WriteWord(s, s.dir[e], i, MakePte(f, 0)), f)
  }

  /** Pointing a directory entry at a zeroed, unnamed frame adds that one use. */
  lemma WithTableGains(s: Mmu, t: Mmu, e: int, i: int, f: int)
    requires Structure(s) && e in s.dir && 0 <= i < PDX_UTOP && !PteValid(DirWord(s, e, i))
    requires 0 <= f < |s.mem| && s.mem[f] == ZeroFrame() && forall u :: Live(s, u) ==> Target(s, u) != f
    requires 0 <= s.dir[e] < |s.mem| && t == WithTable(s, e, i, f)
    ensures Shape(t) && GainsUse(s, t, TableUse(e, i)) && TableOf(t, e, i) == f
    ensures forall j :: LeafWord(t, e, i, j) == 0
    ensures forall e', i' :: e' in s.dir && (e', i') != (e, i) ==> DirWord(t, e', i') == DirWord(s, e', i')
  {
    assert Live(s, DirUse(e)) && Target(s, DirUse(e)) == s.dir[e] != f;
    PteRoundTrip(f, 0);
    var m := WriteWord(s, s.dir[e], i, MakePte(f, 0));
    DirWrite(s, m, e, i, MakePte(f, 0));
    assert DirWord(t, e, i) == MakePte(f, 0);
    assert TableOf(t, e, i) == f && t.mem[f] == ZeroFrame();
    forall j ensures LeafWord(t, e, i, j) == 0 {
    }
    forall v | v != TableUse(e, i) ensures SameUse(s, t, v) {
      if AtEntry(v, e, i) {
        assert LeafWord(t, e, i, v.j) == 0;
      } else {
        assert SameUse(s, m, v);
      }
    }
  }

  lemma WithTableKeepsCore(s: Mmu, t: Mmu, e: int, i: int, f: int)
    requires Core(s) && e in s.dir && 0 <= i < PDX_UTOP && !PteValid(DirWord(s, e, i))
    requires f in s.held && s.mem[f] == ZeroFrame()
    requires 0 <= s.dir[e] < |s.mem| && t == WithTable(s, e, i, f)
    ensures Core(t) && GainsUse(s, t, TableUse(e, i)) && TableOf(t, e, i) == f
    ensures forall j :: LeafWord(t, e, i, j) == 0
    ensures forall e', i' :: e' in s.dir && (e', i') != (e, i) ==> DirWord(t, e', i') == DirWord(s, e', i')
  {
    hide Sole, InRange, Counted, SameBut, Live;
    UnreferencedHasNoUse(s, f);
    WithTableGains(s, t, e, i, f);
    RetainKeepsCore(s, t, TableUse(e, i));
  }

  /** A leaf entry is written over an invalid one, and the frame it names gains a reference. */
  ghost function WithLeaf(s: Mmu, e: int, i: int, j: int, pp: int, perm: int): Mmu
    requires e in s.dir && 0 <= TableOf(s, e, i) < |s.mem| && 0 <= j < |s.mem[TableOf(s, e, i)]| && 0 <= pp < |s.ref|
  {
    Retain(WriteWord(s, TableOf(s, e, i), j, MakePte(pp, perm)), pp)
  }

  lemma WithLeafGains(s: Mmu, t: Mmu, e: int, i: int, j: int, pp: int, perm: int)
    requires Structure(s) && Live(s, TableUse(e, i)) && 0 <= j < NPTE && !Live(s, LeafUse(e, i, j))
    requires 0 <= pp < |s.mem| && 0 <= perm < 1024
    requires 0 <= TableOf(s, e, i) < |s.mem| && t == WithLeaf(s, e, i, j, pp, perm)
    ensures Shape(t) && GainsUse(s, t, LeafUse(e, i, j)) && LeafWord(t, e, i, j) == MakePte(pp, perm)
    ensures Target(t, LeafUse(e, i, j)) == pp
  {
    PteRoundTrip(pp, perm);
    var m := WriteWord(s, TableOf(s, e, i), j, MakePte(pp, perm));
    TableWrite(s, m, e, i, j, MakePte(pp, perm));
    forall v | v != LeafUse(e, i, j) ensures SameUse(s, t, v) {
      assert SameUse(s, m, v);
    }
  }

  lemma WithLeafKeepsCore(s: Mmu, t: Mmu, e: int, i: int, j: int, pp: int, perm: int)
    requires Core(s) && Live(s, TableUse(e, i)) && 0 <= j < NPTE && !Live(s, LeafUse(e, i, j))
    requires Insertable(s, pp) && 0 <= perm < 1024
    requires 0 <= TableOf(s, e, i) < |s.mem| && t == WithLeaf(s, e, i, j, pp, perm)
    ensures Core(t) && GainsUse(s, t, LeafUse(e, i, j)) && LeafWord(t, e, i, j) == MakePte(pp, perm)
  {
    hide Sole, InRange, Counted, Partitioned, SameBut, Live, Target, Word, LeafWord, TableOf, MakePte;
    WithLeafGains(s, t, e, i, j, pp, perm);
    PteRoundTrip(pp, perm);
    RetainKeepsCore(s, t, LeafUse(e, i, j));
  }

  /** A leaf entry is cleared and its frame loses a reference. */
  ghost function WithoutLeaf(s: Mmu, e: int, i: int, j: int, pp: int): Mmu
    requires e in s.dir && 0 <= TableOf(s, e, i) < |s.mem| && 0 <= j < |s.mem[TableOf(s, e, i)]| && 0 <= pp < |s.ref|
  {
    WriteWord(Release(s, pp), TableOf(s, e, i), j, 0)
  }

  lemma WithoutLeafLoses(s: Mmu, t: Mmu, e: int, i: int, j: int, pp: int)
    requires Structure(s) && Live(s, LeafUse(e, i, j))
    requires 0 <= TableOf(s, e, i) < |s.mem| && 0 <= pp < |s.ref| && t == WithoutLeaf(s, e, i, j, pp)
    ensures Shape(t) && LosesUse(s, t, LeafUse(e, i, j))
  {
    assert Live(s, TableUse(e, i));
    var m := WriteWord(s, TableOf(s, e, i), j, 0);
    TableWrite(s, m, e, i, j, 0);
    forall v | v != LeafUse(e, i, j) ensures SameUse(s, t, v) {
      assert SameUse(s, m, v);
    }
  }

  lemma WithoutLeafKeepsCore(s: Mmu, t: Mmu, e: int, i: int, j: int, pp: int)
    requires Core(s) && Live(s, LeafUse(e, i, j)) && pp == Target(s, LeafUse(e, i, j))
    requires 0 <= TableOf(s, e, i) < |s.mem| && 0 <= pp < |s.ref| && t == WithoutLeaf(s, e, i, j, pp)
    ensures Core(t) && LosesUse(s, t, LeafUse(e, i, j))
  {
    WithoutLeafLoses(s, t, e, i, j, pp);
    hide Sole, InRange, Counted, SameBut, Live;
    ReleaseKeepsCore(s, t, LeafUse(e, i, j));
  }

  /** The permission bits of a valid leaf entry change and its frame stays. */
  lemma ReplaceLeafKeepsCore(s: Mmu, t: Mmu, e: int, i: int, j: int, pp: int, perm: int)
    requires Core(s) && Live(s, LeafUse(e, i, j)) && pp == Target(s, LeafUse(e, i, j)) && 0 <= perm < 1024
    requires 0 <= pp < |s.mem| && 0 <= TableOf(s, e, i) < |s.mem|
    requires t == WriteWord(s, TableOf(s, e, i), j, MakePte(pp, perm))
    ensures Core(t) && SameBut(s, t, LeafUse(e, i, j))
    ensures Live(t, LeafUse(e, i, j)) && LeafWord(t, e, i, j) == MakePte(pp, perm)
  {
    assert Live(s, TableUse(e, i));
    PteRoundTrip(pp, perm);
    TableWrite(s, t, e, i, j, MakePte(pp, perm));
    assert forall v :: (Live(t, v) <==> Live(s, v)) && (Live(s, v) ==> Target(t, v) == Target(s, v));
    forall f | 0 <= f < |t.mem| ensures UsesOf(t, f) == UsesOf(s, f) {
      CountUnchanged(s, t, f);
    }
  }

  /** Any other word over a valid leaf entry: if the hardware finds another frame there, the counts or
      the addresses are wrong. */
  lemma MisnamedBreaksCore(s: Mmu, t: Mmu, e: int, i: int, j: int, w: int)
    requires Core(s) && Live(s, LeafUse(e, i, j)) && 0 <= w < TWO32 && PteValid(w)
    requires 0 <= TableOf(s, e, i) < |s.mem| && t == WriteWord(s, TableOf(s, e, i), j, w)
    requires HwFrame(w) != Target(s, LeafUse(e, i, j))
    ensures !Core(t)
  {
    hide Sole, Partitioned, SelfMapped;
    var u := LeafUse(e, i, j);
    var pp := Target(s, u);
    assert Live(s, TableUse(e, i));
    TableWrite(s, t, e, i, j, w);
    assert Target(t, u) == PteFrame(w);
    if PteFrame(w) == pp {
      if w < PTE_LIMIT { FrameOfSmall(w); }
      assert !SoundEntry(t, u);
    } else {
      forall v | v != u ensures v in UsesOf(s, pp) <==> v in UsesOf(t, pp) {
        assert SameUse(s, t, v);
      }
      SetLosesOne(UsesOf(s, pp), UsesOf(t, pp), u);
      assert !Counted(t);
    }
  }

  /** A frame that is handed out is counted without an entry for it, for good. */
  ghost function Charged(s: Mmu, f: int): Mmu
    requires 0 <= f < |s.ref| == |s.boot|
  {
    Mmu(s.mem, s.ref[f := s.ref[f] + 1], s.free, s.dir, s.copy, s.held - {f}, s.boot[f := s.boot[f] + 1])
  }

  lemma ChargedUses(s: Mmu, t: Mmu, f: int)
    requires Structure(s) && 0 <= f < |s.ref| && t == Charged(s, f) && forall u :: Live(s, u) ==> Target(s, u) != f
    ensures Structure(t) && SameUses(s, t)
  {
    forall v ensures SameUse(s, t, v) {
    }
    SameUsesKeepStructure(s, t, f);
  }

  lemma SameUsesKeepStructure(s: Mmu, t: Mmu, f: int)
    requires Structure(s) && SameUses(s, t) && Shape(t) && |t.mem| == |s.mem|
    requires forall g :: 0 <= g < |s.mem| && g != f ==> t.boot[g] == s.boot[g]
    requires forall u :: Live(s, u) ==> Target(s, u) != f
    ensures Structure(t)
  {
    forall u | Live(t, u) ensures Live(s, u) && SameUse(s, t, u) && 0 <= Target(t, u) < |t.mem| && SoundEntry(t, u) {
      assert SoundEntry(s, u);
    }
  }

  lemma ChargedKeepsCore(s: Mmu, t: Mmu, f: int)
    requires Core(s) && f in s.held && 0 <= f < |s.ref| && t == Charged(s, f)
    ensures Core(t) && SameUses(s, t)
  {
    hide Sole, InRange;
    UnreferencedHasNoUse(s, f);
    ChargedUses(s, t, f);
    assert Counted(t) by {
      forall g | 0 <= g < |t.mem| ensures UsesOf(t, g) == UsesOf(s, g) {
        CountUnchanged(s, t, g);
      }
    }
    hide Counted, SameUses, Live, SameUse;
    forall g ensures g in t.free <==> 0 <= g < |t.mem| && t.ref[g] == 0 && g !in t.held {
    }
  }

  /** A directory entry whose table is empty is cleared and the table frame released. */
  ghost function WithoutTable(s: Mmu, e: int, i: int, f: int): Mmu
    requires e in s.dir && 0 <= s.dir[e] < |s.mem| && 0 <= i < |s.mem[s.dir[e]]| && 0 <= f < |s.ref|
  {
    Release(WriteWord(s, s.dir[e], i, 0), f)
  }

  lemma WithoutTableLoses(s: Mmu, t: Mmu, e: int, i: int, f: int)
    requires Structure(s) && Live(s, TableUse(e, i)) && forall j :: !Live(s, LeafUse(e, i, j))
    requires 0 <= s.dir[e] < |s.mem| && 0 <= f < |s.ref| && t == WithoutTable(s, e, i, f)
    ensures Shape(t) && LosesUse(s, t, TableUse(e, i))
    ensures forall e', i' :: e' in s.dir && (e', i') != (e, i) ==> DirWord(t, e', i') == DirWord(s, e', i')
  {
    var m := WriteWord(s, s.dir[e], i, 0);
    DirWrite(s, m, e, i, 0);
    forall v | v != TableUse(e, i) ensures SameUse(s, t, v) {
      if !AtEntry(v, e, i) {
        assert SameUse(s, m, v);
      }
    }
  }

  lemma WithoutTableKeepsCore(s: Mmu, t: Mmu, e: int, i: int, f: int)
    requires Core(s) && Live(s, TableUse(e, i)) && f == TableOf(s, e, i)
    requires forall j :: !Live(s, LeafUse(e, i, j))
    requires 0 <= s.dir[e] < |s.mem| && 0 <= f < |s.ref| && t == WithoutTable(s, e, i, f)
    ensures Core(t) && LosesUse(s, t, TableUse(e, i))
    ensures forall e', i' :: e' in s.dir && (e', i') != (e, i) ==> DirWord(t, e', i') == DirWord(s, e', i')
  {
    WithoutTableLoses(s, t, e, i, f);
    hide Sole, InRange, Counted, SameBut, Live;
    ReleaseKeepsCore(s, t, TableUse(e, i));
  }

  /** A step that changes frame `f` only keeps the self-map of every env whose directory and copy are
      other frames. */
  lemma SelfMapsKept(s: Mmu, t: Mmu, f: int, e: int)
    requires e in s.dir && t.dir == s.dir && t.copy == s.copy && |t.mem| == |s.mem|
    requires forall g :: 0 <= g < |s.mem| && g != f ==> t.mem[g] == s.mem[g]
    requires s.dir[e] != f && (e in s.copy ==> s.copy[e] != f)
    requires SelfMapped(s, e)
    ensures SelfMapped(t, e)
  {
    forall i ensures DirWord(t, e, i) == DirWord(s, e, i) {
    }
    forall i | e in s.copy ensures Word(t, s.copy[e], i) == Word(s, s.copy[e], i) {
    }
  }

  // ---------- whole calls ----------

  lemma DirInRange(s: Mmu, e: int)
    requires Structure(s) && e in s.dir
    ensures 0 <= s.dir[e] < |s.mem| && IsFrame(s.mem[s.dir[e]])
  {
    assert Live(s, DirUse(e)) && Target(s, DirUse(e)) == s.dir[e];
  }

  lemma TableInRange(s: Mmu, e: int, i: int)
    requires Structure(s) && Live(s, TableUse(e, i))
    ensures 0 <= TableOf(s, e, i) < |s.mem| && IsFrame(s.mem[TableOf(s, e, i)])
  {
    assert Target(s, TableUse(e, i)) == TableOf(s, e, i);
  }

  /** `pgdir_walk`: the state after asking for the table of directory entry i. */
  ghost function Walked(s: Mmu, e: int, i: int, create: bool): Mmu
    requires Core(s) && e in s.dir && 0 <= i < PDX_UTOP
  {
    DirInRange(s, e);
    if PteValid(DirWord(s, e, i)) || !create || s.free == [] then s
    else
      assert s.free[0] in s.free;
      WithTable(AllocFrame(s), e, i, s.free[0])
  }

  lemma WalkedKeeps(s: Mmu, t: Mmu, e: int, i: int, create: bool)
    requires Core(s) && e in s.dir && 0 <= i < PDX_UTOP && t == Walked(s, e, i, create)
    ensures Core(t) && SameBut(s, t, TableUse(e, i)) && t.dir == s.dir && t.copy == s.copy && t.held == s.held
    ensures PteValid(DirWord(s, e, i)) || (create && s.free != []) ==> Live(t, TableUse(e, i))
    ensures !create || s.free == [] ==> t == s
    ensures forall f :: Insertable(s, f) ==> Insertable(t, f) && t.mem[f] == s.mem[f]
    ensures forall e' :: e' in s.dir && e' != e && SelfMapped(s, e') ==> SelfMapped(t, e')
  {
    if t != s {
      DirInRange(s, e);
      NewTableKeeps(s, AllocFrame(s), t, e, i);
    }
  }

  lemma NewTableKeeps(s: Mmu, m: Mmu, t: Mmu, e: int, i: int)
    requires Core(s) && s.free != [] && 0 <= s.free[0] < |s.mem| && m == AllocFrame(s)
    requires e in s.dir && 0 <= i < PDX_UTOP && !PteValid(DirWord(s, e, i))
    requires 0 <= s.dir[e] < |s.mem| && t == WithTable(m, e, i, s.free[0])
    ensures Core(t) && SameBut(s, t, TableUse(e, i)) && Live(t, TableUse(e, i)) && t.held == s.held
    ensures forall f :: Insertable(s, f) ==> Insertable(t, f) && t.mem[f] == s.mem[f]
    ensures forall e' :: e' in s.dir && e' != e && SelfMapped(s, e') ==> SelfMapped(t, e')
  {
    var f := s.free[0];
    assert f in s.free && f !in s.held;
    AllocKeepsCore(s, m);
    hide Counted, Partitioned, InRange, Sole;
    assert SameUse(s, m, DirUse(e)) && SameUse(s, m, TableUse(e, i));
    WithTableKeepsCore(m, t, e, i, f);
    forall v | v != TableUse(e, i) ensures SameUse(s, t, v) {
      assert SameUse(s, m, v) && SameUse(m, t, v);
    }
    forall g | Insertable(s, g) ensures Insertable(t, g) && t.mem[g] == s.mem[g] {
      assert g != s.dir[e] by {
        assert Live(s, DirUse(e)) && Target(s, DirUse(e)) == s.dir[e];
      }
      forall v | Live(t, v) && !v.LeafUse? ensures Target(t, v) != g {
        if v != TableUse(e, i) { assert SameUse(s, t, v); }
      }
    }
    NewTableKeepsSelfMaps(s, m, t, e, i);
  }

  lemma NewTableKeepsSelfMaps(s: Mmu, m: Mmu, t: Mmu, e: int, i: int)
    requires Structure(s) && s.free != [] && 0 <= s.free[0] < |s.mem| && m == AllocFrame(s)
    requires e in s.dir && 0 <= i < PDX_UTOP
    requires 0 <= s.dir[e] < |s.mem| && |m.mem[s.dir[e]]| == NPTE && t == WithTable(m, e, i, s.free[0])
    requires forall u :: Live(s, u) ==> Target(s, u) != s.free[0]
    ensures forall e' :: e' in s.dir && e' != e && SelfMapped(s, e') ==> SelfMapped(t, e')
  {
    forall e' | e' in s.dir && e' != e && SelfMapped(s, e') ensures SelfMapped(t, e') {
      assert Live(s, DirUse(e)) && Live(s, DirUse(e')) && Target(s, DirUse(e')) == s.dir[e'];
      assert Target(s, DirUse(e)) == s.dir[e];
      if e' in s.copy {
        assert Live(s, CopyUse(e')) && Target(s, CopyUse(e')) == s.copy[e'];
      }
      SelfMapsKept(s, m, s.free[0], e');
      SelfMapsKept(m, t, s.dir[e], e');
    }
  }

  /** `page_remove`. */
  ghost function Removed(s: Mmu, e: int, i: int, j: int): Mmu
    requires Core(s)
  {
    if !Live(s, LeafUse(e, i, j)) then s
    else
      TableInRange(s, e, i);
      WithoutLeaf(s, e, i, j, Target(s, LeafUse(e, i, j)))
  }

  ghost function OldLeaf(s: Mmu, e: int, i: int, j: int): int {
    if Live(s, LeafUse(e, i, j)) then Target(s, LeafUse(e, i, j)) else -1
  }

  /** A data frame that is not given back when entry (i, j) of env e goes: not the one mapped there, or
      mapped elsewhere, too. */
  ghost predicate Survives(s: Mmu, e: int, i: int, j: int, f: int) {
    Insertable(s, f) && (f != OldLeaf(s, e, i, j) || (f < |s.ref| && s.ref[f] > 1))
  }

  lemma RemovedKeeps(s: Mmu, t: Mmu, e: int, i: int, j: int)
    requires Core(s) && t == Removed(s, e, i, j)
    ensures Core(t) && SameBut(s, t, LeafUse(e, i, j)) && !Live(t, LeafUse(e, i, j))
    ensures t.dir == s.dir && t.copy == s.copy && t.held == s.held
    ensures forall e' :: e' in s.dir && SelfMapped(s, e') ==> SelfMapped(t, e')
    ensures forall f :: Survives(s, e, i, j, f) ==> Insertable(t, f) && t.mem[f] == s.mem[f]
  {
    if Live(s, LeafUse(e, i, j)) {
      TableInRange(s, e, i);
      WithoutLeafKeepsCore(s, t, e, i, j, Target(s, LeafUse(e, i, j)));
      TableWriteKeeps(s, t, e, i, j);
    }
  }

  /** A table write leaves insertable frames and all self-maps alone. */
  lemma TableWriteKeeps(s: Mmu, t: Mmu, e: int, i: int, j: int)
    requires Structure(s) && Live(s, TableUse(e, i)) && SameBut(s, t, LeafUse(e, i, j))
    requires t.dir == s.dir && t.copy == s.copy && |t.mem| == |s.mem|
    requires forall g :: 0 <= g < |s.mem| && g != TableOf(s, e, i) ==> t.mem[g] == s.mem[g]
    ensures forall e' :: e' in s.dir && SelfMapped(s, e') ==> SelfMapped(t, e')
    ensures forall f :: Insertable(s, f) && f !in t.free ==> Insertable(t, f) && t.mem[f] == s.mem[f]
  {
    assert Target(s, TableUse(e, i)) == TableOf(s, e, i);
    forall e' | e' in s.dir && SelfMapped(s, e') ensures SelfMapped(t, e') {
      assert Live(s, DirUse(e')) && Target(s, DirUse(e')) == s.dir[e'];
      if e' in s.copy {
        assert Live(s, CopyUse(e')) && Target(s, CopyUse(e')) == s.copy[e'];
      }
      SelfMapsKept(s, t, TableOf(s, e, i), e');
    }
    forall f | Insertable(s, f) && f !in t.free ensures Insertable(t, f) && t.mem[f] == s.mem[f] {
      forall v | Live(t, v) && !v.LeafUse? ensures Target(t, v) != f {
        assert SameUse(s, t, v);
      }
    }
  }

  /** The last store of page_insert invalidates the env's self-map; no counted use goes through it. */
  ghost function SelfMapCleared(s: Mmu, e: int): Mmu
    requires Structure(s) && e in s.dir
  {
    DirInRange(s, e);
    WriteWord(s, s.dir[e], PDX_UVPT, 0)
  }

  lemma SelfMapClearedKeeps(s: Mmu, t: Mmu, e: int)
    requires Core(s) && e in s.dir && t == SelfMapCleared(s, e)
    ensures Core(t) && SameUses(s, t) && SelfMapped(t, e)
    ensures forall e' :: e' in s.dir && e' != e && SelfMapped(s, e') ==> SelfMapped(t, e')
    ensures forall f :: Insertable(s, f) ==> Insertable(t, f) && t.mem[f] == s.mem[f]
  {
    DirInRange(s, e);
    DirWrite(s, t, e, PDX_UVPT, 0);
    forall v ensures SameUse(s, t, v) {
    }
    SameUsesKeepCore(s, t);
    assert Live(s, DirUse(e)) && Target(s, DirUse(e)) == s.dir[e];
    forall e' | e' in s.dir && e' != e && SelfMapped(s, e') ensures SelfMapped(t, e') {
      assert Live(s, DirUse(e')) && Target(s, DirUse(e')) == s.dir[e'];
      if e' in s.copy {
        assert Live(s, CopyUse(e')) && Target(s, CopyUse(e')) == s.copy[e'];
      }
      SelfMapsKept(s, t, s.dir[e], e');
    }
  }

  /** `page_insert` of a frame over a leaf entry that is not valid, with the table in place. */
  ghost function LeafInstalled(s: Mmu, e: int, i: int, j: int, pp: int, perm: int): Mmu
    requires Core(s) && Live(s, TableUse(e, i)) && 0 <= j < NPTE && !Live(s, LeafUse(e, i, j))
    requires Insertable(s, pp) && 0 <= perm < 1024
  {
    TableInRange(s, e, i);
    var t := WithLeaf(s, e, i, j, pp, perm);
    WithLeafKeepsCore(s, t, e, i, j, pp, perm);
    SelfMapCleared(t, e)
  }

  lemma LeafInstalledKeeps(s: Mmu, t: Mmu, e: int, i: int, j: int, pp: int, perm: int)
    requires Core(s) && Live(s, TableUse(e, i)) && 0 <= j < NPTE && !Live(s, LeafUse(e, i, j))
    requires Insertable(s, pp) && 0 <= perm < 1024
    requires t == LeafInstalled(s, e, i, j, pp, perm)
    ensures Core(t) && SameBut(s, t, LeafUse(e, i, j)) && t.held == s.held - {pp}
    ensures Live(t, LeafUse(e, i, j)) && LeafWord(t, e, i, j) == MakePte(pp, perm) && SelfMapped(t, e)
    ensures forall e' :: e' in s.dir && e' != e && SelfMapped(s, e') ==> SelfMapped(t, e')
    ensures forall f :: Insertable(s, f) ==> Insertable(t, f) && t.mem[f] == s.mem[f]
  {
    TableInRange(s, e, i);
    var m := WithLeaf(s, e, i, j, pp, perm);
    WithLeafKeepsCore(s, m, e, i, j, pp, perm);
    hide Counted, Partitioned, Sole, InRange;
    TableWriteKeeps(s, m, e, i, j);
    SelfMapClearedKeeps(m, t, e);
    assert SameUse(m, t, LeafUse(e, i, j));
    forall v | v != LeafUse(e, i, j) ensures SameUse(s, t, v) {
      assert SameUse(s, m, v) && SameUse(m, t, v);
    }
  }

  /** The state after a successful page_insert of `pp` at entry (i, j) of env e; `perm` is the
      permission after the rule "writable implies readable". */
  ghost function Inserted(s: Mmu, e: int, i: int, j: int, pp: int, perm: int): Mmu
    requires Core(s) && e in s.dir && 0 <= i < PDX_UTOP && 0 <= j < NPTE
    requires Insertable(s, pp) && 0 <= perm < 1024
    requires PteValid(DirWord(s, e, i)) || s.free != []
  {
    if Live(s, LeafUse(e, i, j)) && Target(s, LeafUse(e, i, j)) == pp then
      TableInRange(s, e, i);
      WriteWord(s, TableOf(s, e, i), j, MakePte(pp, perm))
    else
      var m := Removed(s, e, i, j);
      RemovedKeeps(s, m, e, i, j);
      var w := Walked(m, e, i, true);
      WalkedForInsert(s, m, w, e, i, j, pp);
      LeafInstalled(w, e, i, j, pp, perm)
  }

  /** The word at entry (i, j) of env e is `w`, and everything else is as before. */
  ghost function WithWord(s: Mmu, e: int, i: int, j: int, w: int): Mmu
    requires e in s.dir
  {
    var f := TableOf(s, e, i);
    if 0 <= f < |s.mem| && 0 <= j < |s.mem[f]| then WriteWord(s, f, j, w) else s
  }

  /** `t` is `s` after a successful page_insert. */
  ghost predicate PageInserted(s: Mmu, t: Mmu, e: int, va: int, pp: int, perm: int) {
    Core(s) && e in s.dir && 0 <= Pdx(va) < PDX_UTOP && Insertable(s, pp) && 0 <= perm < TWO32 &&
    (PteValid(DirWord(s, e, Pdx(va))) || s.free != []) &&
    Inserted(s, e, Pdx(va), Ptx(va), pp, perm % 1024).dir == s.dir &&
    t == WithWord(Inserted(s, e, Pdx(va), Ptx(va), pp, perm % 1024), e, Pdx(va), Ptx(va), EntryWord(pp, perm))
  }

  /** After clearing entry (i, j) and asking for its table, `pp` can be installed there. */
  lemma WalkedForInsert(s: Mmu, m: Mmu, w: Mmu, e: int, i: int, j: int, pp: int)
    requires Core(s) && e in s.dir && 0 <= i < PDX_UTOP && 0 <= j < NPTE && Insertable(s, pp)
    requires PteValid(DirWord(s, e, i)) || s.free != []
    requires !(Live(s, LeafUse(e, i, j)) && Target(s, LeafUse(e, i, j)) == pp)
    requires m == Removed(s, e, i, j) && Core(m) && SameBut(s, m, LeafUse(e, i, j)) && m.dir == s.dir
    requires w == Walked(m, e, i, true)
    ensures Core(w) && Live(w, TableUse(e, i)) && !Live(w, LeafUse(e, i, j)) && Insertable(w, pp)
    ensures w.dir == s.dir && w.copy == s.copy && w.held == s.held && |w.ref| == |s.ref| && w.ref[pp] == s.ref[pp]
    ensures forall u :: u != LeafUse(e, i, j) && u != TableUse(e, i) ==> SameUse(s, w, u)
    ensures forall e' :: e' in s.dir && e' != e && SelfMapped(s, e') ==> SelfMapped(w, e')
    ensures forall f :: Survives(s, e, i, j, f) ==> Insertable(w, f) && w.mem[f] == s.mem[f]
  {
    RemovedKeeps(s, m, e, i, j);
    hide Counted, Partitioned, Sole, InRange;
    assert SameUse(s, m, TableUse(e, i));
    WalkedKeeps(m, w, e, i, true);
    forall u | u != LeafUse(e, i, j) && u != TableUse(e, i) ensures SameUse(s, w, u) {
      assert SameUse(s, m, u) && SameUse(m, w, u);
    }
    assert SameUse(m, w, LeafUse(e, i, j));
  }

  /** What page_insert promises: entry (i, j) of env e now names `pp`, every other entry of every env
      is as before, counts and self-maps are in order, and no data frame changed. */
  lemma InsertedKeeps(s: Mmu, t: Mmu, e: int, i: int, j: int, pp: int, perm: int)
    requires Inv(s) && e in s.dir && 0 <= i < PDX_UTOP && 0 <= j < NPTE
    requires Insertable(s, pp) && 0 <= perm < 1024
    requires PteValid(DirWord(s, e, i)) || s.free != []
    requires t == Inserted(s, e, i, j, pp, perm)
    ensures Inv(t) && t.dir == s.dir && t.copy == s.copy
    ensures Live(t, LeafUse(e, i, j)) && LeafWord(t, e, i, j) == MakePte(pp, perm)
    ensures forall u :: u != LeafUse(e, i, j) && u != TableUse(e, i) ==> SameUse(s, t, u)
    ensures forall f :: Survives(s, e, i, j, f) ==> Insertable(t, f) && t.mem[f] == s.mem[f]
    ensures Insertable(t, pp) && t.mem[pp] == s.mem[pp]
    ensures t.held == s.held - {pp}
  {
    hide Counted, Partitioned, Sole, InRange;
    if Live(s, LeafUse(e, i, j)) && Target(s, LeafUse(e, i, j)) == pp {
      ReplacedKeeps(s, t, e, i, j, pp, perm);
    } else {
      var m := Removed(s, e, i, j);
      RemovedKeeps(s, m, e, i, j);
      var w := Walked(m, e, i, true);
      WalkedForInsert(s, m, w, e, i, j, pp);
      LeafInstalledKeeps(w, t, e, i, j, pp, perm);
      forall u | u != LeafUse(e, i, j) && u != TableUse(e, i) ensures SameUse(s, t, u) {
        assert SameUse(s, w, u) && SameUse(w, t, u);
      }
    }
  }

  /** The short path of page_insert: the same frame is mapped there already. */
  lemma ReplacedKeeps(s: Mmu, t: Mmu, e: int, i: int, j: int, pp: int, perm: int)
    requires Core(s) && Live(s, LeafUse(e, i, j)) && Target(s, LeafUse(e, i, j)) == pp
    requires Insertable(s, pp) && 0 <= perm < 1024
    requires 0 <= TableOf(s, e, i) < |s.mem| && |s.mem[TableOf(s, e, i)]| == NPTE
    requires t == WriteWord(s, TableOf(s, e, i), j, MakePte(pp, perm))
    ensures Core(t) && t.held == s.held && pp !in s.held
    ensures Live(t, LeafUse(e, i, j)) && LeafWord(t, e, i, j) == MakePte(pp, perm) && SameBut(s, t, LeafUse(e, i, j))
    ensures forall e' :: e' in s.dir && SelfMapped(s, e') ==> SelfMapped(t, e')
    ensures forall f :: Insertable(s, f) ==> Insertable(t, f) && t.mem[f] == s.mem[f]
  {
    LiveIsCounted(s, LeafUse(e, i, j));
    ReplaceLeafKeepsCore(s, t, e, i, j, pp, perm);
    hide Counted, Partitioned, Sole, InRange;
    TableWriteKeeps(s, t, e, i, j);
  }

  /** page_insert as an operation on page maps. */
  lemma InsertedPageMaps(s: Mmu, t: Mmu, e: int, i: int, j: int, w: int)
    requires 0 <= i < PDX_UTOP && 0 <= j < NPTE
    requires Live(t, LeafUse(e, i, j)) && LeafWord(t, e, i, j) == w
    requires forall u :: u != LeafUse(e, i, j) && u != TableUse(e, i) ==> SameUse(s, t, u)
    ensures PageMap(t, e) == PageMap(s, e)[i * NPTE + j := (PteFrame(w), PteFlags(w))]
    ensures forall e' :: e' != e ==> PageMap(t, e') == PageMap(s, e')
  {
    LeafIndex(i, j);
    OneLeafPageMap(s, t, e, i, j, i * NPTE + j);
    forall e' | e' != e ensures PageMap(t, e') == PageMap(s, e') {
      forall i', j' ensures SameUse(s, t, LeafUse(e', i', j')) {
      }
      SameLeavesSamePageMap(s, t, e');
    }
  }

  /** page_remove as an operation on page maps. */
  lemma RemovedPageMaps(s: Mmu, t: Mmu, e: int, i: int, j: int)
    requires 0 <= i < PDX_UTOP && 0 <= j < NPTE
    requires SameBut(s, t, LeafUse(e, i, j)) && !Live(t, LeafUse(e, i, j))
    ensures PageMap(t, e) == PageMap(s, e) - {i * NPTE + j}
    ensures forall e' :: e' != e ==> PageMap(t, e') == PageMap(s, e')
  {
    LeafIndex(i, j);
    OneLeafPageMap(s, t, e, i, j, i * NPTE + j);
    forall e' | e' != e ensures PageMap(t, e') == PageMap(s, e') {
      forall i', j' ensures SameUse(s, t, LeafUse(e', i', j')) {
      }
      SameLeavesSamePageMap(s, t, e');
    }
  }

  // ---------- stores into the self-map ----------

  /** No use changes, and no self-map of another env. */
  ghost predicate Unnoticed(s: Mmu, t: Mmu, e: int) {
    Core(t) && SameUses(s, t) && t.dir == s.dir && t.copy == s.copy && |t.mem| == |s.mem| && |s.ref| == |t.ref| &&
    forall e' :: e' in s.dir && e' != e && SelfMapped(s, e') ==> SelfMapped(t, e')
  }

  lemma UnnoticedTwice(s: Mmu, m: Mmu, t: Mmu, e: int)
    requires Unnoticed(s, m, e) && Unnoticed(m, t, e)
    ensures Unnoticed(s, t, e)
  {
    hide Core, SelfMapped;
    forall v ensures SameUse(s, t, v) {
      assert SameUse(s, m, v) && SameUse(m, t, v);
    }
  }

  lemma UnnoticedPageMaps(s: Mmu, t: Mmu, e: int)
    requires Unnoticed(s, t, e)
    ensures forall e' :: PageMap(t, e') == PageMap(s, e')
  {
    hide Core, SelfMapped;
    forall e' ensures PageMap(t, e') == PageMap(s, e') {
      SameLeavesSamePageMap(s, t, e');
    }
  }

  lemma OtherFrames(s: Mmu, e: int, f: int)
    requires Structure(s) && e in s.dir
    requires f == s.dir[e] || (e in s.copy && f == s.copy[e]) || forall u :: Live(s, u) ==> Target(s, u) != f
    ensures forall e' :: e' in s.dir && e' != e ==> s.dir[e'] != f && (e' in s.copy ==> s.copy[e'] != f)
  {
    assert Live(s, DirUse(e)) && Target(s, DirUse(e)) == s.dir[e];
    forall e' | e' in s.dir && e' != e ensures s.dir[e'] != f && (e' in s.copy ==> s.copy[e'] != f) {
      assert Live(s, DirUse(e')) && Target(s, DirUse(e')) == s.dir[e'];
      if e' in s.copy { assert Live(s, CopyUse(e')) && Target(s, CopyUse(e')) == s.copy[e']; }
      if e in s.copy { assert Live(s, CopyUse(e)) && Target(s, CopyUse(e)) == s.copy[e]; }
    }
  }

  lemma FrameWriteKeepsSelfMaps(s: Mmu, t: Mmu, e: int, f: int)
    requires Structure(s) && e in s.dir && t.dir == s.dir && t.copy == s.copy && |t.mem| == |s.mem|
    requires f == s.dir[e] || (e in s.copy && f == s.copy[e]) || forall u :: Live(s, u) ==> Target(s, u) != f
    requires forall g :: 0 <= g < |s.mem| && g != f ==> t.mem[g] == s.mem[g]
    ensures forall e' :: e' in s.dir && e' != e && SelfMapped(s, e') ==> SelfMapped(t, e')
  {
    OtherFrames(s, e, f);
    forall e' | e' in s.dir && e' != e && SelfMapped(s, e') ensures SelfMapped(t, e') {
      SelfMapsKept(s, t, f, e');
    }
  }

  lemma AllocUnnoticed(s: Mmu, t: Mmu, e: int)
    requires Core(s) && e in s.dir && s.free != [] && 0 <= s.free[0] < |s.mem| && t == AllocFrame(s)
    ensures Unnoticed(s, t, e) && forall u :: Live(t, u) ==> Target(t, u) != s.free[0]
  {
    AllocKeepsCore(s, t);
    FrameWriteKeepsSelfMaps(s, t, e, s.free[0]);
    hide Sole, InRange, Counted, Partitioned;
    forall u | Live(t, u) ensures Target(t, u) != s.free[0] { assert SameUse(s, t, u); }
  }

  lemma ChargedUnnoticed(s: Mmu, t: Mmu, e: int, f: int)
    requires Core(s) && e in s.dir && f in s.held && 0 <= f < |s.ref| && t == Charged(s, f)
    ensures Unnoticed(s, t, e)
  {
    ChargedKeepsCore(s, t, f);
    UnreferencedHasNoUse(s, f);
    FrameWriteKeepsSelfMaps(s, t, e, f);
  }

  /** Writes to a directory copy or to a frame that nothing names. */
  lemma ScratchWrite(s: Mmu, t: Mmu, e: int, f: int, words: Frame)
    requires Core(s) && e in s.dir && 0 <= f < |s.mem| && IsFrame(words)
    requires (e in s.copy && f == s.copy[e]) || forall u :: Live(s, u) ==> Target(s, u) != f
    requires t == Mmu(s.mem[f := words], s.ref, s.free, s.dir, s.copy, s.held, s.boot)
    ensures Unnoticed(s, t, e)
  {
    if e in s.copy && f == s.copy[e] {
      CopyWrite(s, t, e, words);
    } else {
      UnusedFrameWrite(s, t, f, words);
    }
    SameUsesKeepCore(s, t);
    FrameWriteKeepsSelfMaps(s, t, e, f);
  }

  /** Writes to the UVPT entry of the directory. */
  lemma SelfEntryWrite(s: Mmu, t: Mmu, e: int, w: int)
    requires Core(s) && e in s.dir && 0 <= w < TWO32 && 0 <= s.dir[e] < |s.mem| && |s.mem[s.dir[e]]| == NPTE
    requires t == WriteWord(s, s.dir[e], PDX_UVPT, w)
    ensures Unnoticed(s, t, e) && DirWord(t, e, PDX_UVPT) == w
  {
    DirWrite(s, t, e, PDX_UVPT, w);
    forall v ensures SameUse(s, t, v) {
    }
    SameUsesKeepCore(s, t);
    FrameWriteKeepsSelfMaps(s, t, e, s.dir[e]);
  }

  // ---------- set-up and tear-down of an env ----------

  ghost function WithoutCopy(s: Mmu, e: int): Mmu
    requires Structure(s) && e in s.copy
  {
    assert Live(s, CopyUse(e)) && 0 <= Target(s, CopyUse(e)) < |s.mem|;
    var t := Release(s, s.copy[e]);
    Mmu(t.mem, t.ref, t.free, t.dir, t.copy - {e}, t.held, t.boot)
  }

  lemma WithoutCopyLoses(s: Mmu, t: Mmu, e: int)
    requires Structure(s) && e in s.copy && t == WithoutCopy(s, e)
    ensures Shape(t) && LosesUse(s, t, CopyUse(e)) && 0 <= s.copy[e] < |s.ref|
  {
    assert Live(s, CopyUse(e)) && 0 <= Target(s, CopyUse(e)) < |s.mem|;
    forall v | v != CopyUse(e) ensures SameUse(s, t, v) {
    }
  }

  lemma WithoutCopyKeeps(s: Mmu, t: Mmu, e: int)
    requires Core(s) && e in s.copy && t == WithoutCopy(s, e)
    ensures Core(t) && LosesUse(s, t, CopyUse(e))
    ensures 0 <= s.copy[e] < |s.ref| && s.ref[s.copy[e]] == 1
  {
    hide Counted, Partitioned, Sole, InRange, SameBut, SameUse;
    LiveIsCounted(s, CopyUse(e));
    WithoutCopyLoses(s, t, e);
    ReleaseKeepsCore(s, t, CopyUse(e));
  }

  ghost function WithoutDir(s: Mmu, e: int): Mmu
    requires Structure(s) && e in s.dir
  {
    DirInRange(s, e);
    var t := Release(s, s.dir[e]);
    Mmu(t.mem, t.ref, t.free, t.dir - {e}, t.copy, t.held, t.boot)
  }

  lemma WithoutDirLoses(s: Mmu, t: Mmu, e: int)
    requires Structure(s) && e in s.dir && e !in s.copy && t == WithoutDir(s, e)
    requires forall i :: !Live(s, TableUse(e, i))
    ensures Shape(t) && LosesUse(s, t, DirUse(e)) && 0 <= s.dir[e] < |s.mem|
  {
    DirInRange(s, e);
    forall v | v != DirUse(e) ensures SameUse(s, t, v) {
      if v.LeafUse? && v.e == e {
        assert !Live(s, TableUse(e, v.i));
      }
    }
  }

  lemma WithoutDirKeeps(s: Mmu, t: Mmu, e: int)
    requires Core(s) && e in s.dir && e !in s.copy && t == WithoutDir(s, e)
    requires forall i :: !Live(s, TableUse(e, i))
    ensures Core(t) && LosesUse(s, t, DirUse(e))
  {
    hide Counted, Partitioned, Sole, InRange, SameBut, SameUse;
    WithoutDirLoses(s, t, e);
    ReleaseKeepsCore(s, t, DirUse(e));
  }

  /** A held frame, filled with `words`, becomes the directory of env e. */
  ghost function WithDir(s: Mmu, e: int, f: int, words: Frame): Mmu
    requires 0 <= f < |s.mem| == |s.ref|
  {
    var t := Retain(s, f);
    Mmu(t.mem[f := words], t.ref, t.free, t.dir[e := f], t.copy, t.held, t.boot)
  }

  lemma WithDirGains(s: Mmu, t: Mmu, e: int, f: int, words: Frame)
    requires Structure(s) && e !in s.dir && IsFrame(words) && forall u :: Live(s, u) ==> Target(s, u) != f
    requires forall i :: 0 <= i < PDX_UTOP ==> !PteValid(words[i])
    requires 0 <= f < |s.mem| && t == WithDir(s, e, f, words)
    ensures Shape(t) && GainsUse(s, t, DirUse(e)) && forall i :: !Live(t, TableUse(e, i))
  {
    var m := Mmu(s.mem[f := words], s.ref, s.free, s.dir, s.copy, s.held, s.boot);
    UnusedFrameWrite(s, m, f, words);
    forall i ensures !Live(t, TableUse(e, i)) {
    }
    forall v | v != DirUse(e) ensures SameUse(s, t, v) {
      assert SameUse(s, m, v);
    }
  }

  lemma WithDirKeeps(s: Mmu, t: Mmu, e: int, f: int, words: Frame)
    requires Core(s) && e !in s.dir && f in s.held && IsFrame(words)
    requires forall i :: 0 <= i < PDX_UTOP ==> !PteValid(words[i])
    requires 0 <= f < |s.mem| && t == WithDir(s, e, f, words)
    ensures Core(t) && GainsUse(s, t, DirUse(e)) && forall i :: !Live(t, TableUse(e, i))
  {
    hide Counted, Sole, InRange, SameUse, SameBut, Live;
    UnreferencedHasNoUse(s, f);
    WithDirGains(s, t, e, f, words);
    RetainKeepsCore(s, t, DirUse(e));
  }

  /** A held frame becomes the directory copy of env e. */
  ghost function WithCopy(s: Mmu, e: int, f: int): Mmu
    requires 0 <= f < |s.ref|
  {
    var t := Retain(s, f);
    Mmu(t.mem, t.ref, t.free, t.dir, t.copy[e := f], t.held, t.boot)
  }

  lemma WithCopyGains(s: Mmu, t: Mmu, e: int, f: int)
    requires Structure(s) && e in s.dir && e !in s.copy
    requires 0 <= f < |s.mem| && t == WithCopy(s, e, f)
    ensures Shape(t) && GainsUse(s, t, CopyUse(e))
  {
    forall v | v != CopyUse(e) ensures SameUse(s, t, v) {
    }
  }

  lemma WithCopyKeeps(s: Mmu, t: Mmu, e: int, f: int)
    requires Core(s) && e in s.dir && e !in s.copy && f in s.held
    requires 0 <= f < |s.mem| && t == WithCopy(s, e, f)
    ensures Core(t) && GainsUse(s, t, CopyUse(e))
  {
    hide Counted, Sole, InRange, SameBut, SameUse;
    WithCopyGains(s, t, e, f);
    RetainKeepsCore(s, t, CopyUse(e));
  }

  /** No counted use goes through the words of a directory copy. */
  lemma CopyWrite(s: Mmu, t: Mmu, e: int, words: Frame)
    requires Structure(s) && e in s.copy && IsFrame(words)
    requires t.mem == (if 0 <= s.copy[e] < |s.mem| then s.mem[s.copy[e] := words] else s.mem)
    requires t.dir == s.dir && t.copy == s.copy && |t.ref| == |s.ref| && t.boot == s.boot
    ensures 0 <= s.copy[e] < |s.mem| && Shape(t) && SameUses(s, t)
    ensures forall e' :: e' in s.dir ==> s.dir[e'] != s.copy[e]
    ensures forall e' :: e' in s.copy && e' != e ==> s.copy[e'] != s.copy[e]
  {
    var f := s.copy[e];
    assert Live(s, CopyUse(e)) && Target(s, CopyUse(e)) == f;
    forall e' | e' in s.dir ensures s.dir[e'] != f {
      assert Live(s, DirUse(e')) && Target(s, DirUse(e')) == s.dir[e'];
    }
    forall e' | e' in s.copy && e' != e ensures s.copy[e'] != f {
      assert Live(s, CopyUse(e')) && Target(s, CopyUse(e')) == s.copy[e'];
    }
    forall v ensures SameUse(s, t, v) {
      if v.LeafUse? && Live(s, TableUse(v.e, v.i)) {
        assert Target(s, TableUse(v.e, v.i)) == TableOf(s, v.e, v.i) != f;
      }
    }
  }

  /** `pte[i] |= PTE_R | PTE_U` on the valid entries below n, then the entry for the directory itself. */
  ghost predicate Exposed(words: Frame, from: Frame, n: int)
    requires |words| == |from| == NPTE && 0 <= n
  {
    (forall i :: 0 <= i < n && i < NPTE ==> EntryAgrees(words[i], from[i])) &&
    (forall i :: n <= i < NPTE ==> words[i] == from[i])
  }

  lemma ExposeEntry(w: int)
    requires 0 <= w < TWO32
    ensures var x := if PteValid(w) then Or(Or(w, PTE_R), PTE_U) else w; 0 <= x < TWO32 && EntryAgrees(x, w)
  {
    if PteValid(w) {
      var a := Or(w, PTE_R);
      OrReadable(w, a);
      SameHighPart(w, a);
      OrUser(a, Or(a, PTE_U));
      SameHighPart(a, Or(a, PTE_U));
    }
  }
}
