/** The state of kern/pmap.c as a value, what a reference to a frame is, and the invariant that ties
    `pp_ref`, the free list and the page tables together. The tables live in the same frames that
    they map, so every lemma about a table write has to say that it hits no other table. */
module PageTables {
  import opened Sv32
  import opened Counting

  /** The places that hold a counted reference to a frame. `e` is an env slot, `i` a directory index
      below PDX(UTOP), `j` a table index. Directory entries from PDX(UTOP) on are copied from the
      template directory and are not counted. */
  datatype Use =
    | DirUse(e: int)
    | CopyUse(e: int)
    | TableUse(e: int, i: int)
    | LeafUse(e: int, i: int, j: int)

  /** `held` are frames that page_alloc handed out and that nothing refers to yet; `boot` are the
      references that no entry stands for: taken before any env existed, or stranded by a store into
      the self-map. */
  datatype Mmu = Mmu(
    mem: seq<Frame>,
    ref: seq<int>,
    free: seq<int>,
    dir: map<int, int>,
    copy: map<int, int>,
    held: set<int>,
    boot: seq<int>)

  function ZeroFrame(): (z: Frame)
    ensures IsFrame(z) && forall i :: 0 <= i < NPTE ==> z[i] == 0
  {
    seq(NPTE, _ => 0)
  }

  ghost function Word(s: Mmu, f: int, i: int): int {
    if 0 <= f < |s.mem| && 0 <= i < |s.mem[f]| then s.mem[f][i] else 0
  }

  ghost function DirWord(s: Mmu, e: int, i: int): int
    requires e in s.dir
  {
    Word(s, s.dir[e], i)
  }

  ghost function TableOf(s: Mmu, e: int, i: int): int
    requires e in s.dir
  {
    PteFrame(DirWord(s, e, i))
  }

  ghost function LeafWord(s: Mmu, e: int, i: int, j: int): int
    requires e in s.dir
  {
    Word(s, TableOf(s, e, i), j)
  }

  ghost predicate Live(s: Mmu, u: Use) {
    u.e in s.dir &&
    match u
    case DirUse(e) => true
    case CopyUse(e) => e in s.copy
    case TableUse(e, i) => 0 <= i < PDX_UTOP && PteValid(DirWord(s, e, i))
    case LeafUse(e, i, j) =>
      0 <= i < PDX_UTOP && PteValid(DirWord(s, e, i)) && 0 <= j < NPTE && PteValid(LeafWord(s, e, i, j))
  }

  ghost function Target(s: Mmu, u: Use): int
    requires Live(s, u)
  {
    match u
    case DirUse(e) => s.dir[e]
    case CopyUse(e) => s.copy[e]
    case TableUse(e, i) => TableOf(s, e, i)
    case LeafUse(e, i, j) => PteFrame(LeafWord(s, e, i, j))
  }

  ghost function Universe(es: set<int>): (r: set<Use>)
    ensures forall u :: u in r <==>
      u.e in es && (u.TableUse? || u.LeafUse? ==> 0 <= u.i < PDX_UTOP) && (u.LeafUse? ==> 0 <= u.j < NPTE)
  {
    (set e | e in es :: DirUse(e)) + (set e | e in es :: CopyUse(e)) +
    (set e, i | e in es && 0 <= i < PDX_UTOP :: TableUse(e, i)) +
    (set e, i, j | e in es && 0 <= i < PDX_UTOP && 0 <= j < NPTE :: LeafUse(e, i, j))
  }

  /** All the places that refer to frame `f`. */
  ghost function UsesOf(s: Mmu, f: int): (r: set<Use>)
    ensures forall u :: u in r <==> Live(s, u) && Target(s, u) == f
  {
    set u | u in Universe(s.dir.Keys) && Live(s, u) && Target(s, u) == f
  }

  // ---------- the invariant ----------

  ghost predicate Shape(s: Mmu) {
    |s.mem| == |s.ref| == |s.boot| <= MAXPAGES &&
    (forall f :: 0 <= f < |s.mem| ==> IsFrame(s.mem[f])) &&
    s.copy.Keys <= s.dir.Keys
  }

  ghost predicate InRange(s: Mmu) {
    forall u :: Live(s, u) ==> 0 <= Target(s, u) < |s.mem| && SoundEntry(s, u)
  }

  /** An entry holds a 32-bit address. A directory entry has no permission bits: for the hardware it
      points to the next level. */
  ghost predicate SoundEntry(s: Mmu, u: Use)
    requires Live(s, u)
  {
    (u.TableUse? ==> PteFlags(DirWord(s, u.e, u.i)) == PTE_V && DirWord(s, u.e, u.i) < PTE_LIMIT) &&
    (u.LeafUse? ==> LeafWord(s, u.e, u.i, u.j) < PTE_LIMIT)
  }

  /** A frame used as directory, directory copy or table has no second use of any kind. */
  ghost predicate Sole(s: Mmu)
    requires Shape(s) && InRange(s)
  {
    (forall u, v :: Live(s, u) && Live(s, v) && !u.LeafUse? && Target(s, u) == Target(s, v) ==> u == v) &&
    (forall u :: Live(s, u) && !u.LeafUse? ==> s.boot[Target(s, u)] == 0)
  }

  ghost predicate Counted(s: Mmu)
    requires Shape(s)
  {
    forall f :: 0 <= f < |s.mem| ==> s.boot[f] >= 0 && s.ref[f] == s.boot[f] + |UsesOf(s, f)|
  }

  /** Every frame is on the free list once, or held by a caller, or referenced: never two of these. */
  ghost predicate Partitioned(s: Mmu)
    requires Shape(s)
  {
    NoDup(s.free) &&
    (forall f :: f in s.free <==> 0 <= f < |s.mem| && s.ref[f] == 0 && f !in s.held) &&
    (forall f :: f in s.held ==> 0 <= f < |s.mem| && s.ref[f] == 0)
  }

  ghost predicate Structure(s: Mmu) {
    Shape(s) && InRange(s) && Sole(s)
  }

  ghost predicate Core(s: Mmu) {
    Structure(s) && Counted(s) && Partitioned(s)
  }

  /** The copied directory agrees with the live one at every index but its own. */
  ghost predicate SelfMapped(s: Mmu, e: int)
    requires e in s.dir
  {
    PteValid(DirWord(s, e, PDX_UVPT)) ==>
      e in s.copy && DirWord(s, e, PDX_UVPT) == MakePte(s.copy[e], 0) &&
      (forall i :: 0 <= i < NPTE && i != PDX_UVPT ==> EntryAgrees(Word(s, s.copy[e], i), DirWord(s, e, i))) &&
      EntryAgrees(Word(s, s.copy[e], PDX_UVPT), MakePte(s.dir[e], 0))
  }

  /** Same validity; when valid, same address, and the copied entry is a user-readable leaf, writable
      only if the live entry has that bit. */
  ghost predicate EntryAgrees(copied: int, live: int) {
    PteValid(copied) == PteValid(live) &&
    (PteValid(live) ==> copied / 1024 == live / 1024 && HasR(copied) && HasU(copied) && HasW(copied) == HasW(live))
  }

  ghost predicate Inv(s: Mmu) {
    Core(s) && forall e :: e in s.dir ==> SelfMapped(s, e)
  }

  // ---------- the abstract view ----------

  /** The leaf entry of page number `v` in env `e`. */
  ghost function LeafOf(e: int, v: int): Use {
    LeafUse(e, v / NPTE, v % NPTE)
  }

  ghost function EntryOf(s: Mmu, u: Use): (int, int)
    requires Live(s, u) && u.LeafUse?
  {
    (Target(s, u), PteFlags(LeafWord(s, u.e, u.i, u.j)))
  }

  /** The address space of env `e` below UTOP: page number to (frame, flags). */
  ghost function PageMap(s: Mmu, e: int): map<int, (int, int)> {
    map v | 0 <= v < PDX_UTOP * NPTE && Live(s, LeafOf(e, v)) :: EntryOf(s, LeafOf(e, v))
  }

  // ---------- counting ----------

  /** Use `v` is the same in both states: as live as before, for the same frame, with the same flags. */
  ghost predicate SameUse(s: Mmu, t: Mmu, v: Use) {
    (Live(t, v) <==> Live(s, v)) &&
    (Live(s, v) ==> Target(t, v) == Target(s, v)) &&
    (Live(s, v) && v.LeafUse? ==> LeafWord(t, v.e, v.i, v.j) == LeafWord(s, v.e, v.i, v.j)) &&
    (Live(s, v) && v.TableUse? ==> DirWord(t, v.e, v.i) == DirWord(s, v.e, v.i))
  }

  ghost predicate SameUses(s: Mmu, t: Mmu) {
    forall v {:trigger SameUse(s, t, v)} {:trigger Live(s, v)} {:trigger Live(t, v)} :: SameUse(s, t, v)
  }

  /** All uses other than `u` are the same. */
  ghost predicate SameBut(s: Mmu, t: Mmu, u: Use) {
    forall v {:trigger SameUse(s, t, v)} {:trigger Live(s, v)} {:trigger Live(t, v)} :: v != u ==> SameUse(s, t, v)
  }

  ghost predicate LosesUse(s: Mmu, t: Mmu, u: Use) {
    Live(s, u) && !Live(t, u) && SameBut(s, t, u)
  }

  ghost predicate GainsUse(s: Mmu, t: Mmu, u: Use) {
    !Live(s, u) && Live(t, u) && SameBut(s, t, u)
  }

  /** `page_decref`: one reference less, and the frame goes to the head of the free list at zero. */
  ghost predicate Released(s: Mmu, t: Mmu, f: int)
    requires 0 <= f < |s.ref|
  {
    t.ref == s.ref[f := s.ref[f] - 1] &&
    t.free == (if s.ref[f] == 1 then [f] + s.free else s.free) &&
    t.held == s.held && t.boot == s.boot
  }

  ghost predicate Retained(s: Mmu, t: Mmu, f: int)
    requires 0 <= f < |s.ref|
  {
    t.ref == s.ref[f := s.ref[f] + 1] && t.free == s.free && t.held == s.held - {f} && t.boot == s.boot
  }

  lemma SetLosesOne<T>(a: set<T>, b: set<T>, u: T)
    requires u in a && u !in b && forall v :: v != u ==> (v in a <==> v in b)
    ensures |b| == |a| - 1
  {
    assert a == b + {u};
  }

  lemma CountUnchanged(s: Mmu, t: Mmu, f: int)
    requires forall v :: Live(s, v) && Target(s, v) == f <==> Live(t, v) && Target(t, v) == f
    ensures UsesOf(t, f) == UsesOf(s, f)
  {
    var a, b := UsesOf(s, f), UsesOf(t, f);
    forall v ensures v in a <==> v in b {
    }
  }

  /** `t` has one use of its frame fewer than `s`, and the others are the same. */
  lemma CountLost(s: Mmu, t: Mmu, u: Use, f: int)
    requires LosesUse(s, t, u) || GainsUse(t, s, u)
    ensures |UsesOf(t, f)| == |UsesOf(s, f)| - (if f == Target(s, u) then 1 else 0)
  {
    var a, b := UsesOf(s, f), UsesOf(t, f);
    forall v: Use | v != u ensures v in a <==> v in b {
      assert SameUse(s, t, v) || SameUse(t, s, v);
    }
    if f == Target(s, u) {
      SetLosesOne(a, b, u);
    } else {
      CountUnchanged(s, t, f);
    }
  }

  /** A referenced frame is neither free nor held. */
  lemma LiveIsCounted(s: Mmu, u: Use)
    requires Core(s) && Live(s, u)
    ensures var f := Target(s, u);
            s.ref[f] >= 1 && f !in s.free && f !in s.held && (!u.LeafUse? ==> s.ref[f] == 1)
  {
    var f := Target(s, u);
    assert u in UsesOf(s, f);
    assert {u} <= UsesOf(s, f);
    assert |UsesOf(s, f)| >= 1 by {
      assert |UsesOf(s, f) - {u}| + |{u}| == |UsesOf(s, f)|;
    }
    if !u.LeafUse? {
      assert UsesOf(s, f) == {u};
    }
  }

  lemma LossKeepsStructure(s: Mmu, t: Mmu, u: Use)
    requires Structure(s) && LosesUse(s, t, u) && Shape(t) && |t.mem| == |s.mem| && t.boot == s.boot
    ensures Structure(t)
  {
    forall v | Live(t, v) ensures Live(s, v) && SameUse(s, t, v) {
    }
  }

  lemma CountsAfterLoss(s: Mmu, t: Mmu, u: Use)
    requires Shape(s) && Counted(s) && LosesUse(s, t, u) && Shape(t) && |t.mem| == |s.mem|
    requires 0 <= Target(s, u) < |s.ref| && t.ref == s.ref[Target(s, u) := s.ref[Target(s, u)] - 1] && t.boot == s.boot
    ensures Counted(t)
  {
    forall g | 0 <= g < |t.mem| ensures t.boot[g] >= 0 && t.ref[g] == t.boot[g] + |UsesOf(t, g)| {
      CountLost(s, t, u, g);
    }
  }

  /** Dropping one use together with one count keeps counts exact and the partition intact. */
  lemma ReleaseKeepsCore(s: Mmu, t: Mmu, u: Use)
    requires Core(s) && LosesUse(s, t, u) && Shape(t) && |t.mem| == |s.mem|
    requires Released(s, t, Target(s, u))
    ensures Core(t)
  {
    hide Sole, Counted, Partitioned, InRange, SameBut, SameUse;
    LiveIsCounted(s, u);
    LossKeepsStructure(s, t, u);
    assert 0 <= Target(s, u) < |s.ref| by { TargetInRange(s, u); }
    CountsAfterLoss(s, t, u);
    ReleaseKeepsPartition(s, t, Target(s, u));
  }

  lemma TargetInRange(s: Mmu, u: Use)
    requires Structure(s) && Live(s, u)
    ensures 0 <= Target(s, u) < |s.mem|
  {}

  lemma ReleaseKeepsPartition(s: Mmu, t: Mmu, f: int)
    requires Shape(s) && Shape(t) && Partitioned(s) && |t.mem| == |s.mem|
    requires 0 <= f < |s.ref| && Released(s, t, f) && s.ref[f] >= 1 && f !in s.free && f !in s.held
    ensures Partitioned(t)
  {
    forall g ensures g in t.free <==> 0 <= g < |t.mem| && t.ref[g] == 0 && g !in t.held {
    }
  }

  lemma RetainKeepsPartition(s: Mmu, t: Mmu, f: int)
    requires Shape(s) && Shape(t) && Partitioned(s) && |t.mem| == |s.mem|
    requires 0 <= f < |s.ref| && Retained(s, t, f) && s.ref[f] >= 0 && f !in s.free
    ensures Partitioned(t)
  {
    forall g ensures g in t.free <==> 0 <= g < |t.mem| && t.ref[g] == 0 && g !in t.held {
    }
  }

  lemma GainKeepsStructure(s: Mmu, t: Mmu, u: Use)
    requires Structure(s) && GainsUse(s, t, u) && Shape(t) && |t.mem| == |s.mem| && t.boot == s.boot
    requires 0 <= Target(t, u) < |s.mem| && SoundEntry(t, u)
    requires !u.LeafUse? ==> s.boot[Target(t, u)] == 0 && forall v :: Live(s, v) ==> Target(s, v) != Target(t, u)
    requires u.LeafUse? ==> forall v :: Live(s, v) && !v.LeafUse? ==> Target(s, v) != Target(t, u)
    ensures Structure(t)
  {
    forall v | Live(t, v) && v != u ensures Live(s, v) && SameUse(s, t, v) {
    }
  }

  lemma CountsAfterGain(s: Mmu, t: Mmu, u: Use)
    requires Shape(s) && Counted(s) && GainsUse(s, t, u) && Shape(t) && |t.mem| == |s.mem|
    requires 0 <= Target(t, u) < |s.ref| && t.ref == s.ref[Target(t, u) := s.ref[Target(t, u)] + 1] && t.boot == s.boot
    ensures Counted(t)
  {
    forall g | 0 <= g < |t.mem| ensures t.boot[g] >= 0 && t.ref[g] == t.boot[g] + |UsesOf(t, g)| {
      CountLost(t, s, u, g);
    }
  }

  /** Adding one use of a frame that is held, or that only leaf entries refer to, together with one
      count. A frame becomes a table, directory or copy only when nothing referred to it before. */
  lemma RetainKeepsCore(s: Mmu, t: Mmu, u: Use)
    requires Core(s) && GainsUse(s, t, u) && Shape(t) && |t.mem| == |s.mem|
    requires 0 <= Target(t, u) < |s.mem| && SoundEntry(t, u) && Retained(s, t, Target(t, u))
    requires Target(t, u) !in s.free
    requires !u.LeafUse? ==> Target(t, u) in s.held
    requires u.LeafUse? ==> forall v :: Live(s, v) && !v.LeafUse? ==> Target(s, v) != Target(t, u)
    ensures Core(t)
  {
    hide Sole, InRange, SameBut, SameUse;
    assert s.ref[Target(t, u)] >= 0 by { assert Counted(s); }
    assert !u.LeafUse? ==> s.ref[Target(t, u)] == 0 by { assert Partitioned(s); }
    hide Counted, Partitioned;
    if !u.LeafUse? {
      UnreferencedHasNoUse(s, Target(t, u));
    }
    GainKeepsStructure(s, t, u);
    CountsAfterGain(s, t, u);
    RetainKeepsPartition(s, t, Target(t, u));
  }

  /** A free or held frame is named by no entry. */
  lemma UnreferencedHasNoUse(s: Mmu, f: int)
    requires Core(s) && 0 <= f < |s.mem| && s.ref[f] == 0
    ensures forall u :: Live(s, u) ==> Target(s, u) != f
    ensures s.boot[f] == 0
  {
    forall u | Live(s, u) ensures Target(s, u) != f {
      if Target(s, u) == f { LiveIsCounted(s, u); }
    }
  }
}
