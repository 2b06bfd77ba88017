/** Loading a program segment page by page (lib/elfloader.c with the mapper of kern/env.c), and exactly
    when the image in memory is the right one. */
module ElfLoad {
  import Sv32

  const BY2PG := 4096
  const E_NO_MEM := 4

  const PF_X := 1
  const PF_W := 2
  const PF_R := 4
  const PTE_V := 1
  const PTE_R := 2
  const PTE_W := 4
  const PTE_X := 8
  const PTE_U := 16

  datatype Page = Page(content: seq<int>, perm: int)

  datatype Source = Null | Bytes(bytes: seq<int>)

  function RoundDown(va: int): int { va / BY2PG * BY2PG }

  function Min(a: int, b: int): int { if a < b then a else b }

  /** Byte k of the segment as the file and the zero fill define it. */
  function Wanted(bin: seq<int>, k: nat): int { if k < |bin| then bin[k] else 0 }

  /** Address a holds byte v on a page with these permissions. */
  ghost predicate Holds(pages: map<int, Page>, a: int, v: int, perm: int) {
    a / BY2PG in pages && |pages[a / BY2PG].content| == BY2PG && pages[a / BY2PG].content[a % BY2PG] == v &&
    pages[a / BY2PG].perm == perm
  }

  /** The first n bytes of the segment are in place. */
  ghost predicate Loaded(pages: map<int, Page>, va: int, bin: seq<int>, n: int, perm: int) {
    forall k: nat :: k < n ==> Holds(pages, va + k, Wanted(bin, k), perm)
  }

  /** The condition under which the loader works: the segment starts at a page boundary, or the file part
      fills the first page, or there is nothing to fill up behind the file part. */
  predicate Loadable(va: int, filesz: int, memsz: int) {
    va % BY2PG == 0 || filesz >= BY2PG - va % BY2PG || memsz <= filesz
  }

  predicate Bit(flags: int, f: int)
    requires f > 0
  {
    flags / f % 2 == 1
  }

  /** The content that `load_icode_mapper` gives to a fresh page. */
  function Content(offset: int, src: Source, len: int): (c: seq<int>)
    requires 0 <= offset && (src.Bytes? ==> 0 <= len <= |src.bytes| && offset + len <= BY2PG)
    ensures |c| == BY2PG
    ensures forall j :: 0 <= j < BY2PG ==> c[j] == if src.Bytes? && offset <= j < offset + len then src.bytes[j - offset] else 0
  {
    var zero := seq(BY2PG, _ => 0);
    if src.Null? then zero else zero[..offset] + src.bytes[..len] + zero[offset + len..]
  }

  /** Where the file part has got to after m pages: at a page boundary, unless it ended inside the first page. */
  predicate PartDone(va: int, filesz: int, i: int, m: int) {
    if va % BY2PG != 0 && filesz < BY2PG - va % BY2PG then i == filesz && m == 1 && va + i < BY2PG * (va / BY2PG + 1)
    else va + i == BY2PG * (va / BY2PG + m)
  }

  class AddressSpace {
    var pages: map<int, Page>
    /** The pages that were mapped, in order. */
    ghost var mapped: seq<int>
    /** What page_alloc and page_insert answer to the n-th call of the mapper, and how many calls there were. */
    const grants: nat -> bool
    var asked: nat

    constructor (answers: nat -> bool)
      ensures pages == map[] && mapped == [] && asked == 0 && grants == answers
    {
      pages, mapped, asked, grants := map[], [], 0, answers;
    }

    /** The calls from a on were all granted, or the last of them, and only that one, was refused. */
    ghost predicate Answered(a: nat, b: nat, r: int) {
      (forall i: nat :: a <= i < b - 1 ==> grants(i)) &&
      if r == 0 then a == b || (a < b && grants(b - 1)) else r == -E_NO_MEM && a < b && !grants(b - 1)
    }

    /** `load_icode_mapper`: a fresh zero page, with `len` bytes of the source copied to `offset`. */
    method MapPage(va: int, offset: int, perm: int, src: Source, len: int) returns (r: int)
      requires 0 <= offset && (src.Bytes? ==> 0 <= len <= |src.bytes| && offset + len <= BY2PG)
      modifies this
      ensures r == if grants(old(asked)) then 0 else -4
      ensures asked == old(asked) + 1
      ensures r != 0 ==> pages == old(pages) && mapped == old(mapped)
      ensures r == 0 ==> mapped == old(mapped) + [va / BY2PG]
      ensures r == 0 ==> pages == old(pages)[va / BY2PG := Page(Content(offset, src, len), perm)]
    {
      asked := asked + 1;
      if !grants(asked - 1) {
        return -E_NO_MEM;
      }
      var content := seq(BY2PG, _ => 0);
      if src.Bytes? {
        content := content[..offset] + src.bytes[..len] + content[offset + len..];
      }
      pages := pages[va / BY2PG := Page(content, perm)];
      mapped := mapped + [va / BY2PG];
      r := 0;
    }

    /** `elf_load_seg` on a segment with the given file part and size in memory. */
    method ElfLoadSeg(va: int, bin: seq<int>, memsz: int, flags: int) returns (r: int)
      requires 0 <= va && |bin| <= memsz && va + memsz < 0x8000_0000 && 0 <= flags
      modifies this
      ensures r == if forall i: nat :: old(asked) <= i < old(asked) + Calls(va, |bin|, memsz) ==> grants(i) then 0 else -4
      ensures r == 0 ==> asked == old(asked) + Calls(va, |bin|, memsz)
      ensures r == 0 && Loadable(va, |bin|, memsz) ==> Loaded(pages, va, bin, memsz, Perm(flags))
      ensures r == 0 ==> old(mapped) <= mapped
      ensures r == 0 && Loadable(va, |bin|, memsz) ==> mapped[|old(mapped)|..] == PagesOf(va, memsz)
      ensures r == 0 && !Loadable(va, |bin|, memsz) ==>
        Blank(old(pages), pages, va / BY2PG, Steps(|bin|, memsz), Perm(flags)) &&
        mapped == old(mapped) + [va / BY2PG] + Run(va / BY2PG, Steps(|bin|, memsz))
      ensures forall p :: p in old(pages) && !(va / BY2PG <= p && p * BY2PG < va + memsz) ==> p in pages && pages[p] == old(pages)[p]
    {
      hide Loaded, OthersSame, Elsewhere, Blank;
      var perm := PTE_V + PTE_U;
      if Bit(flags, PF_R) {
        perm := perm + PTE_R;
      }
      if Bit(flags, PF_W) {
        perm := perm + PTE_W;
      }
      if Bit(flags, PF_X) {
        perm := perm + PTE_X;
      }
      ghost var pages0, mapped0 := pages, mapped;
      var i;
      ghost var m;
      r, i, m := FilePart(va, bin, memsz, perm);
      if r == 0 {
        r := ZeroPart(va, bin, memsz, perm, i, pages0, mapped0, m);
      }
      SameMeans(pages0, pages, va, memsz);
    }

    /** The first page, if the segment starts inside of it, and Step 1. */
    method FilePart(va: int, bin: seq<int>, memsz: int, perm: int) returns (r: int, i: int, ghost m: int)
      requires 0 <= va && |bin| <= memsz
      modifies this
      ensures asked >= old(asked) && Answered(old(asked), asked, r)
      ensures if r == 0 then asked == old(asked) + m else asked <= old(asked) + Calls(va, |bin|, memsz)
      ensures OthersSame(old(pages), pages, va, memsz)
      ensures r == 0 ==> |bin| <= i && Progress(old(pages), old(mapped), pages, mapped, va, bin, memsz, m, perm)
      ensures r == 0 ==> PartDone(va, |bin|, i, m)
    {
      hide Content, Loaded, Holds, OthersSame;
      ghost var pages0, mapped0, p0 := pages, mapped, va / BY2PG;
      var binSize := |bin|;
      var offset := va - RoundDown(va);
      i := 0;
      NothingDone(pages, mapped, va, bin, memsz, perm);
      m := 0;
      if offset != 0 {
        r := MapPage(va, offset, perm, Bytes(bin), Min(binSize, BY2PG - offset));
        if r != 0 {
          return;
        }
        FirstPage(pages0, va, bin, perm);
        Progressed(pages0, mapped0, pages0, mapped0, pages, mapped, va, bin, memsz, 0, perm);
        m := 1;
        i := Min(binSize, BY2PG - offset);
      }
      while i < binSize
        invariant Progress(pages0, mapped0, pages, mapped, va, bin, memsz, m, perm)
        invariant 0 <= i && asked == old(asked) + m && Answered(old(asked), asked, 0)
        invariant PartDone(va, binSize, i, m)
        decreases binSize - i
      {
        ghost var before, mbefore := pages, mapped;
        r := MapPage(va + i, 0, perm, Bytes(bin[i..]), Min(binSize - i, BY2PG));
        if r != 0 {
          return;
        }
        NextPage(before, va, bin, i, Bytes(bin[i..]), Min(binSize - i, BY2PG), perm, p0 + m);
        Progressed(pages0, mapped0, before, mbefore, pages, mapped, va, bin, memsz, m, perm);
        m := m + 1;
        i := i + BY2PG;
      }
      r := 0;
    }

    /** Step 2. */
    method ZeroPart(va: int, bin: seq<int>, memsz: int, perm: int, start: int, ghost pages0: map<int, Page>,
                    ghost mapped0: seq<int>, ghost m0: int)
      returns (r: int)
      requires 0 <= va && |bin| <= memsz && |bin| <= start
      requires Progress(pages0, mapped0, pages, mapped, va, bin, memsz, m0, perm)
      requires PartDone(va, |bin|, start, m0)
      modifies this
      ensures asked >= old(asked) && Answered(old(asked), asked, r)
      ensures if r == 0 then asked == old(asked) - m0 + Calls(va, |bin|, memsz) else asked <= old(asked) - m0 + Calls(va, |bin|, memsz)
      ensures OthersSame(pages0, pages, va, memsz)
      ensures r == 0 && Loadable(va, |bin|, memsz) ==> Loaded(pages, va, bin, memsz, perm)
      ensures r == 0 && Loadable(va, |bin|, memsz) ==> mapped0 <= mapped && mapped[|mapped0|..] == PagesOf(va, memsz)
      ensures r == 0 && !Loadable(va, |bin|, memsz) ==>
        Blank(pages0, pages, va / BY2PG, Steps(|bin|, memsz), perm) &&
        mapped == mapped0 + [va / BY2PG] + Run(va / BY2PG, Steps(|bin|, memsz))
    {
      hide Content, Loaded, Holds, OthersSame, Elsewhere, Blank;
      if !Loadable(va, |bin|, memsz) {
        r := ZeroPartAgain(va, bin, memsz, perm, start, pages0, mapped0, m0);
        return;
      }
      ghost var m, p0 := m0, va / BY2PG;
      var i := start;
      while i < memsz
        invariant asked == old(asked) - m0 + m && m0 <= m && Answered(old(asked), asked, 0)
        invariant |bin| <= i && Progress(pages0, mapped0, pages, mapped, va, bin, memsz, m, perm)
        invariant va + i == BY2PG * (p0 + m) || (memsz <= i && va + memsz <= BY2PG * (p0 + m))
        decreases memsz - i
      {
        ghost var before, mbefore := pages, mapped;
        r := MapPage(va + i, 0, perm, Null, Min(|bin| - i, BY2PG));
        if r != 0 {
          return;
        }
        NextPage(before, va, bin, i, Null, Min(|bin| - i, BY2PG), perm, p0 + m);
        Progressed(pages0, mapped0, before, mbefore, pages, mapped, va, bin, memsz, m, perm);
        m := m + 1;
        i := i + BY2PG;
      }
      AllPages(pages0, mapped0, pages, mapped, va, bin, memsz, m, perm);
      r := 0;
    }

    /** Step 2 when the file part ends inside the first page: that page is mapped again, without it. */
    method ZeroPartAgain(va: int, bin: seq<int>, memsz: int, perm: int, start: int, ghost pages0: map<int, Page>,
                         ghost mapped0: seq<int>, ghost m0: int)
      returns (r: int)
      requires 0 <= va && |bin| < memsz && start == |bin| && m0 == 1 && va + start < BY2PG * (va / BY2PG + 1)
      requires Progress(pages0, mapped0, pages, mapped, va, bin, memsz, m0, perm)
      modifies this
      ensures asked >= old(asked) && Answered(old(asked), asked, r)
      ensures if r == 0 then asked == old(asked) + Steps(|bin|, memsz) else asked <= old(asked) + Steps(|bin|, memsz)
      ensures OthersSame(pages0, pages, va, memsz)
      ensures r == 0 ==>
        Blank(pages0, pages, va / BY2PG, Steps(|bin|, memsz), perm) &&
        mapped == mapped0 + [va / BY2PG] + Run(va / BY2PG, Steps(|bin|, memsz))
    {
      hide Loaded, Holds, OthersSame, Blank;
      ghost var p0, m := va / BY2PG, 0;
      OncePages(mapped0, mapped, p0);
      BlankStarts(pages0, pages, mapped, p0, perm);
      var i := start;
      while i < memsz
        invariant 0 <= m && i == |bin| + BY2PG * m && (m > 0 ==> i - BY2PG < memsz) && OthersSame(pages0, pages, va, memsz)
        invariant asked == old(asked) + m && Answered(old(asked), asked, 0)
        invariant BlankBut(pages0, pages, p0, m, perm) && mapped == mapped0 + [p0] + Run(p0, m)
        decreases memsz - i
      {
        ghost var before, mbefore := pages, mapped;
        r := MapPage(va + i, 0, perm, Null, Min(|bin| - i, BY2PG));
        if r != 0 {
          return;
        }
        Sv32.DivByParts(va + i, p0 + m, va + start - BY2PG * p0, BY2PG);
        BlankGrows(pages0, before, pages, p0, m, perm);
        RunGrows(mapped0 + [p0], mbefore, mapped, p0, m);
        StillOthers(pages0, before, pages, va, memsz, p0 + m);
        m := m + 1;
        i := i + BY2PG;
      }
      BlankDone(pages0, pages, p0, m, perm);
      Sv32.DivByParts(memsz - |bin| + BY2PG - 1, m, memsz - |bin| + BY2PG - 1 - BY2PG * m, BY2PG);
      r := 0;
    }
  }

  /** How many pages Step 2 maps from the end of the file part on. */
  function Steps(filesz: int, memsz: int): (n: nat)
    requires 0 <= filesz <= memsz
  {
    (memsz - filesz + BY2PG - 1) / BY2PG
  }

  /** How many pages the loader asks for, if nothing is refused. */
  function Calls(va: int, filesz: int, memsz: int): (n: nat)
    requires 0 <= va && 0 <= filesz <= memsz
  {
    if Loadable(va, filesz, memsz) then |PagesOf(va, memsz)| else 1 + Steps(filesz, memsz)
  }

  /** n page numbers from p0 on. */
  function Run(p0: int, n: nat): seq<int> {
    seq(n, k requires 0 <= k => p0 + k)
  }

  /** The n pages from p0 on hold zeros only, and no other page has changed. */
  ghost predicate Blank(pages0: map<int, Page>, pages: map<int, Page>, p0: int, n: int, perm: int) {
    (forall p :: p0 <= p < p0 + n ==> p in pages && pages[p] == Page(seq(BY2PG, _ => 0), perm)) && Elsewhere(pages0, pages, p0, n)
  }

  /** Pages other than the m from p0 on are as before. */
  ghost predicate Elsewhere(pages0: map<int, Page>, pages: map<int, Page>, p0: int, m: int) {
    forall p :: !(p0 <= p < p0 + m) ==> (p in pages <==> p in pages0) && (p in pages ==> pages[p] == pages0[p])
  }

  /** The same while page p0 has its old content until it is mapped again. */
  ghost predicate BlankBut(pages0: map<int, Page>, pages: map<int, Page>, p0: int, m: int, perm: int) {
    (forall p :: p0 <= p < p0 + m ==> p in pages && pages[p] == Page(seq(BY2PG, _ => 0), perm)) &&
    Elsewhere(pages0, pages, p0, if m == 0 then 1 else m)
  }

  lemma BlankStarts(pages0: map<int, Page>, pages: map<int, Page>, mapped: seq<int>, p0: int, perm: int)
    requires Elsewhere(pages0, pages, p0, 1)
    ensures BlankBut(pages0, pages, p0, 0, perm) && mapped == mapped + Run(p0, 0)
  {}

  lemma BlankGrows(pages0: map<int, Page>, before: map<int, Page>, pages: map<int, Page>, p0: int, m: int, perm: int)
    requires m >= 0 && BlankBut(pages0, before, p0, m, perm) && pages == before[p0 + m := Page(Content(0, Null, 0), perm)]
    ensures BlankBut(pages0, pages, p0, m + 1, perm)
  {
    assert Content(0, Null, 0) == seq(BY2PG, _ => 0);
  }

  lemma BlankDone(pages0: map<int, Page>, pages: map<int, Page>, p0: int, m: int, perm: int)
    requires m > 0 && BlankBut(pages0, pages, p0, m, perm)
    ensures Blank(pages0, pages, p0, m, perm)
  {}

  lemma RunGrows(first: seq<int>, before: seq<int>, mapped: seq<int>, p0: int, m: nat)
    requires before == first + Run(p0, m) && mapped == before + [p0 + m]
    ensures mapped == first + Run(p0, m + 1)
  {
    assert Run(p0, m + 1) == Run(p0, m) + [p0 + m];
  }

  lemma StillOthers(pages0: map<int, Page>, before: map<int, Page>, pages: map<int, Page>, va: int, memsz: int, q: int)
    requires OthersSame(pages0, before, va, memsz) && q in pages && pages == before[q := pages[q]]
    requires va / BY2PG <= q && q * BY2PG < va + memsz
    ensures OthersSame(pages0, pages, va, memsz)
  {}

  /** When the file part ends inside the first page and more memory is asked for, the image is right if and
      only if the file part was all zeros and the pages that Step 2 maps reach to the end. Otherwise the
      file's bytes are lost, or the last page is missing. */
  lemma BlankImageIsRightExactly(pages0: map<int, Page>, pages: map<int, Page>, va: int, bin: seq<int>, memsz: int, perm: int)
    requires 0 <= va && |bin| <= memsz && !Loadable(va, |bin|, memsz)
    requires Blank(pages0, pages, va / BY2PG, Steps(|bin|, memsz), perm)
    requires (va + memsz - 1) / BY2PG !in pages0
    ensures Loaded(pages, va, bin, memsz, perm) <==>
      (forall k :: 0 <= k < |bin| ==> bin[k] == 0) && (va + |bin|) % BY2PG + (memsz - |bin| - 1) % BY2PG < BY2PG
  {
    var p0, n := va / BY2PG, Steps(|bin|, memsz);
    var q, o := (memsz - |bin| - 1) / BY2PG, (memsz - |bin| - 1) % BY2PG;
    Sv32.DivByParts(va + |bin|, p0, va + |bin| - BY2PG * p0, BY2PG);
    Sv32.DivByParts(memsz - |bin| + BY2PG - 1, q + 1, o, BY2PG);
    var last, x := va + memsz - 1, va + |bin| - BY2PG * p0 + o;
    assert n == q + 1 && last == BY2PG * (p0 + q) + x;
    if x < BY2PG {
      Sv32.DivByParts(last, p0 + q, x, BY2PG);
      forall k: nat | k < memsz ensures Holds(pages, va + k, Wanted(bin, k), perm) <==> Wanted(bin, k) == 0 {
        assert p0 <= (va + k) / BY2PG <= last / BY2PG;
      }
      assert forall k: nat :: k < |bin| ==> Wanted(bin, k) == bin[k];
    } else {
      Sv32.DivByParts(last, p0 + q + 1, x - BY2PG, BY2PG);
      assert !Holds(pages, va + (memsz - 1), Wanted(bin, memsz - 1), perm);
    }
  }

  lemma OncePages(mapped0: seq<int>, mapped: seq<int>, p0: int)
    requires mapped == mapped0 + seq(1, k requires 0 <= k => p0 + k)
    ensures mapped == mapped0 + [p0]
  {
    assert seq(1, k requires 0 <= k => p0 + k) == [p0];
  }

  lemma SameMeans(pages0: map<int, Page>, pages: map<int, Page>, va: int, memsz: int)
    requires OthersSame(pages0, pages, va, memsz)
    ensures forall p :: p in pages0 && !(va / BY2PG <= p && p * BY2PG < va + memsz) ==> p in pages && pages[p] == pages0[p]
  {}

  lemma NothingDone(pages: map<int, Page>, mapped: seq<int>, va: int, bin: seq<int>, memsz: int, perm: int)
    ensures Progress(pages, mapped, pages, mapped, va, bin, memsz, 0, perm)
  {
    assert mapped == mapped + seq(0, k requires 0 <= k => va / BY2PG + k);
  }

  /** Pages that the segment does not touch are as before. */
  ghost predicate OthersSame(pages0: map<int, Page>, pages: map<int, Page>, va: int, memsz: int) {
    forall p :: p in pages0 && !(va / BY2PG <= p && p * BY2PG < va + memsz) ==> p in pages && pages[p] == pages0[p]
  }

  /** The first m pages of the segment are loaded, each mapped once. */
  ghost predicate Progress(pages0: map<int, Page>, mapped0: seq<int>, pages: map<int, Page>, mapped: seq<int>, va: int,
                           bin: seq<int>, memsz: int, m: int, perm: int) {
    m >= 0 && mapped == mapped0 + seq(m, k requires 0 <= k => va / BY2PG + k) &&
    Loaded(pages, va, bin, BY2PG * (va / BY2PG + m) - va, perm) && OthersSame(pages0, pages, va, memsz) &&
    Elsewhere(pages0, pages, va / BY2PG, m) &&
    (m > 0 ==> BY2PG * (va / BY2PG + m - 1) < va + memsz)
  }

  /** The permission bits of a segment. */
  function Perm(flags: int): int {
    PTE_V + PTE_U + (if Bit(flags, PF_R) then PTE_R else 0) + (if Bit(flags, PF_W) then PTE_W else 0) +
    if Bit(flags, PF_X) then PTE_X else 0
  }

  /** The numbers of the pages that the segment touches. */
  function PagesOf(va: int, memsz: int): seq<int>
    requires 0 <= va && 0 <= memsz
  {
    seq((va + memsz + BY2PG - 1) / BY2PG - va / BY2PG, i requires 0 <= i => va / BY2PG + i)
  }

  /** Those pages, by their addresses and in rising order. */
  lemma PagesTouched(va: int, memsz: int)
    requires 0 <= va && 0 <= memsz
    ensures forall p :: p in PagesOf(va, memsz) <==> va / 4096 <= p && p * 4096 < va + memsz
    ensures forall i: nat :: i < |PagesOf(va, memsz)| ==> PagesOf(va, memsz)[i] == va / 4096 + i
  {
    var n, p0 := |PagesOf(va, memsz)|, va / 4096;
    forall p ensures p in PagesOf(va, memsz) <==> p0 <= p && p * 4096 < va + memsz {
      if p0 <= p && p * 4096 < va + memsz {
        assert p - p0 < n;
        assert PagesOf(va, memsz)[p - p0] == p;
      }
    }
  }

  /** Which permission bit of the entry each flag of the segment gives: bit 2 of p_flags is R, bit 1 W, bit 0 X,
      and the page is always valid and the user's. */
  lemma PermOfFlags(flags: int)
    requires 0 <= flags
    ensures Perm(flags) == 0x11 + 2 * (flags / 4 % 2) + 4 * (flags / 2 % 2) + 8 * (flags % 2)
    ensures Sv32.PteValid(Perm(flags)) && Sv32.HasU(Perm(flags))
    ensures Sv32.HasR(Perm(flags)) <==> flags / 4 % 2 == 1
    ensures Sv32.HasW(Perm(flags)) <==> flags / 2 % 2 == 1
    ensures Sv32.HasX(Perm(flags)) <==> flags % 2 == 1
  {}

  /** One more page: byte j of page q is byte BY2PG * q + j - va of the segment. */
  lemma PageAdded(pages: map<int, Page>, va: int, bin: seq<int>, q: int, c: seq<int>, perm: int)
    requires 0 <= va && va / BY2PG <= q && |c| == BY2PG && Loaded(pages, va, bin, BY2PG * q - va, perm)
    requires forall j :: 0 <= j < BY2PG && BY2PG * q + j >= va ==> c[j] == Wanted(bin, BY2PG * q + j - va)
    ensures Loaded(pages[q := Page(c, perm)], va, bin, BY2PG * (q + 1) - va, perm)
  {
    var t := pages[q := Page(c, perm)];
    forall k: nat | k < BY2PG * (q + 1) - va ensures Holds(t, va + k, Wanted(bin, k), perm) {
      var a := va + k;
      if k < BY2PG * q - va {
        assert Holds(pages, a, Wanted(bin, k), perm);
        assert a / BY2PG < q;
      } else {
        Sv32.DivByParts(a, q, a - BY2PG * q, BY2PG);
      }
    }
  }

  lemma FirstPage(pages: map<int, Page>, va: int, bin: seq<int>, perm: int)
    requires 0 <= va
    ensures var o := va - RoundDown(va); var l := Min(|bin|, BY2PG - o); var p0 := va / BY2PG;
            Loaded(pages[p0 := Page(Content(o, Bytes(bin), l), perm)], va, bin, BY2PG * (p0 + 1) - va, perm)
  {
    var p0, o := va / BY2PG, va - RoundDown(va);
    PageAdded(pages, va, bin, p0, Content(o, Bytes(bin), Min(|bin|, BY2PG - o)), perm);
  }

  lemma NextPage(pages: map<int, Page>, va: int, bin: seq<int>, i: int, src: Source, len: int, perm: int, q: int)
    requires 0 <= va && 0 <= i && va + i == BY2PG * q && Loaded(pages, va, bin, i, perm)
    requires (src == Null && i >= |bin|) || (i < |bin| && src == Bytes(bin[i..]) && len == Min(|bin| - i, BY2PG))
    ensures Loaded(pages[q := Page(Content(0, src, len), perm)], va, bin, BY2PG * (q + 1) - va, perm)
    ensures (va + i) / BY2PG == q
  {
    Sv32.DivByParts(va + i, q, 0, BY2PG);
    PageAdded(pages, va, bin, q, Content(0, src, len), perm);
  }

  lemma Progressed(pages0: map<int, Page>, mapped0: seq<int>, before: map<int, Page>, mbefore: seq<int>, pages: map<int, Page>,
                   mapped: seq<int>, va: int, bin: seq<int>, memsz: int, m: int, perm: int)
    requires Progress(pages0, mapped0, before, mbefore, va, bin, memsz, m, perm)
    requires var q := va / BY2PG + m;
      q in pages && pages == before[q := pages[q]] && mapped == mbefore + [q] && BY2PG * q < va + memsz &&
      Loaded(pages, va, bin, BY2PG * (q + 1) - va, perm)
    ensures Progress(pages0, mapped0, pages, mapped, va, bin, memsz, m + 1, perm)
  {
    hide Loaded;
    var p0 := va / BY2PG;
    assert mapped == mapped0 + (seq(m, k requires 0 <= k => p0 + k) + [p0 + m]);
    assert seq(m, k requires 0 <= k => p0 + k) + [p0 + m] == seq(m + 1, k requires 0 <= k => p0 + k);
    assert va / BY2PG + (m + 1) == p0 + m + 1;
  }

  lemma AllPages(pages0: map<int, Page>, mapped0: seq<int>, pages: map<int, Page>, mapped: seq<int>, va: int, bin: seq<int>,
                 memsz: int, m: int, perm: int)
    requires Progress(pages0, mapped0, pages, mapped, va, bin, memsz, m, perm)
    requires 0 <= va && 0 <= memsz && va + memsz <= BY2PG * (va / BY2PG + m)
    ensures Loaded(pages, va, bin, memsz, perm) && mapped[|mapped0|..] == PagesOf(va, memsz)
  {
    hide Holds;
    var p0 := va / BY2PG;
    var rest := va + memsz - BY2PG * (p0 + m - 1);
    Sv32.DivByParts(va + memsz + BY2PG - 1, p0 + m, if m > 0 then rest - 1 else va - BY2PG * p0 + memsz + BY2PG - 1, BY2PG);
    assert mapped[|mapped0|..] == seq(m, k requires 0 <= k => p0 + k);
    assert PagesOf(va, memsz) == seq(m, k requires 0 <= k => p0 + k);
  }
}
