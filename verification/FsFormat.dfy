/** The image builder, tools/fsformat.c, and its agreement with the file server: what the builder links
    is what the server's block walk finds, and the bitmap it writes passes the server's checks. */
module FsFormat {
  import opened Words
  import opened FsModel
  import FileServer
  import Sv32

  /** `nbitblock`, rounded up; the server uses n / BIT2BLK + 1. */
  function NBitBlock(n: int): int { (n + BIT2BLK - 1) / BIT2BLK }

  lemma {:induction false} OnesAreAWord(m: nat)
    requires m <= 32
    ensures IsWord(Pow2(m) - 1)
    decreases 32 - m
  {
    if m < 32 {
      OnesAreAWord(m + 1);
      assert Pow2(m + 1) == 2 * Pow2(m);
      PowPositive(m);
    } else {
      WordIsPow2();
    }
  }

  lemma {:induction false} PowPositive(m: nat)
    ensures Pow2(m) >= 1
  {
    if m > 0 { PowPositive(m - 1); }
  }

  /** A block whose first `bits` bits are set: the two calls of memset with a whole number of bytes. */
  function FilledBlock(bits: int): Block {
    seq(1024, w => Pow2(if bits <= 32 * w then 0 else if bits >= 32 * w + 32 then 32 else bits - 32 * w) - 1)
  }

  lemma FilledBits(bits: int, w: nat, j: nat)
    requires w < 1024 && j < 32
    ensures IsBlock(FilledBlock(bits)) && (TestBit(FilledBlock(bits)[w], j) <==> 32 * w + j < bits)
  {
    forall k: nat | k < 1024 ensures IsWord(FilledBlock(bits)[k]) {
      OnesAreAWord(if bits <= 32 * k then 0 else if bits >= 32 * k + 32 then 32 else bits - 32 * k);
    }
    OnesBits(if bits <= 32 * w then 0 else if bits >= 32 * w + 32 then 32 else bits - 32 * w, j);
  }

  const FILE2BLK := 16

  /** The k'th file structure of block b. */
  function Id(b: int, k: int): int { b * FILE2BLK + k }

  function Ids(b: int): set<int> { set k | 0 <= k < FILE2BLK :: Id(b, k) }

  lemma IdParts(b: int, k: int)
    requires 0 <= k < FILE2BLK
    ensures Id(b, k) / FILE2BLK == b && Id(b, k) % FILE2BLK == k && Id(b, k) in Ids(b)
  {}

  lemma IdsOf(b: int)
    ensures forall f :: f in Ids(b) <==> f / FILE2BLK == b
  {
    forall f | f / FILE2BLK == b ensures f in Ids(b) {
      assert f == Id(b, f % FILE2BLK);
    }
    forall f | f in Ids(b) ensures f / FILE2BLK == b {
      var k :| 0 <= k < FILE2BLK && f == Id(b, k);
      IdParts(b, k);
    }
  }

  /** The file structures of a fresh block. */
  function NewFiles(b: int): map<int, File> {
    map f | f in Ids(b) :: EmptyFile()
  }

  function EmptyFile(): File { File(0, seq(NDIRECT, _ => 0), 0) }

  function DiskOf(blocks: seq<Block>): map<int, Block> {
    map b | 0 <= b < |blocks| :: blocks[b]
  }

  lemma DiskUpdate(blocks: seq<Block>, b: int, x: Block)
    requires 0 <= b < |blocks|
    ensures DiskOf(blocks[b := x]) == DiskOf(blocks)[b := x]
  {}

  /** Pointers name blocks of [lo, hi), each at most one. */
  ghost predicate Linked(s: Fs, lo: int, hi: int) {
    (forall x :: Holds(s, x) ==> lo <= Ptr(s, x) < hi) &&
    (forall x, y :: Holds(s, x) && Holds(s, y) && Ptr(s, x) == Ptr(s, y) ==> x == y)
  }

  /** All blocks from `next` on are still zero. */
  ghost predicate Blank(s: Fs, next: int) {
    forall b :: next <= b < s.n && b in s.disk ==> s.disk[b] == ZeroBlock()
  }

  ghost predicate ImageShape(s: Fs) {
    0 < s.n <= DISKMAX_BLOCKS && s.cache == map[] &&
    (forall b :: b in s.disk <==> 0 <= b < s.n) && (forall b :: b in s.disk ==> IsBlock(s.disk[b])) &&
    (forall f :: f in s.files ==> |s.files[f].direct| == NDIRECT && 0 <= s.files[f].size < WORD)
  }

  /** The image while it is built: blocks [0, next) are taken, the bitmap says that all blocks are free. */
  ghost predicate Building(s: Fs, next: int) {
    ImageShape(s) && 2 + NBitBlock(s.n) <= next <= s.n && Linked(s, 2 + NBitBlock(s.n), next) && Blank(s, next) &&
    forall b :: 0 <= b < s.n ==> DiskFree(s, b)
  }

  /** File structures live in the 16 places of the directory blocks, and in the super block (the root,
      file 0). Those whose name is empty are empty. */
  ghost predicate FilesKnown(s: Fs, used: set<int>, next: int) {
    0 in used && used <= s.files.Keys &&
    (forall f :: f in s.files ==> f == 0 || 2 + NBitBlock(s.n) <= f / FILE2BLK < next) &&
    (forall f :: f in s.files && f !in used ==> s.files[f] == EmptyFile())
  }

  /** A directory has a block for every 4096 bytes of its size, full of file structures. */
  ghost predicate IsDir(s: Fs, used: set<int>, f: int) {
    f in s.files && f in used && s.files[f].size == s.files[f].size / BY2BLK * BY2BLK &&
    NoTail(s, f, s.files[f].size / BY2BLK) &&
    forall i :: 0 <= i < s.files[f].size / BY2BLK ==> Holds(s, SlotOf(f, i)) && Ids(Ptr(s, SlotOf(f, i))) <= s.files.Keys
  }

  class Image {
    const nblock: int
    const disk: array<Block>
    var nbitblock: int
    var nextbno: int
    var files: map<int, File>
    var used: set<int>

    ghost function View(): (s: Fs)
      reads this, disk
    {
      Fs(nblock, map[], DiskOf(disk[..]), files)
    }

    ghost predicate Valid()
      reads this, disk
    {
      disk.Length == nblock && nbitblock == NBitBlock(nblock) && Building(View(), nextbno)
    }

    /** `init_disk`; file 0 is the root directory of the super block. */
    constructor (n: int)
      requires n % 8 == 0 && 2 + NBitBlock(n) <= n <= DISKMAX_BLOCKS
      ensures Valid() && nblock == n && nextbno == 2 + NBitBlock(n) && fresh(disk)
      ensures files == map[0 := EmptyFile()] && used == {0} && FilesKnown(View(), used, nextbno) && IsDir(View(), used, 0)
    {
      nblock := n;
      disk := new Block[n](_ => ZeroBlock());
      nbitblock := (n + BIT2BLK - 1) / BIT2BLK;
      nextbno := 2 + (n + BIT2BLK - 1) / BIT2BLK;
      files, used := map[0 := EmptyFile()], {0};
      new;
      MarkAll();
      InitialImage(View());
    }

    /** The bitmap that init_disk writes: every block of the disk is marked free, on a zeroed disk. */
    method MarkAll()
      requires nblock % 8 == 0 && 2 + NBitBlock(nblock) <= nblock == disk.Length && nbitblock == NBitBlock(nblock)
      requires forall b :: 0 <= b < nblock ==> disk[b] == ZeroBlock()
      modifies disk
      ensures forall b :: 0 <= b < nblock ==> disk[b] == InitialBlock(nblock, b)
    {
      hide FilledBlock, ZeroBlock;
      var i := 0;
      while i < nbitblock
        invariant 0 <= i <= nbitblock
        invariant forall b :: 0 <= b < nblock ==> disk[b] == if 2 <= b < 2 + i then FilledBlock(BIT2BLK) else ZeroBlock()
      {
        disk[2 + i] := FilledBlock(BIT2BLK);
        i := i + 1;
      }
      if nblock != nbitblock * BIT2BLK {
        var diff := nblock % BIT2BLK / 8;
        disk[2 + (nbitblock - 1)] := FilledBlock(8 * diff);
      }
    }

    /** `next_block` */
    method NextBlock() returns (bno: int)
      modifies `nextbno
      ensures bno == old(nextbno) && nextbno == old(nextbno) + 1
    {
      bno := nextbno;
      nextbno := nextbno + 1;
    }

    /** `save_block_link`, for a block number taken from next_block. The indirect block, when it is
        needed first, is the next one. */
    method SaveBlockLink(f: int, nblk: int, bno: int)
      requires Valid() && f in files && 0 <= nblk < NINDIRECT && !Holds(View(), SlotOf(f, nblk))
      requires 2 + nbitblock <= bno < nextbno && forall x :: Ptr(View(), x) != bno
      requires nblk >= NDIRECT && files[f].indirect == 0 ==> nextbno < nblock
      modifies this`nextbno, this`files, disk
      ensures Valid() && Linking(old(View()), View(), f, nblk, bno, old(nextbno), nextbno)
      ensures files.Keys == old(files).Keys && forall g :: g in files && g != f ==> files[g] == old(files)[g]
    {
      hide Linked, Blank, DiskFree, NBitBlock;
      ghost var s0 := View();
      if nblk < NDIRECT {
        files := files[f := files[f].(direct := files[f].direct[nblk := bno])];
        DirectLinked(s0, View(), f, nblk, bno, nextbno);
      } else {
        if files[f].indirect == 0 {
          var ind := NextBlock();
          files := files[f := files[f].(indirect := ind)];
          IndirectMade(s0, View(), f, ind);
        }
        ghost var s1 := View();
        IndirectOnDisk(s1, f, nextbno);
        var ind := files[f].indirect;
        ghost var before := disk[..];
        disk[ind] := disk[ind][nblk := bno];
        assert disk[..] == before[ind := disk[ind]];
        DiskUpdate(before, ind, disk[ind]);
        EntryLinked(s1, View(), f, nblk, bno, nextbno);
      }
    }

    /** `make_link_block`: one more block of file structures for a directory. */
    method MakeLinkBlock(dirf: int, nblk: int) returns (bno: int)
      requires Valid() && FilesKnown(View(), used, nextbno) && IsDir(View(), used, dirf)
      requires nblk == files[dirf].size / BY2BLK < NINDIRECT
      requires nextbno + 1 < nblock && files[dirf].size + BY2BLK < WORD
      modifies this`nextbno, this`files, disk
      ensures Valid() && FilesKnown(View(), used, nextbno) && IsDir(View(), used, dirf)
      ensures bno == old(nextbno) && DirGrown(old(View()), View(), dirf, nblk, bno, nextbno)
    {
      hide Building, FilesKnown, IsDir, Linking, Ptr, DirGrown;
      ghost var s0 := View();
      DirCanGrow(s0, used, dirf, nblk, nextbno);
      bno := NextBlock();
      files := files + NewFiles(bno);
      FilesAdded(s0, View(), bno);
      ghost var s1 := View();
      SaveBlockLink(dirf, nblk, bno);
      ghost var s2 := View();
      files := files[dirf := files[dirf].(size := files[dirf].size + BY2BLK)];
      LinkedFiles(s1, s2, dirf, nblk, bno, bno + 1, nextbno);
      Resized(s2, View(), dirf, nextbno);
      DirGrows(s0, s1, s2, View(), used, dirf, nblk, bno, nextbno);
    }

    /** `create_file`: the first file structure of the directory without a name, or the first of a new block. */
    method CreateFile(dirf: int) returns (f: int)
      requires Valid() && FilesKnown(View(), used, nextbno) && IsDir(View(), used, dirf)
      requires files[dirf].size / BY2BLK < NINDIRECT && nextbno + 1 < nblock && files[dirf].size + BY2BLK < WORD
      modifies this`nextbno, this`files, disk
      ensures Valid() && FilesKnown(View(), used, nextbno) && IsDir(View(), used, dirf)
      ensures f in files && f !in used && f != dirf && files[f] == EmptyFile()
      ensures InDir(View(), dirf, f) && KeepsDirs(old(View()), View())
      ensures (FirstUnused(old(View()), used, dirf, f) && View() == old(View()) && nextbno == old(nextbno)) ||
        (FullDir(old(View()), used, dirf, old(files)[dirf].size / BY2BLK) && f == Id(old(nextbno), 0) &&
        DirGrown(old(View()), View(), dirf, old(files)[dirf].size / BY2BLK, old(nextbno), nextbno))
    {
      hide Building, FilesKnown, DirGrown, Ptr, Id, Ids, InDir;
      ghost var s0 := View();
      var nblk := files[dirf].size / BY2BLK;
      var i := 0;
      while i < nblk
        invariant 0 <= i && View() == s0 && nextbno == old(nextbno) && Valid()
        invariant i <= nblk || nblk < i == 0
        invariant FullDir(s0, used, dirf, i)
      {
        DirBlockReadable(s0, used, dirf, i, nextbno);
        var bno := if i < NDIRECT then files[dirf].direct[i] else disk[files[dirf].indirect][i];
        DirBlock(s0, used, dirf, i, bno, nextbno);
        var k := 0;
        while k < FILE2BLK
          invariant 0 <= k <= FILE2BLK && View() == s0 && nextbno == old(nextbno) && Valid()
          invariant forall j :: 0 <= j < k ==> Id(bno, j) in used
        {
          if Id(bno, k) !in used {
            f := Id(bno, k);
            UnusedFound(s0, used, dirf, i, k, nextbno);
            FoundIsInDir(s0, used, dirf, f);
            return;
          }
          k := k + 1;
        }
        i := i + 1;
      }
      DirCanGrow(s0, used, dirf, nblk, nextbno);
      var bno := MakeLinkBlock(dirf, nblk);
      f := Id(bno, 0);
      GrownDirs(s0, View(), dirf, nblk, bno, nextbno);
      NewIsUnused(s0, View(), used, dirf, nblk, bno, nextbno);
    }

    /** `write_file`, with the data read from the host as `chunks`. */
    method WriteFile(dirf: int, chunks: seq<Block>, size: int) returns (target: int)
      requires Valid() && FilesKnown(View(), used, nextbno) && IsDir(View(), used, dirf)
      requires files[dirf].size / BY2BLK < NINDIRECT && files[dirf].size + BY2BLK < WORD
      requires 0 <= size < WORD && |chunks| == (size + BY2BLK - 1) / BY2BLK <= NINDIRECT && forall c :: c in chunks ==> IsBlock(c)
      requires nextbno + 3 + |chunks| < nblock
      modifies this`nextbno, this`files, this`used, disk
      ensures Valid() && used == old(used) + {target} && target !in old(used) && target in files && files[target].size == size
      ensures forall i :: 0 <= i < |chunks| ==> Stored(View(), target, i, chunks[i])
      ensures NoTail(View(), target, |chunks|) && Covered(View(), target)
      ensures forall x: Slot :: x.f != target && x.f != dirf ==> Ptr(View(), x) == old(Ptr(View(), x))
      ensures FilesKnown(View(), used, nextbno) && IsDir(View(), used, dirf)
      ensures KeepsStored(old(View()), View(), target)
      ensures InDir(View(), dirf, target) && forall d, g :: InDir(old(View()), d, g) ==> InDir(View(), d, g)
      ensures forall g :: g != dirf && g != target && IsDir(old(View()), old(used), g) ==> IsDir(View(), used, g)
    {
      ghost var s0 := View();
      target := NewFile(dirf, size);
      ghost var s2, next1 := View(), nextbno;
      hide Building, FilesKnown, IsDir, Ptr, Stored, NoTail, Writing, KeepsStored, Covered, InDir;
      CopyChunks(target, chunks);
      FileWritten(s2, View(), target, chunks, next1, nextbno);
      WrittenKeeps(s2, View(), used, dirf, target, chunks, next1, nextbno);
      WritingKeepsDirs(s2, View(), target, chunks, next1, nextbno);
      KeptInTurn(s0, s2, View(), target);
      OthersKept(s0, s2, View(), dirf, target, chunks, next1, nextbno);
      DirsKept(s0, View(), old(used), dirf, target);
    }

    /** The first part of `write_file`: a file structure gets a name and a size. */
    method NewFile(dirf: int, size: int) returns (target: int)
      requires Valid() && FilesKnown(View(), used, nextbno) && IsDir(View(), used, dirf)
      requires files[dirf].size / BY2BLK < NINDIRECT && files[dirf].size + BY2BLK < WORD
      requires 0 <= size < WORD && nextbno + 1 < nblock
      modifies this`nextbno, this`files, this`used, disk
      ensures Valid() && used == old(used) + {target} && target !in old(used) && target in files && files[target].size == size
      ensures FilesKnown(View(), used, nextbno) && IsDir(View(), used, dirf) && target != dirf
      ensures old(files).Keys <= files.Keys && old(nextbno) <= nextbno <= old(nextbno) + 2
      ensures (forall x: Slot :: x.f == target ==> !Holds(View(), x)) && KeepsStored(old(View()), View(), target)
      ensures forall x: Slot :: x.f != dirf ==> Ptr(View(), x) == old(Ptr(View(), x))
      ensures forall g :: g in old(files) && g != dirf && g != target ==> files[g] == old(files)[g]
      ensures size == 0 ==> IsDir(View(), used, target)
      ensures InDir(View(), dirf, target) && KeepsDirs(old(View()), View())
    {
      ghost var nblk := files[dirf].size / BY2BLK;
      DirCanGrow(View(), used, dirf, nblk, nextbno);
      hide Building, FilesKnown, IsDir, DirGrown, Ptr, Stored, NoTail, FirstUnused, FullDir, KeepsStored, KeepsDirs, Ids, Id, InDir;
      ghost var s0, next0 := View(), nextbno;
      target := CreateFile(dirf);
      ghost var s1, next1 := View(), nextbno;
      if s1 == s0 { KeepsItself(s0, target); } else { GrownKeeps(s0, s1, dirf, nblk, next0, next1, target); }
      used := used + {target};
      files := files[target := files[target].(size := size)];
      Resized(s1, View(), target, nextbno);
      TargetIsEmpty(s1, View(), target);
      DirsStay(s1, View(), target);
      DirsInTurn(s0, s1, View());
      SizedKeeps(s1, View(), old(used), dirf, target, next1);
      KeptInTurn(s0, s1, View(), target);
      EmptyDir(View(), used, target);
    }

    /** The reading loop of `write_file`. */
    method CopyChunks(target: int, chunks: seq<Block>)
      requires Valid() && target in files && forall x: Slot :: x.f == target ==> !Holds(View(), x)
      requires |chunks| <= NINDIRECT && nextbno + 1 + |chunks| <= nblock && forall c :: c in chunks ==> IsBlock(c)
      modifies this`nextbno, this`files, disk
      ensures Valid() && Writing(old(View()), View(), target, chunks, |chunks|, old(nextbno), nextbno)
      ensures nextbno == old(nextbno) + |chunks| + if |chunks| > NDIRECT then 1 else 0
    {
      hide Building, Ptr, Stored, NoTail, Writing, Linking;
      ghost var s0, next0 := View(), nextbno;
      NothingWritten(s0, target, chunks, nextbno);
      var iblk := 0;
      while iblk < |chunks|
        invariant 0 <= iblk <= |chunks| && Valid() && target in files
        invariant Writing(s0, View(), target, chunks, iblk, next0, nextbno)
        invariant nextbno == next0 + iblk + if iblk > NDIRECT then 1 else 0
      {
        ghost var s1, blocks, next := View(), disk[..], nextbno;
        ReadyToWrite(s0, s1, target, chunks, iblk, next0, nextbno);
        disk[nextbno] := chunks[iblk];
        assert disk[..] == blocks[next := chunks[iblk]];
        DiskUpdate(blocks, next, chunks[iblk]);
        var bno := NextBlock();
        ghost var s2 := View();
        BlockFilled(s1, s2, next, chunks[iblk]);
        SaveBlockLink(target, iblk, bno);
        WriteStep(s0, s1, s2, View(), target, chunks, iblk, next0, next, nextbno);
        iblk := iblk + 1;
      }
    }

    /** `flush_bitmap`: the blocks that were taken are marked as used. */
    method FlushBitmap()
      requires Valid()
      modifies disk
      ensures disk.Length == nblock && Finished(View(), nextbno)
      ensures forall x :: Ptr(View(), x) == old(Ptr(View(), x))
      ensures forall f, i, c :: old(Stored(View(), f, i, c)) ==> Stored(View(), f, i, c)
    {
      hide Linked, Blank, DiskFree, NBitBlock;
      ghost var s0 := View();
      BitmapBehindUs(s0, nextbno);
      FlushedNothing(s0, nextbno);
      var i := 0;
      while i < nextbno
        invariant 0 <= i <= nextbno && Flushed(s0, View(), i)
      {
        ghost var s1, blocks := View(), disk[..];
        InitialBitBlock(nblock, i);
        BitmapIndex(nblock, i);
        FlushedShape(s0, s1, i, nextbno);
        var b, k := 2 + i / BIT2BLK, i % BIT2BLK / 32;
        disk[b] := disk[b][k := ClearBit(disk[b][k], i % 32)];
        assert disk[..] == blocks[b := disk[b]];
        DiskUpdate(blocks, b, disk[b]);
        FlushedOneMore(s0, s1, View(), i, nextbno);
        i := i + 1;
      }
      FlushDone(s0, View(), nextbno);
    }
  }

  /** The finished image: exactly the blocks [0, next) are marked as used. */
  ghost predicate Finished(s: Fs, next: int) {
    ImageShape(s) && 2 + NBitBlock(s.n) <= next <= s.n && Linked(s, 2 + NBitBlock(s.n), next) &&
    forall b :: DiskFree(s, b) <==> next <= b < s.n
  }

  /** Blocks [0, i) are marked as used; only bitmap blocks differ. */
  ghost predicate Flushed(s: Fs, t: Fs, i: int) {
    t.n == s.n && t.files == s.files && t.cache == s.cache && t.disk.Keys == s.disk.Keys &&
    (forall b :: b in t.disk ==> IsBlock(t.disk[b])) &&
    (forall b :: b in s.disk && !(2 <= b < 2 + NBitBlock(s.n)) ==> t.disk[b] == s.disk[b]) &&
    (forall b :: DiskFree(t, b) <==> i <= b < s.n)
  }

  lemma BitmapBehindUs(s: Fs, next: int)
    requires Building(s, next)
    ensures 0 <= next <= s.n && 2 + NBitBlock(s.n) <= next
  {}

  lemma FlushedNothing(s: Fs, next: int)
    requires Building(s, next)
    ensures Flushed(s, s, 0)
  {}

  lemma FlushedShape(s: Fs, t: Fs, i: int, next: int)
    requires Building(s, next) && Flushed(s, t, i) && 0 <= i < next
    ensures 0 <= BitmapBlock(i) < s.n && BitmapBlock(i) in t.disk && IsBlock(t.disk[BitmapBlock(i)])
  {
    InitialBitBlock(s.n, i);
    assert BitmapBlock(i) in s.disk.Keys;
  }

  lemma FlushedOneMore(s: Fs, m: Fs, t: Fs, i: int, next: int)
    requires Building(s, next) && Flushed(s, m, i) && 0 <= i < next
    requires BitmapBlock(i) in m.disk && IsBlock(m.disk[BitmapBlock(i)]) && 0 <= BitmapWord(i) < 1024
    requires t == Fs(m.n, m.cache, WithWord(m.disk, i, ClearBit(m.disk[BitmapBlock(i)][BitmapWord(i)], i % 32)), m.files)
    ensures Flushed(s, t, i + 1)
  {
    InitialBitBlock(s.n, i);
    WordBits(m.disk[BitmapBlock(i)][BitmapWord(i)], i % 32);
    forall b ensures DiskFree(t, b) <==> i + 1 <= b < s.n {
      if 0 <= b < s.n { SetBitOf(m.disk, i, b, false); }
      assert DiskFree(m, b) <==> i <= b < s.n;
    }
  }

  lemma FlushDone(s: Fs, t: Fs, next: int)
    requires Building(s, next) && Flushed(s, t, next)
    ensures Finished(t, next) && (forall x :: Ptr(t, x) == Ptr(s, x))
    ensures forall f, i, c :: Stored(s, f, i, c) ==> Stored(t, f, i, c)
  {
    forall x: Slot ensures Ptr(t, x) == Ptr(s, x) {
      if x.Entry? && x.f in s.files && s.files[x.f].indirect != 0 { assert Holds(s, Indirect(x.f)); }
    }
    forall b ensures b in t.disk <==> b in s.disk {
      assert b in t.disk.Keys <==> b in s.disk.Keys;
    }
    forall f, i, c | Stored(s, f, i, c) ensures Stored(t, f, i, c) {
      StoredOnDisk(s, SlotOf(f, i), next);
    }
  }

  // ---------- agreement with the file server ----------

  /** The server reads as many bitmap blocks as the builder wrote, unless the disk size is a multiple of
      the blocks that one bitmap block covers: then it reads one more. */
  lemma BitmapSizesAgree(n: int)
    requires 0 < n
    ensures FsModel.NBitmap(n) == NBitBlock(n) <==> n % BIT2BLK != 0
    ensures FsModel.NBitmap(n) == NBitBlock(n) + if n % BIT2BLK != 0 then 0 else 1
  {
    RoundedUp(n, n / BIT2BLK, n % BIT2BLK);
  }

  /** All assertions of read_bitmap hold of a finished image if and only if the sizes agree, or a block
      was linked right behind the bitmap, which is then taken for a bitmap block. */
  lemma ImagePassesChecks(s: Fs, next: int)
    requires Finished(s, next)
    ensures (2 + NBitmap(s.n) <= s.n && forall b :: 0 <= b < 2 + NBitmap(s.n) ==> !DiskFree(s, b)) <==>
      s.n % BIT2BLK != 0 || next > 2 + NBitBlock(s.n)
  {
    BitmapSizesAgree(s.n);
    if s.n % BIT2BLK == 0 && next == 2 + NBitBlock(s.n) < s.n {
      assert DiskFree(s, next);
    }
  }

  /** The pointers of a finished image are in order for the server if and only if the sizes agree or no
      pointer names the block behind the bitmap. */
  lemma ImagePointersAreData(s: Fs, next: int)
    requires Finished(s, next)
    ensures (forall x :: Holds(s, x) ==> DataBlock(s, Ptr(s, x))) <==>
      s.n % BIT2BLK != 0 || forall x :: Holds(s, x) ==> Ptr(s, x) != 2 + NBitBlock(s.n)
  {
    BitmapSizesAgree(s.n);
  }

  /** A server started on a finished image. */
  method Mount(image: Image, answers: nat -> bool) returns (server: FileServer.Server)
    requires image.disk.Length == image.nblock && Finished(image.View(), image.nextbno) && image.nblock % BIT2BLK != 0
    ensures fresh(server) && Inv(server.View()) && Conservative(server.View())
    ensures server.n == image.nblock && server.files == image.files
    ensures forall b :: Free(server.View(), b) <==> image.nextbno <= b < image.nblock
    ensures forall x :: Ptr(server.View(), x) == Ptr(image.View(), x)
    ensures forall f, i, c :: Stored(image.View(), f, i, c) ==> Stored(server.View(), f, i, c)
    ensures forall d, g :: InDir(server.View(), d, g) <==> InDir(image.View(), d, g)
  {
    server := new FileServer.Server(image.nblock, DiskOf(image.disk[..]), image.files, answers);
    ghost var s0 := server.View();
    assert s0 == image.View();
    BitmapSizesAgree(image.nblock);
    ImagePassesChecks(s0, image.nextbno);
    var ok := server.ReadBitmap();
    assert ok;
    SameDirs(s0, server.View());
    Mounted(s0, server.View(), image.nextbno);
  }

  lemma Mounted(s: Fs, t: Fs, next: int)
    requires Finished(s, next) && s.n % BIT2BLK != 0
    requires Shape(t) && SystemInUse(t) && t.n == s.n && t.files == s.files && t.disk == s.disk
    requires (forall x :: Ptr(t, x) == Ptr(s, x)) && (forall b :: Free(t, b) <==> DiskFree(t, b))
    requires forall b :: !IsBitmapBlock(s.n, b) ==> b !in t.cache
    ensures Inv(t) && forall b :: Free(t, b) <==> next <= b < s.n
    ensures forall f, i, c :: Stored(s, f, i, c) ==> Stored(t, f, i, c)
  {
    BitmapSizesAgree(s.n);
    forall b ensures DiskFree(t, b) <==> DiskFree(s, b) {
    }
    forall f, i, c | Stored(s, f, i, c) ensures Stored(t, f, i, c) {
      var x := SlotOf(f, i);
      assert Holds(s, x) && Holds(t, x) && DataBlock(t, Ptr(t, x));
    }
  }

  /** The first i chunks are written to file f, whose blocks are all new; nothing else changes. */
  ghost predicate Writing(s: Fs, t: Fs, f: int, chunks: seq<Block>, i: int, next0: int, next: int) {
    t.n == s.n && t.files.Keys == s.files.Keys && (forall g :: g in s.files ==> t.files[g].size == s.files[g].size) &&
    (forall j :: 0 <= j < i <= |chunks| ==> Stored(t, f, j, chunks[j])) && NoTail(t, f, i) &&
    (Holds(t, Indirect(f)) <==> i > NDIRECT) &&
    (forall x: Slot :: x.f == f && Holds(t, x) ==> Ptr(t, x) >= next0) &&
    (forall x: Slot :: x.f != f ==> Ptr(t, x) == Ptr(s, x)) &&
    (forall b :: b in s.disk && b < next0 ==> b in t.disk && t.disk[b] == s.disk[b]) &&
    (forall g :: g in s.files && g != f ==> t.files[g] == s.files[g])
  }

  /** What is stored in the files of s is stored in t, too. */
  ghost predicate KeepsStored(s: Fs, t: Fs, except: int) {
    forall g, i, c :: g in s.files && g != except && Stored(s, g, i, c) ==> Stored(t, g, i, c)
  }

  lemma GrownKeeps(s: Fs, t: Fs, dirf: int, k: int, bno: int, next: int, e: int)
    requires Building(s, bno) && Building(t, next) && DirGrown(s, t, dirf, k, bno, next) && 0 <= k
    requires !Holds(s, SlotOf(dirf, k))
    ensures KeepsStored(s, t, e) && s.files.Keys <= t.files.Keys && bno < next <= bno + 2
    ensures forall x: Slot :: x.f != dirf ==> Ptr(t, x) == Ptr(s, x)
  {
    hide DiskFree, Blank;
    forall g, i, c | g in s.files && Stored(s, g, i, c) ensures Stored(t, g, i, c) {
      var x := SlotOf(g, i);
      assert x != Indirect(dirf) && Ptr(t, x) == Ptr(s, x);
      assert Holds(t, x) && Ptr(t, x) != Ptr(t, Indirect(dirf));
      StoredOnDisk(s, x, bno);
      assert t.disk[Ptr(s, x)] == s.disk[Ptr(s, x)];
    }
  }

  lemma StoredOnDisk(s: Fs, x: Slot, next: int)
    requires Building(s, next) && Holds(s, x)
    ensures Ptr(s, x) in s.disk && Ptr(s, x) < next && Content(s, Ptr(s, x)) == s.disk[Ptr(s, x)]
  {}

  lemma KeepsItself(s: Fs, f: int)
    ensures KeepsStored(s, s, f)
  {}

  lemma KeptInTurn(s: Fs, m: Fs, t: Fs, f: int)
    requires KeepsStored(s, m, f) && KeepsStored(m, t, f) && s.files.Keys <= m.files.Keys
    ensures KeepsStored(s, t, f)
  {
    hide Stored;
    forall g, i, c | g in s.files && g != f && Stored(s, g, i, c) ensures Stored(t, g, i, c) {
      assert Stored(m, g, i, c);
    }
  }

  lemma OthersKept(s: Fs, m: Fs, t: Fs, dirf: int, f: int, chunks: seq<Block>, next0: int, next: int)
    requires (forall x: Slot :: x.f != dirf ==> Ptr(m, x) == Ptr(s, x)) && Writing(m, t, f, chunks, |chunks|, next0, next)
    requires s.files.Keys <= m.files.Keys && forall g :: g in s.files && g != dirf && g != f ==> m.files[g] == s.files[g]
    ensures forall x: Slot :: x.f != f && x.f != dirf ==> Ptr(t, x) == Ptr(s, x)
    ensures s.files.Keys <= t.files.Keys && forall g :: g in s.files && g != dirf && g != f ==> t.files[g] == s.files[g]
  {
    hide Ptr;
  }

  lemma DirsKept(s: Fs, t: Fs, used: set<int>, dirf: int, f: int)
    requires forall x: Slot :: x.f != f && x.f != dirf ==> Ptr(t, x) == Ptr(s, x)
    requires s.files.Keys <= t.files.Keys && forall g :: g in s.files && g != dirf && g != f ==> t.files[g] == s.files[g]
    ensures forall g :: g != dirf && g != f && IsDir(s, used, g) ==> IsDir(t, used + {f}, g)
  {
    hide Ptr;
    forall g | g != dirf && g != f && IsDir(s, used, g) ensures IsDir(t, used + {f}, g) {
      forall i ensures Ptr(t, SlotOf(g, i)) == Ptr(s, SlotOf(g, i)) {
        assert SlotOf(g, i).f == g;
      }
    }
  }

  lemma EmptyDir(s: Fs, used: set<int>, f: int)
    requires f in s.files && f in used && forall x: Slot :: x.f == f ==> !Holds(s, x)
    ensures s.files[f].size == 0 ==> IsDir(s, used, f)
  {}

  lemma TargetIsEmpty(s: Fs, t: Fs, f: int)
    requires f in s.files && s.files[f] == EmptyFile() && forall x :: Ptr(t, x) == Ptr(s, x)
    ensures forall x: Slot :: x.f == f ==> !Holds(t, x)
  {}

  lemma SizedKeeps(s: Fs, t: Fs, used: set<int>, dirf: int, f: int, next: int)
    requires f in s.files && f in t.files && t == Fs(s.n, s.cache, s.disk, s.files[f := s.files[f].(size := t.files[f].size)])
    requires forall x :: Ptr(t, x) == Ptr(s, x)
    requires FilesKnown(s, used, next) && IsDir(s, used, dirf) && f !in used
    ensures FilesKnown(t, used + {f}, next) && IsDir(t, used + {f}, dirf) && KeepsStored(s, t, f)
  {
    hide Ptr;
    forall g, i, c | g in s.files && Stored(s, g, i, c) ensures Stored(t, g, i, c) {
      assert Ptr(t, SlotOf(g, i)) == Ptr(s, SlotOf(g, i));
    }
    forall i ensures Holds(t, SlotOf(dirf, i)) <==> Holds(s, SlotOf(dirf, i)) {
    }
  }

  lemma WrittenKeeps(s: Fs, t: Fs, used: set<int>, dirf: int, f: int, chunks: seq<Block>, next0: int, next: int)
    requires Writing(s, t, f, chunks, |chunks|, next0, next) && Building(s, next0) && Building(t, next) && next0 <= next
    requires FilesKnown(s, used, next0) && IsDir(s, used, dirf) && f in used && dirf != f
    ensures FilesKnown(t, used, next) && IsDir(t, used, dirf) && KeepsStored(s, t, f)
  {
    hide DiskFree, Blank;
    forall g, i, c | g in s.files && g != f && Stored(s, g, i, c) ensures Stored(t, g, i, c) {
      var x := SlotOf(g, i);
      StoredOnDisk(s, x, next0);
      assert x.f != f && Ptr(t, x) == Ptr(s, x);
    }
    forall i ensures Ptr(t, SlotOf(dirf, i)) == Ptr(s, SlotOf(dirf, i)) {
      assert SlotOf(dirf, i).f != f;
    }
  }

  lemma WritingKeepsDirs(s: Fs, t: Fs, f: int, chunks: seq<Block>, next0: int, next: int)
    requires Writing(s, t, f, chunks, |chunks|, next0, next) && forall x: Slot :: x.f == f ==> !Holds(s, x)
    ensures KeepsDirs(s, t)
  {
    hide Ptr, InDir, KeepsDirs;
    DirsStay(s, t, f);
  }

  lemma NothingWritten(s: Fs, f: int, chunks: seq<Block>, next: int)
    requires Building(s, next) && f in s.files && forall x: Slot :: x.f == f ==> !Holds(s, x)
    ensures Writing(s, s, f, chunks, 0, next, next) && next > 0
  {}

  lemma ReadyToWrite(s0: Fs, s: Fs, f: int, chunks: seq<Block>, i: int, next0: int, next: int)
    requires Building(s, next) && Writing(s0, s, f, chunks, i, next0, next) && 0 <= i < |chunks| <= NINDIRECT && f in s.files
    ensures !Holds(s, SlotOf(f, i)) && (s.files[f].indirect == 0 <==> i <= NDIRECT) && next >= 2 + NBitBlock(s.n)
  {
    assert Ptr(s, Indirect(f)) == s.files[f].indirect;
  }

  /** Data in the next free block is not seen by any pointer. */
  lemma BlockFilled(s: Fs, t: Fs, next: int, c: Block)
    requires Building(s, next) && next < s.n && IsBlock(c) && t == Fs(s.n, s.cache, s.disk[next := c], s.files)
    ensures Building(t, next + 1) && (forall x :: Ptr(t, x) == Ptr(s, x)) && forall x :: Ptr(s, x) != next
  {
    forall x ensures Ptr(t, x) == Ptr(s, x) && Ptr(s, x) != next {
      assert Holds(s, x) ==> Ptr(s, x) < next;
      if x.Entry? && x.f in s.files && s.files[x.f].indirect != 0 { assert Holds(s, Indirect(x.f)); }
    }
    forall b ensures DiskFree(t, b) <==> DiskFree(s, b) {
      if 0 <= b < s.n { InitialBitBlock(s.n, b); }
    }
  }

  lemma WriteStep(s0: Fs, s: Fs, m: Fs, t: Fs, f: int, chunks: seq<Block>, i: int, next0: int, next: int, next1: int)
    requires Writing(s0, s, f, chunks, i, next0, next) && 0 <= i < |chunks| <= NINDIRECT && 0 < next0 <= next < s.n
    requires Building(s, next)
    requires m == Fs(s.n, s.cache, s.disk[next := chunks[i]], s.files) && forall x :: Ptr(m, x) == Ptr(s, x)
    requires Linking(m, t, f, i, next, next + 1, next1) && Building(t, next1) && Building(m, next + 1)
    requires forall g :: g in m.files && g != f ==> t.files[g] == m.files[g]
    ensures Writing(s0, t, f, chunks, i + 1, next0, next1) && next1 == next + if i == NDIRECT then 2 else 1
  {
    hide DiskFree, Blank;
    StepStored(s0, s, m, t, f, chunks, i, next0, next, next1);
    StepFrame(s0, s, m, t, f, chunks, i, next0, next, next1);
  }

  lemma StepStored(s0: Fs, s: Fs, m: Fs, t: Fs, f: int, chunks: seq<Block>, i: int, next0: int, next: int, next1: int)
    requires forall j :: 0 <= j < i <= |chunks| ==> Stored(s, f, j, chunks[j])
    requires 0 <= i < |chunks| <= NINDIRECT && 0 < next < s.n && Building(s, next)
    requires m == Fs(s.n, s.cache, s.disk[next := chunks[i]], s.files) && forall x :: Ptr(m, x) == Ptr(s, x)
    requires Linking(m, t, f, i, next, next + 1, next1) && Building(t, next1)
    ensures forall j :: 0 <= j < i + 1 <= |chunks| ==> Stored(t, f, j, chunks[j])
  {
    hide DiskFree, Blank, Ptr;
    forall j | 0 <= j < i + 1 ensures Stored(t, f, j, chunks[j]) {
      assert Holds(t, SlotOf(f, i));
      var x := SlotOf(f, j);
      if j < i {
        assert Stored(s, f, j, chunks[j]);
        StoredOnDisk(s, x, next);
        assert Ptr(t, x) == Ptr(s, x);
      }
      assert Holds(t, x) && Ptr(t, x) != Ptr(t, Indirect(f));
      assert Ptr(t, x) in m.disk && m.disk[Ptr(t, x)] == chunks[j];
    }
  }

  lemma StepFrame(s0: Fs, s: Fs, m: Fs, t: Fs, f: int, chunks: seq<Block>, i: int, next0: int, next: int, next1: int)
    requires Writing(s0, s, f, chunks, i, next0, next) && 0 <= i < |chunks| <= NINDIRECT && 0 < next0 <= next < s.n
    requires m == Fs(s.n, s.cache, s.disk[next := chunks[i]], s.files) && forall x :: Ptr(m, x) == Ptr(s, x)
    requires Linking(m, t, f, i, next, next + 1, next1)
    requires forall g :: g in m.files && g != f ==> t.files[g] == m.files[g]
    requires forall j :: 0 <= j < i + 1 <= |chunks| ==> Stored(t, f, j, chunks[j])
    ensures Writing(s0, t, f, chunks, i + 1, next0, next1) && next1 == next + if i == NDIRECT then 2 else 1
  {
    hide Ptr, Stored;
    assert Ptr(m, Indirect(f)) == Ptr(s, Indirect(f));
    assert Holds(t, Indirect(f)) <==> i + 1 > NDIRECT;
    forall k | i + 1 <= k && 0 <= k < NINDIRECT ensures !Holds(t, SlotOf(f, k)) {
      assert !Holds(s, SlotOf(f, k)) && SlotOf(f, k) != SlotOf(f, i) && Ptr(m, SlotOf(f, k)) == Ptr(s, SlotOf(f, k));
    }
    assert NoTail(t, f, i + 1);
    forall b | b in s0.disk && b < next0 ensures b in t.disk && t.disk[b] == s0.disk[b] {
      assert b in s.disk && b in m.disk && m.disk[b] == s0.disk[b];
      assert Holds(s, Indirect(f)) ==> Ptr(s, Indirect(f)) >= next0;
    }
  }

  lemma FileWritten(s: Fs, t: Fs, f: int, chunks: seq<Block>, next0: int, next: int)
    requires Writing(s, t, f, chunks, |chunks|, next0, next) && f in t.files
    requires |chunks| == (t.files[f].size + BY2BLK - 1) / BY2BLK && 0 <= t.files[f].size
    ensures (forall i :: 0 <= i < |chunks| ==> Stored(t, f, i, chunks[i])) && NoTail(t, f, |chunks|) && Covered(t, f)
  {}

  /** f is one of the 16 file structures in a block of directory d. */
  ghost predicate InDir(s: Fs, d: int, f: int) {
    d in s.files && exists i :: 0 <= i < s.files[d].size / BY2BLK && Holds(s, SlotOf(d, i)) && Ptr(s, SlotOf(d, i)) == f / 16
  }

  ghost predicate KeepsDirs(s: Fs, t: Fs) {
    forall d, g :: InDir(s, d, g) ==> InDir(t, d, g)
  }

  lemma DirsInTurn(s: Fs, m: Fs, t: Fs)
    requires KeepsDirs(s, m) && KeepsDirs(m, t)
    ensures KeepsDirs(s, t)
  {}

  lemma SameDirs(s: Fs, t: Fs)
    requires t.files == s.files && forall x :: Ptr(t, x) == Ptr(s, x)
    ensures forall d, g :: InDir(t, d, g) <==> InDir(s, d, g)
  {
    hide Ptr;
    forall d, g ensures InDir(t, d, g) <==> InDir(s, d, g) {
      if d in s.files {
        forall i ensures Ptr(t, SlotOf(d, i)) == Ptr(s, SlotOf(d, i)) {}
      }
    }
  }

  lemma FoundIsInDir(s: Fs, used: set<int>, dirf: int, f: int)
    requires FirstUnused(s, used, dirf, f)
    ensures InDir(s, dirf, f)
  {
    hide Ptr, FullDir;
    var i, k :| FirstUnusedAt(s, used, dirf, f, i, k);
    IdParts(Ptr(s, SlotOf(dirf, i)), k);
  }

  lemma GrownDirs(s: Fs, t: Fs, dirf: int, k: int, bno: int, next: int)
    requires DirGrown(s, t, dirf, k, bno, next) && dirf in s.files && k == s.files[dirf].size / BY2BLK && 0 <= k && bno > 0
    requires !Holds(s, SlotOf(dirf, k))
    ensures KeepsDirs(s, t) && InDir(t, dirf, Id(bno, 0))
  {
    hide Ptr;
    IdParts(bno, 0);
    assert dirf in t.files && t.files[dirf].size / BY2BLK == k + 1 by { assert dirf in s.files.Keys; }
    assert Ptr(t, SlotOf(dirf, k)) == bno;
    forall d, g | InDir(s, d, g) ensures InDir(t, d, g) {
      var i :| 0 <= i < s.files[d].size / BY2BLK && Holds(s, SlotOf(d, i)) && Ptr(s, SlotOf(d, i)) == g / 16;
      assert d in t.files.Keys && Ptr(t, SlotOf(d, i)) == g / 16;
    }
  }

  lemma DirsStay(s: Fs, t: Fs, f: int)
    requires s.files.Keys <= t.files.Keys && forall d :: d in s.files && d != f ==> t.files[d].size == s.files[d].size
    requires (forall x: Slot :: x.f == f ==> !Holds(s, x)) && forall x: Slot :: x.f != f ==> Ptr(t, x) == Ptr(s, x)
    ensures KeepsDirs(s, t)
  {
    hide Ptr;
    forall d, g | InDir(s, d, g) ensures InDir(t, d, g) {
      var i :| 0 <= i < s.files[d].size / BY2BLK && Holds(s, SlotOf(d, i)) && Ptr(s, SlotOf(d, i)) == g / 16;
      assert SlotOf(d, i).f == d && d in t.files.Keys && Ptr(t, SlotOf(d, i)) == g / 16;
    }
  }

  /** File block i of f contains `c`. */
  ghost predicate Stored(s: Fs, f: int, i: int, c: Block) {
    Holds(s, SlotOf(f, i)) && Content(s, Ptr(s, SlotOf(f, i))) == c
  }

  /** The first i blocks of the directory have no file structure without a name. */
  ghost predicate FullDir(s: Fs, used: set<int>, dirf: int, i: int) {
    forall j, k :: 0 <= j < i && 0 <= k < FILE2BLK ==> Id(Ptr(s, SlotOf(dirf, j)), k) in used
  }

  ghost predicate FirstUnused(s: Fs, used: set<int>, dirf: int, f: int) {
    exists i, k :: FirstUnusedAt(s, used, dirf, f, i, k)
  }

  ghost predicate FirstUnusedAt(s: Fs, used: set<int>, dirf: int, f: int, i: int, k: int) {
    dirf in s.files && 0 <= i < s.files[dirf].size / BY2BLK && Holds(s, SlotOf(dirf, i)) && 0 <= k < FILE2BLK && f == Id(Ptr(s, SlotOf(dirf, i)), k) && f !in used &&
    FullDir(s, used, dirf, i) && forall j :: 0 <= j < k ==> Id(Ptr(s, SlotOf(dirf, i)), j) in used
  }

  lemma DirBlockReadable(s: Fs, used: set<int>, dirf: int, i: int, next: int)
    requires Building(s, next) && IsDir(s, used, dirf) && 0 <= i < s.files[dirf].size / BY2BLK
    ensures i < NINDIRECT && |s.files[dirf].direct| == NDIRECT
    ensures i >= NDIRECT ==>
      var ind := s.files[dirf].indirect;
      ind in s.disk && 0 <= ind < s.n && |s.disk[ind]| == NINDIRECT
  {
    assert Holds(s, SlotOf(dirf, i));
    assert i >= NDIRECT ==> Holds(s, Indirect(dirf));
  }

  lemma DirBlock(s: Fs, used: set<int>, dirf: int, i: int, bno: int, next: int)
    requires Building(s, next) && IsDir(s, used, dirf) && 0 <= i < s.files[dirf].size / BY2BLK < NINDIRECT
    requires i >= NDIRECT ==> s.files[dirf].indirect in s.disk && i < |s.disk[s.files[dirf].indirect]|
    requires bno == if i < NDIRECT then s.files[dirf].direct[i] else s.disk[s.files[dirf].indirect][i]
    ensures bno == Ptr(s, SlotOf(dirf, i)) && Ids(bno) <= s.files.Keys
  {
    assert Holds(s, SlotOf(dirf, i));
  }

  lemma UnusedFound(s: Fs, used: set<int>, dirf: int, i: int, k: int, next: int)
    requires FilesKnown(s, used, next) && IsDir(s, used, dirf) && 0 <= i < s.files[dirf].size / BY2BLK < NINDIRECT
    requires 0 <= k < FILE2BLK && FullDir(s, used, dirf, i)
    requires var b := Ptr(s, SlotOf(dirf, i)); Id(b, k) !in used && forall j :: 0 <= j < k ==> Id(b, j) in used
    ensures var f := Id(Ptr(s, SlotOf(dirf, i)), k);
            f in s.files && f != dirf && s.files[f] == EmptyFile() && FirstUnused(s, used, dirf, f)
  {
    var b := Ptr(s, SlotOf(dirf, i));
    assert Ids(b) <= s.files.Keys;
    IdParts(b, k);
    assert Id(b, k) in s.files.Keys;
    assert FirstUnusedAt(s, used, dirf, Id(b, k), i, k);
  }

  lemma NewIsUnused(s: Fs, t: Fs, used: set<int>, dirf: int, k: int, bno: int, next: int)
    requires Building(s, bno) && FilesKnown(s, used, bno) && IsDir(s, used, dirf)
    requires DirGrown(s, t, dirf, k, bno, next)
    ensures Id(bno, 0) in t.files && Id(bno, 0) !in used && Id(bno, 0) != dirf && t.files[Id(bno, 0)] == EmptyFile()
  {
    IdParts(bno, 0);
    assert Id(bno, 0) in t.files.Keys;
  }

  /** The directory has `bno` as its block k, with 16 empty file structures; other pointers and files
      are as before, but for its indirect block. */
  ghost predicate DirGrown(s: Fs, t: Fs, dirf: int, k: int, bno: int, next: int) {
    dirf in s.files && t.files.Keys == s.files.Keys + Ids(bno) && bno < next <= bno + 2 &&
    (forall x :: Ptr(t, x) ==
      if x == SlotOf(dirf, k) then bno else if x == Indirect(dirf) && next != bno + 1 then bno + 1 else Ptr(s, x)) &&
    (forall f :: f in s.files && f != dirf ==> t.files[f] == s.files[f]) &&
    (forall b :: b in s.disk && b != Ptr(t, Indirect(dirf)) ==> b in t.disk && t.disk[b] == s.disk[b]) &&
    (forall f :: f in Ids(bno) ==> t.files[f] == EmptyFile()) && t.files[dirf].size == s.files[dirf].size + BY2BLK
  }

  lemma DirCanGrow(s: Fs, used: set<int>, f: int, k: int, next: int)
    requires Building(s, next) && FilesKnown(s, used, next) && IsDir(s, used, f) && k == s.files[f].size / BY2BLK < NINDIRECT
    ensures !Holds(s, SlotOf(f, k)) && (forall x :: Ptr(s, x) != next) && 0 <= k && f in s.files
    ensures 2 + NBitBlock(s.n) <= next && forall g :: g in s.files ==> g / FILE2BLK < next
  {
    forall x ensures Ptr(s, x) != next {
      if Ptr(s, x) != 0 { assert Holds(s, x); }
    }
  }

  lemma LinkedFiles(s: Fs, t: Fs, f: int, k: int, bno: int, next: int, next1: int)
    requires Linking(s, t, f, k, bno, next, next1) && f in s.files
    ensures t.n == s.n && t.files.Keys == s.files.Keys && t.files[f].size == s.files[f].size
  {}

  lemma DirGrows(s: Fs, s1: Fs, s2: Fs, t: Fs, used: set<int>, f: int, k: int, bno: int, next: int)
    requires Building(s, bno) && FilesKnown(s, used, bno) && IsDir(s, used, f) && k == s.files[f].size / BY2BLK < NINDIRECT
    requires s1 == Fs(s.n, s.cache, s.disk, s.files + NewFiles(bno)) && forall x :: Ptr(s1, x) == Ptr(s, x)
    requires Linking(s1, s2, f, k, bno, bno + 1, next) && f in s2.files
    requires forall g :: g in s2.files && g != f ==> s2.files[g] == s1.files[g]
    requires t.files == s2.files[f := s2.files[f].(size := s2.files[f].size + BY2BLK)] && t.n == s.n && t.disk == s2.disk
    requires forall x :: Ptr(t, x) == Ptr(s2, x)
    ensures FilesKnown(t, used, next) && IsDir(t, used, f) && DirGrown(s, t, f, k, bno, next)
  {
    assert bno >= 2;
    DirGrownFiles(s, s1, s2, t, used, f, k, bno, next);
    GrownIsKnown(s, t, used, f, k, bno, next);
    GrownIsDir(s, t, used, f, k, bno, next);
  }

  lemma DirGrownFiles(s: Fs, s1: Fs, s2: Fs, t: Fs, used: set<int>, f: int, k: int, bno: int, next: int)
    requires FilesKnown(s, used, bno) && bno >= 2 && f in s.files
    requires s1 == Fs(s.n, s.cache, s.disk, s.files + NewFiles(bno)) && forall x :: Ptr(s1, x) == Ptr(s, x)
    requires Linking(s1, s2, f, k, bno, bno + 1, next) && f in s2.files
    requires forall g :: g in s2.files && g != f ==> s2.files[g] == s1.files[g]
    requires t.files == s2.files[f := s2.files[f].(size := s2.files[f].size + BY2BLK)] && t.disk == s2.disk
    requires forall x :: Ptr(t, x) == Ptr(s2, x)
    ensures DirGrown(s, t, f, k, bno, next) && bno < next
  {
    hide Ptr;
    IdsOf(bno);
    assert forall g :: g in s.files ==> g !in Ids(bno);
    assert s1.files.Keys == s.files.Keys + Ids(bno);
    assert t.files.Keys == s2.files.Keys;
  }

  lemma GrownIsKnown(s: Fs, t: Fs, used: set<int>, f: int, k: int, bno: int, next: int)
    requires FilesKnown(s, used, bno) && DirGrown(s, t, f, k, bno, next) && bno < next && t.n == s.n && f in used
    requires 2 + NBitBlock(s.n) <= bno
    ensures FilesKnown(t, used, next)
  {
    hide Ptr;
    IdsOf(bno);
    forall g | g in t.files ensures g == 0 || 2 + NBitBlock(t.n) <= g / FILE2BLK < next {
      assert g in s.files.Keys || g in Ids(bno);
    }
    forall g | g in t.files && g !in used ensures t.files[g] == EmptyFile() {
      assert g in s.files.Keys || g in Ids(bno);
    }
  }

  lemma GrownIsDir(s: Fs, t: Fs, used: set<int>, f: int, k: int, bno: int, next: int)
    requires IsDir(s, used, f) && k == s.files[f].size / BY2BLK && 0 <= k && bno != 0
    requires DirGrown(s, t, f, k, bno, next) && f in t.files
    ensures IsDir(t, used, f)
  {
    hide Ptr;
    assert t.files[f].size / BY2BLK == k + 1;
    assert s.files.Keys <= t.files.Keys && Ids(bno) <= t.files.Keys;
    forall i | 0 <= i < k ensures Ptr(t, SlotOf(f, i)) == Ptr(s, SlotOf(f, i)) {
      assert SlotOf(f, i) != SlotOf(f, k);
    }
    forall i | k + 1 <= i && 0 <= i < NINDIRECT ensures !Holds(t, SlotOf(f, i)) {
      assert SlotOf(f, i) != SlotOf(f, k) && !Holds(s, SlotOf(f, i));
    }
  }

  /** File block k of f is now `bno`; beyond this only the indirect pointer may have become set. */
  ghost predicate Linking(s: Fs, t: Fs, f: int, k: int, bno: int, next: int, next1: int) {
    t.n == s.n && t.files.Keys == s.files.Keys && (forall g :: g in s.files ==> t.files[g].size == s.files[g].size) &&
    (forall x :: Ptr(t, x) ==
      if x == SlotOf(f, k) then bno else if x == Indirect(f) && next1 != next then next else Ptr(s, x)) &&
    (next1 == next || (next1 == next + 1 && k >= NDIRECT && Ptr(s, Indirect(f)) == 0)) &&
    (k >= NDIRECT && Ptr(s, Indirect(f)) == 0 ==> next1 == next + 1) &&
    (forall b :: b in s.disk && (k < NDIRECT || b != Ptr(t, Indirect(f))) ==> b in t.disk && t.disk[b] == s.disk[b])
  }

  lemma InitialImage(s: Fs)
    requires s.n % 8 == 0 && 2 + NBitBlock(s.n) <= s.n <= DISKMAX_BLOCKS && s.cache == map[]
    requires forall b :: b in s.disk <==> 0 <= b < s.n
    requires s.files == map[0 := EmptyFile()]
    requires forall b :: b in s.disk ==> s.disk[b] == InitialBlock(s.n, b)
    ensures Building(s, 2 + NBitBlock(s.n))
  {
    forall b | b in s.disk ensures IsBlock(s.disk[b]) {
      FilledBits(BIT2BLK, 0, 0);
      FilledBits(8 * (s.n % BIT2BLK / 8), 0, 0);
    }
    forall b | 0 <= b < s.n ensures DiskFree(s, b) {
      FilledBits(BIT2BLK, BitmapWord(b), b % 32);
      FilledBits(8 * (s.n % BIT2BLK / 8), BitmapWord(b), b % 32);
      InitialBit(s.n, b);
    }
    forall x ensures !Holds(s, x) {
    }
  }

  /** What init_disk leaves in block b. */
  ghost function InitialBlock(n: int, b: int): Block {
    if !(2 <= b < 2 + NBitBlock(n)) then ZeroBlock()
    else if b == 1 + NBitBlock(n) && n != NBitBlock(n) * BIT2BLK then FilledBlock(8 * (n % BIT2BLK / 8))
    else FilledBlock(BIT2BLK)
  }

  lemma InitialBit(n: int, b: int)
    requires n % 8 == 0 && 0 <= b < n
    ensures 2 <= BitmapBlock(b) < 2 + NBitBlock(n)
    ensures 0 <= BitmapWord(b) < 1024 && 32 * BitmapWord(b) + b % 32 == b % BIT2BLK
    ensures BitmapBlock(b) == 1 + NBitBlock(n) && n != NBitBlock(n) * BIT2BLK ==> b % BIT2BLK < 8 * (n % BIT2BLK / 8)
  {
    hide NBitBlock;
    var q, w := b / BIT2BLK, b % BIT2BLK;
    WordOfBit(b, q, w);
    var nq, nw := n / BIT2BLK, n % BIT2BLK;
    RoundedUp(n, nq, nw);
    LastBitmapBlock(n, b, q, w, nq, nw);
  }

  lemma RoundedUp(n: int, nq: int, nw: int)
    requires n == BIT2BLK * nq + nw && 0 <= nw < BIT2BLK
    ensures NBitBlock(n) == (if nw == 0 then nq else nq + 1) && (n == NBitBlock(n) * BIT2BLK <==> nw == 0)
    ensures n % 8 == 0 ==> nw % 8 == 0
  {
    var m := n + (BIT2BLK - 1);
    var k, r := if nw == 0 then nq else nq + 1, if nw == 0 then BIT2BLK - 1 else nw - 1;
    assert m == 32768 * k + r && 0 <= r < 32768;
    Sv32.DivByParts(m, k, r, 32768);
    assert n % 8 == nw % 8 by { Sv32.DivByParts(n, 4096 * nq + nw / 8, nw % 8, 8); }
  }

  lemma InitialBitBlock(n: int, b: int)
    requires 0 <= b < n
    ensures 2 <= BitmapBlock(b) < 2 + NBitBlock(n)
  {}

  lemma WordOfBit(b: int, q: int, w: int)
    requires 0 <= b == BIT2BLK * q + w && 0 <= w < BIT2BLK
    ensures 0 <= w / 32 < 1024 && 32 * (w / 32) + b % 32 == w && b % 32 == w % 32
  {
    assert b == 32 * (1024 * q + w / 32) + w % 32;
  }

  lemma LastBitmapBlock(n: int, b: int, q: int, w: int, nq: int, nw: int)
    requires 0 <= b < n && b == BIT2BLK * q + w && n == BIT2BLK * nq + nw && 0 <= w < BIT2BLK && 0 <= nw < BIT2BLK
    requires nw % 8 == 0 && NBitBlock(n) == if nw == 0 then nq else nq + 1
    ensures 0 <= q < NBitBlock(n)
    ensures q + 1 == NBitBlock(n) && nw != 0 ==> w < 8 * (nw / 8)
  {}

  /** A block full of empty file structures adds no pointer. */
  lemma FilesAdded(s: Fs, t: Fs, next: int)
    requires Building(s, next) && next < s.n && t == Fs(s.n, s.cache, s.disk, s.files + NewFiles(next))
    requires forall f :: f in s.files ==> f / FILE2BLK < next
    ensures Building(t, next + 1) && forall x :: Ptr(t, x) == Ptr(s, x)
  {
    IdsOf(next);
    forall x ensures Ptr(t, x) == Ptr(s, x) {
    }
    forall b ensures DiskFree(t, b) <==> DiskFree(s, b) {
    }
  }

  lemma Resized(s: Fs, t: Fs, f: int, next: int)
    requires Building(s, next) && f in s.files && f in t.files
    requires t == Fs(s.n, s.cache, s.disk, t.files) && 0 <= t.files[f].size < WORD
    requires t.files == s.files[f := s.files[f].(size := t.files[f].size)]
    ensures Building(t, next) && forall x :: Ptr(t, x) == Ptr(s, x)
  {
    forall x ensures Ptr(t, x) == Ptr(s, x) {
    }
    forall b ensures DiskFree(t, b) <==> DiskFree(s, b) {
    }
  }

  /** The indirect blocks of different files are different. */
  lemma IndirectsDiffer(s: Fs, lo: int, hi: int, f: int, g: int)
    requires Linked(s, lo, hi) && f in s.files && g in s.files && f != g && s.files[f].indirect != 0
    ensures s.files[f].indirect != s.files[g].indirect
  {
    assert Holds(s, Indirect(f)) && Ptr(s, Indirect(g)) == s.files[g].indirect;
  }

  lemma IndirectOnDisk(s: Fs, f: int, next: int)
    requires Building(s, next) && f in s.files && s.files[f].indirect != 0
    ensures 0 <= s.files[f].indirect < s.n && s.files[f].indirect in s.disk && IsBlock(s.disk[s.files[f].indirect])
  {
    assert Holds(s, Indirect(f));
  }

  lemma DirectLinked(s: Fs, t: Fs, f: int, k: int, bno: int, next: int)
    requires Building(s, next) && f in s.files && 0 <= k < NDIRECT && 2 + NBitBlock(s.n) <= bno < next
    requires !Holds(s, Direct(f, k)) && forall x :: Ptr(s, x) != bno
    requires t == Fs(s.n, s.cache, s.disk, s.files[f := s.files[f].(direct := s.files[f].direct[k := bno])])
    ensures Building(t, next) && Linking(s, t, f, k, bno, next, next)
  {
    forall x ensures Ptr(t, x) == if x == Direct(f, k) then bno else Ptr(s, x) {
    }
    forall b ensures DiskFree(t, b) <==> DiskFree(s, b) {
    }
  }

  /** A fresh indirect block shows no entries. */
  lemma IndirectMade(s: Fs, t: Fs, f: int, next: int)
    requires Building(s, next) && f in s.files && s.files[f].indirect == 0 && next < s.n
    requires t == Fs(s.n, s.cache, s.disk, s.files[f := s.files[f].(indirect := next)])
    ensures next > 0 && Building(t, next + 1) && forall x :: Ptr(t, x) == if x == Indirect(f) then next else Ptr(s, x)
  {
    forall x ensures Ptr(t, x) == if x == Indirect(f) then next else Ptr(s, x) {
    }
    forall b ensures DiskFree(t, b) <==> DiskFree(s, b) {
    }
  }

  lemma EntryLinked(s: Fs, t: Fs, f: int, k: int, bno: int, next: int)
    requires Building(s, next) && f in s.files && NDIRECT <= k < NINDIRECT && 2 + NBitBlock(s.n) <= bno < next
    requires s.files[f].indirect != 0 && !Holds(s, Entry(f, k)) && forall x :: Ptr(s, x) != bno
    requires s.files[f].indirect in s.disk && IsBlock(s.disk[s.files[f].indirect])
    requires t == Fs(s.n, s.cache,
                     s.disk[s.files[f].indirect := s.disk[s.files[f].indirect][k := bno]], s.files)
    ensures Building(t, next) && Linking(s, t, f, k, bno, next, next)
  {
    assert Holds(s, Indirect(f));
    EntryPtrs(s, t, f, k, bno, next);
    hide Ptr;
    forall b | 0 <= b < s.n ensures DiskFree(t, b) {
      assert DiskFree(s, b) && BitmapBlock(b) < 2 + NBitBlock(s.n);
    }
  }

  lemma EntryPtrs(s: Fs, t: Fs, f: int, k: int, bno: int, next: int)
    requires Building(s, next) && f in s.files && NDIRECT <= k < NINDIRECT
    requires s.files[f].indirect != 0 && s.files[f].indirect in s.disk && IsBlock(s.disk[s.files[f].indirect])
    requires t == Fs(s.n, s.cache,
                     s.disk[s.files[f].indirect := s.disk[s.files[f].indirect][k := bno]], s.files)
    ensures forall x: Slot :: Ptr(t, x) == if x == Entry(f, k) then bno else Ptr(s, x)
  {
    forall x: Slot ensures Ptr(t, x) == if x == Entry(f, k) then bno else Ptr(s, x) {
      if x.Entry? && x.f in s.files && x.f != f && s.files[x.f].indirect != 0 {
        IndirectsDiffer(s, 2 + NBitBlock(s.n), next, x.f, f);
      }
    }
  }
}
