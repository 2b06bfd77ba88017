/** The block layer of fs/fs.c: block allocation with write-back of the bitmap, the block-pointer walks,
    truncation and sync. The answers of the memory allocator are not under the server's control. */
module FileServer {
  import opened Words
  import opened FsModel

  class Server {
    const n: int
    var cache: map<int, Block>
    var disk: map<int, Block>
    var files: map<int, File>
    var dirty: set<int>
    /** The kernel's answers when the server asks for pages, and how often it has asked. */
    const grants: nat -> bool
    var asked: nat

    constructor (nblocks: int, onDisk: map<int, Block>, fs: map<int, File>, answers: nat -> bool)
      ensures n == nblocks && disk == onDisk && files == fs && cache == map[] && dirty == {} && grants == answers && asked == 0
    {
      n, disk, files, grants := nblocks, onDisk, fs, answers;
      cache, dirty, asked := map[], {}, 0;
    }

    ghost function View(): Fs
      reads this
    {
      Fs(n, cache, disk, files)
    }

    /** `write_block`; writing an unmapped block would be a panic. */
    method WriteBlock(b: int)
      requires b in cache
      modifies `disk
      ensures disk == old(disk)[b := cache[b]]
    {
      disk := disk[b := cache[b]];
    }

    /** `read_block`: after it the block is mapped; what it contains has not changed. Reading a block
        that is free or beyond the disk would be a panic. */
    method ReadBlock(b: int)
      requires Shape(View()) && 0 <= b < n && !Free(View(), b)
      modifies `cache
      ensures Shape(View()) && b in cache && Content(View(), b) == old(Content(View(), b))
      ensures cache == if b in old(cache) then old(cache) else old(cache)[b := disk[b]]
    {
      if b !in cache {
        cache := cache[b := ZeroBlock()];
        cache := cache[b := disk[b]];
      }
    }

    /** `map_block`: a block that is mapped already keeps its contents. */
    method MapBlock(b: int) returns (r: int)
      modifies `cache, `asked
      ensures r == (if b in old(cache) || grants(old(asked)) then 0 else -E_NO_MEM)
      ensures r == 0 ==> cache == if b in old(cache) then old(cache) else old(cache)[b := ZeroBlock()]
      ensures r != 0 ==> cache == old(cache) && b !in cache
      ensures asked == old(asked) + if b in old(cache) then 0 else 1
    {
      if b in cache {
        return 0;
      }
      asked := asked + 1;
      if !grants(asked - 1) {
        return -E_NO_MEM;
      }
      cache := cache[b := ZeroBlock()];
      r := 0;
    }

    method BlockIsFree(b: int) returns (yes: bool)
      requires Shape(View()) && 0 <= b
      ensures yes <==> Free(View(), b)
    {
      if b >= n {
        return false;
      }
      BitmapIndex(n, b);
      yes := TestBit(cache[BitmapBlock(b)][BitmapWord(b)], b % 32);
    }

    /** `free_block`: in memory only. */
    method FreeBlock(b: int)
      requires Shape(View()) && 0 <= b
      modifies `cache
      ensures Shape(View()) && SameButBitmap(old(View()), View())
      ensures forall x :: Free(View(), x) <==> old(Free(View(), x)) || (x == b && 0 < b < n)
      ensures disk == old(disk) && files == old(files)
    {
      if b == 0 || b >= n {
        return;
      }
      BitmapIndex(n, b);
      ghost var c := cache;
      var w := cache[BitmapBlock(b)][BitmapWord(b)];
      WordBits(w, b % 32);
      cache := cache[BitmapBlock(b) := cache[BitmapBlock(b)][BitmapWord(b) := SetBit(w, b % 32)]];
      forall x | 0 <= x < n ensures Free(View(), x) <==> old(Free(View(), x)) || x == b {
        SetBitOf(c, b, x, true);
      }
    }

    /** The bit of a free block is cleared in memory. */
    method UseBlock(b: int)
      requires Shape(View()) && Free(View(), b)
      modifies `cache
      ensures Shape(View()) && SameButBitmap(old(View()), View())
      ensures forall x :: Free(View(), x) <==> old(Free(View(), x)) && x != b
    {
      BitmapIndex(n, b);
      ghost var c := cache;
      var w := cache[BitmapBlock(b)][BitmapWord(b)];
      WordBits(w, b % 32);
      cache := cache[BitmapBlock(b) := cache[BitmapBlock(b)][BitmapWord(b) := ClearBit(w, b % 32)]];
      forall x | 0 <= x < n ensures Free(View(), x) <==> old(Free(View(), x)) && x != b {
        SetBitOf(c, b, x, false);
      }
    }

    /** `alloc_block_num`: the first free block, marked used in memory and, in its whole bitmap block,
        on disk. */
    method AllocBlockNum() returns (r: int)
      requires Shape(View())
      modifies `cache, `disk
      ensures Shape(View()) && SameButBitmap(old(View()), View())
      ensures r == -E_NO_DISK || 3 <= r < n
      ensures r < 0 ==> View() == old(View()) && forall b :: 3 <= b ==> !Free(View(), b)
      ensures r >= 0 ==> old(Free(View(), r)) && forall b :: 3 <= b < r ==> !old(Free(View(), b))
      ensures r >= 0 ==> forall x :: Free(View(), x) <==> old(Free(View(), x)) && x != r
      ensures r >= 0 ==> forall x :: DiskFree(View(), x) <==>
        (if BitmapBlock(x) == BitmapBlock(r) then Free(View(), x) else old(DiskFree(View(), x)))
    {
      hide SameButBitmap, DiskFree;
      SameBitmapItself(View());
      var blockno := 3;
      while blockno < n
        invariant 3 <= blockno
        invariant View() == old(View())
        invariant forall b :: 3 <= b < blockno ==> !Free(View(), b)
      {
        BitmapIndex(n, blockno);
        if TestBit(cache[BitmapBlock(blockno)][BitmapWord(blockno)], blockno % 32) {
          ghost var s0 := View();
          UseBlock(blockno);
          ghost var s1 := View();
          WriteBlock(blockno / BIT2BLK + 2);
          BitmapWritten(s0, s1, View(), blockno);
          return blockno;
        }
        blockno := blockno + 1;
      }
      r := -E_NO_DISK;
    }

    /** `alloc_block`: without memory for the block, the bit in memory is rolled back. */
    method AllocBlock() returns (r: int)
      requires Shape(View())
      modifies `cache, `disk, `asked
      ensures Shape(View()) && files == old(files)
      ensures r == -E_NO_DISK || r == -E_NO_MEM || 3 <= r < n
      ensures r == -E_NO_DISK <==> forall b :: 3 <= b ==> !old(Free(View(), b))
      ensures r == -E_NO_MEM <==> Refused(old(View()), grants, old(asked))
      ensures old(asked) <= asked <= old(asked) + 1 && (r == -E_NO_MEM ==> asked > old(asked) && !grants(asked - 1))
      ensures r < 0 ==> Unallocated(old(View()), View())
      ensures r >= 0 ==> Allocated(old(View()), View(), r)
      ensures old(Conservative(View())) ==> Conservative(View())
    {
      hide SameButBitmap, Free, DiskFree, Allocated, Unallocated, Conservative;
      ghost var s0 := View();
      r := AllocBlockNum();
      ghost var s1 := View();
      AllocStaysConservative(s0, s1, r);
      if r < 0 {
        AllocFailed(s0, s1);
        assert !Refused(s0, grants, asked);
        return;
      }
      var bno := r;
      RefusedIs(s0, s1, bno, grants, asked);
      r := MapBlock(bno);
      ghost var s2 := View();
      MappingKeeps(s0, s1, s2, bno, r);
      if r < 0 {
        FreeBlock(bno);
        RolledBack(s0, s1, View(), bno);
        return;
      }
      r := bno;
    }

    /** `*pp`, for the pointer that file_block_walk found. */
    method LoadPtr(x: Slot) returns (v: int)
      requires Readable(View(), x)
      ensures v == Ptr(View(), x)
    {
      match x
      case Direct(f, i) => v := files[f].direct[i];
      case Entry(f, i) => v := cache[files[f].indirect][i];
      case Indirect(f) => v := files[f].indirect;
    }

    /** `*pp = v` */
    method StorePtr(x: Slot, v: int)
      requires Readable(View(), x) && !x.Indirect? && IsWord(v)
      modifies `cache, `files
      ensures View() == WithPtr(old(View()), x, v)
    {
      match x
      case Direct(f, i) => files := files[f := files[f].(direct := files[f].direct[i := v])];
      case Entry(f, i) => cache := cache[files[f].indirect := cache[files[f].indirect][i := v]];
    }

    /** `file_block_walk`: where the pointer of file block `filebno` is. With `alloc` a missing indirect
        block is allocated; it is as empty as its cached contents are. */
    method FileBlockWalk(f: int, filebno: int, alloc: bool) returns (r: int, x: Slot)
      requires Inv(View()) && f in files && 0 <= filebno
      modifies `cache, `disk, `files, `asked
      ensures Shape(View()) && f in files
      ensures r == 0 ==> x == SlotOf(f, filebno) && Readable(View(), x) && filebno < NINDIRECT
      ensures !alloc ==> disk == old(disk) && files == old(files)
      ensures filebno >= NINDIRECT <==> r == -E_INVAL
      ensures r == -E_NOT_FOUND <==> NDIRECT <= filebno < NINDIRECT && old(files)[f].indirect == 0 && !alloc
      ensures r == 0 || r == -E_INVAL || r == -E_NOT_FOUND ||
        ((r == -E_NO_DISK || r == -E_NO_MEM) && alloc && filebno >= NDIRECT && old(files)[f].indirect == 0)
      ensures r == -E_NO_DISK <==> old(NeedsIndirect(View(), f, filebno, alloc)) && forall b :: 3 <= b ==> !old(Free(View(), b))
      ensures r == -E_NO_MEM <==> old(NeedsIndirect(View(), f, filebno, alloc)) && Refused(old(View()), grants, old(asked))
      ensures old(asked) <= asked && (r == -E_NO_MEM ==> asked > old(asked) && !grants(asked - 1))
      ensures !old(NeedsIndirect(View(), f, filebno, alloc)) ==> asked == old(asked)
      ensures !old(NeedsIndirect(View(), f, filebno, alloc)) ==>
        forall b :: b in cache <==> b in old(cache) || (r == 0 && filebno >= NDIRECT && b == files[f].indirect)
      ensures r != 0 || filebno < NDIRECT || old(files)[f].indirect != 0 ==> SameVisible(old(View()), View()) && Inv(View())
      ensures r == 0 && filebno >= NDIRECT && old(files)[f].indirect == 0 ==>
        NewIndirect(old(View()), View(), f) && (EmptyEntries(View(), f) ==> Inv(View()))
      ensures old(Conservative(View())) ==> Conservative(View())
    {
      hide Free, DiskFree, Owned, SystemInUse, Allocated, Unallocated, NewIndirect, SameVisible, EmptyEntries, Conservative;
      ghost var s0 := View();
      SameVisibleItself(s0);
      if filebno < NDIRECT {
        return 0, Direct(f, filebno);
      } else if filebno < NINDIRECT {
        if files[f].indirect == 0 {
          if !alloc {
            return -E_NOT_FOUND, Direct(f, 0);
          }
          r := AllocBlock();
          if r < 0 {
            UnallocatedKeeps(s0, View());
            return r, Direct(f, 0);
          }
          ghost var s1 := View();
          AllocatedKeeps(s0, s1, r);
          files := files[f := files[f].(indirect := r)];
          NewIndirectKeeps(s0, s1, View(), f, r);
        }
        ghost var s2 := View();
        IndirectReadable(s0, s2, f);
        ReadBlock(files[f].indirect);
        WalkReads(s0, s2, View(), f);
        return 0, Entry(f, filebno);
      } else {
        return -E_INVAL, Direct(f, 0);
      }
    }

    /** `file_map_block`. When an indirect block is made from a cached block that is not zero (`Reuses`), the
        file shows entries that nobody has written. Ownership is then lost, unless all of them name lost
        blocks (`Orphans`); in every other case it is kept. */
    method FileMapBlock(f: int, filebno: int, alloc: bool) returns (r: int, diskbno: int)
      requires Inv(View()) && f in files && 0 <= filebno
      modifies `cache, `disk, `files, `asked
      ensures f in files
      ensures !old(Reuses(View(), f, filebno, alloc)) || files[f].indirect == 0 ==>
        Inv(View()) && OnlyGrows(old(View()), View(), f, filebno)
      ensures old(Reuses(View(), f, filebno, alloc)) && files[f].indirect != 0 ==>
        MadeIndirect(old(View()), View(), f, filebno) && (Inv(View()) <==> old(Orphans(View())))
      ensures old(NoLeak(View())) ==> (Inv(View()) <==> !(old(Reuses(View(), f, filebno, alloc)) && files[f].indirect != 0))
      ensures filebno >= NINDIRECT <==> r == -E_INVAL
      ensures r == -E_NOT_FOUND <==> filebno < NINDIRECT && !alloc && !old(Holds(View(), SlotOf(f, filebno)))
      ensures r == 0 || r == -E_INVAL || r == -E_NOT_FOUND || ((r == -E_NO_DISK || r == -E_NO_MEM) && alloc)
      ensures old(NeedsOneBlock(View(), f, filebno, alloc)) ==>
        (r == -E_NO_DISK <==> forall b :: 3 <= b ==> !old(Free(View(), b))) &&
        (r == -E_NO_MEM <==> Refused(old(View()), grants, old(asked)))
      ensures r == -E_NO_DISK ==> forall b :: 3 <= b ==> !Free(View(), b)
      ensures r == -E_NO_MEM ==> exists k: nat :: old(asked) <= k < asked && !grants(k)
      ensures r == 0 ==> diskbno == Ptr(View(), SlotOf(f, filebno)) && diskbno != 0
      ensures old(Holds(View(), SlotOf(f, filebno))) && filebno < NINDIRECT ==> r == 0 && SameVisible(old(View()), View())
      ensures !alloc ==> SameVisible(old(View()), View())
      ensures old(Conservative(View())) ==> Conservative(View())
    {
      hide Owned, SystemInUse, OnlyGrows, SameVisible, NewIndirect, Allocated, Unallocated, AllocReadsZero, Conservative, MadeIndirect, Orphans, NoLeak;
      hide Free, Refused, Shape, Ptr;
      ghost var s0 := View();
      ZeroInUse(s0);
      HeldNeedsIndirect(s0, f, filebno);
      ghost var bad := Reuses(s0, f, filebno, alloc);
      var x;
      r, x := FileBlockWalk(f, filebno, alloc);
      ghost var s1 := View();
      if bad && r == 0 { Made(s0, s1, f, filebno); MadeIsOwnedExactly(s0, s1, f, filebno); } else { WalkResult(s0, s1, f, filebno, r); }
      if r < 0 {
        WalkFailed(s0, s1, f);
        return r, 0;
      }
      var v := LoadPtr(x);
      if v == 0 {
        if !alloc {
          return -E_NOT_FOUND, 0;
        }
        if !NeedsIndirect(s0, f, filebno, alloc) { SameRefusal(s0, s1, f, filebno, grants, asked); }
        r := AllocBlock();
        ghost var s2 := View();
        if r < 0 {
          NoneBecameFree(s1, s2);
          if bad { MadeFails(s0, s1, s2, f, filebno); MadeIsOwnedExactly(s0, s2, f, filebno); } else { GrowFails(s0, s1, s2, f, filebno); }
          return r, 0;
        }
        if bad { MadeReadable(s0, s1, s2, f, filebno, x, r); } else { StaysReadable(s1, s2, x, r); }
        BlockNumbersAreWords(s2);
        StorePtr(x, r);
        if bad {
          MadeStores(s0, s1, s2, View(), f, filebno, x, r);
          MadeIsOwnedExactly(s0, View(), f, filebno);
        } else {
          GrowStores(s0, s1, s2, View(), f, filebno, x, r);
        }
        v := r;
      }
      return 0, v;
    }

    /** `file_truncate`: the blocks from new_nblocks on go back to the bitmap; with at most ten blocks
        left the indirect block goes, too. */
    method FileTruncate(f: int, newsize: int)
      requires Inv(View()) && f in files && 0 <= newsize < WORD
      modifies `cache, `disk, `files, `asked
      ensures Inv(View()) && disk == old(disk) && files.Keys == old(files).Keys && files[f].size == newsize
      ensures forall g :: g in files && g != f ==> files[g].size == old(files)[g].size
      ensures Truncated(old(View()), View(), f, Blocks(old(files)[f].size), KeptBlocks(newsize))
      ensures old(Conservative(View())) ==> Conservative(View())
    {
      hide Owned, SystemInUse, ClearedRange, IndirectDropped, Truncated, SameButBitmap, Free, Conservative, Ptr;
      ghost var s0 := View();
      var oldNblocks := files[f].size / BY2BLK + 1;
      var newNblocks := newsize / BY2BLK + 1;
      if newsize == 0 {
        newNblocks := 0;
      }
      ClearBlocks(f, newNblocks, oldNblocks);
      ghost var s1 := View();
      if newNblocks <= NDIRECT {
        if files[f].indirect != 0 {
          ghost var b := files[f].indirect;
          IndirectIsData(s1, f);
          FreeBlock(files[f].indirect);
          ghost var s2 := View();
          files := files[f := files[f].(indirect := 0)];
          DropIndirectKeeps(s1, s2, View(), f, b);
        } else {
          NothingToDrop(s1, f);
        }
      }
      ghost var s3 := View();
      files := files[f := files[f].(size := newsize)];
      ResizeKeeps(s3, View(), f, newsize);
      TruncateDone(s0, s1, s3, View(), f, oldNblocks, newNblocks);
      FreeingStaysConservative(s0, View(), f, oldNblocks, newNblocks);
    }

    /** `file_set_size`, without the flush of the directory. */
    method FileSetSize(f: int, newsize: int)
      requires Inv(View()) && f in files && 0 <= newsize < WORD
      modifies `cache, `disk, `files, `asked
      ensures Inv(View()) && disk == old(disk) && files.Keys == old(files).Keys && files[f].size == newsize
      ensures newsize < old(files)[f].size ==>
        Truncated(old(View()), View(), f, Blocks(old(files)[f].size), KeptBlocks(newsize))
      ensures newsize >= old(files)[f].size ==>
        (forall x :: Ptr(View(), x) == old(Ptr(View(), x))) && (forall b :: Free(View(), b) <==> old(Free(View(), b)))
      ensures old(Covered(View(), f)) ==> Covered(View(), f)
      ensures old(Conservative(View())) ==> Conservative(View())
    {
      hide Inv, Truncated, Conservative, NoTail;
      ghost var s0 := View();
      if files[f].size > newsize {
        FileTruncate(f, newsize);
      }
      ghost var s1 := View();
      files := files[f := files[f].(size := newsize)];
      if s0.files[f].size > newsize {
        assert View() == s1;
        TruncatedIsCovered(s0, s1, f, Blocks(s0.files[f].size), KeptBlocks(newsize), Blocks(newsize));
      } else {
        GrownIsCovered(s0, View(), f, newsize);
      }
    }

    /** `fs_sync`: every mapped dirty block is on disk afterwards. */
    method FsSync()
      requires Shape(View())
      modifies `disk
      ensures Shape(View())
      ensures forall b :: 0 <= b < n && b in dirty && b in cache ==> b in disk && disk[b] == cache[b]
      ensures forall b :: b in disk && !(0 <= b < n && b in dirty && b in cache) ==> b in old(disk) && disk[b] == old(disk)[b]
      ensures old(Conservative(View())) ==> Conservative(View())
    {
      var i := 0;
      while i < n
        invariant 0 <= i <= n && disk.Keys == old(disk).Keys
        invariant forall b :: b in disk ==>
          disk[b] == if 0 <= b < i && b in dirty && b in cache then cache[b] else old(disk)[b]
      {
        if i in cache && i in dirty {
          WriteBlock(i);
        }
        i := i + 1;
      }
      assert forall b :: b in disk <==> b in old(disk).Keys;
      SyncStaysConservative(old(View()), View());
    }

    /** `read_bitmap` on a disk whose super block gives n blocks: the bitmap is mapped, and the result says
        whether all assertions hold. Reading a block beyond the disk is a panic, too. */
    method ReadBitmap() returns (ok: bool)
      requires DiskShape(View()) && forall b :: IsBitmapBlock(n, b) ==> b !in cache
      modifies `cache
      ensures ok <==> 2 + NBitmap(n) <= n && forall b :: 0 <= b < 2 + NBitmap(n) ==> !old(DiskFree(View(), b))
      ensures ok ==> Shape(View()) && SystemInUse(View())
      ensures ok ==> (forall b :: Free(View(), b) <==> DiskFree(View(), b)) && Conservative(View())
      ensures ok ==> forall x :: Ptr(View(), x) == old(Ptr(View(), x))
      ensures forall b :: !IsBitmapBlock(n, b) ==> (b in cache <==> b in old(cache))
    {
      hide Free, DiskFree, Ptr;
      ok := MapBitmap();
      if !ok {
        return;
      }
      ghost var s1 := View();
      var i := 0;
      while i < 2 + (n / BIT2BLK + 1)
        invariant 0 <= i <= 2 + NBitmap(n) && View() == s1
        invariant ok <==> forall b :: 0 <= b < i ==> !Free(View(), b)
      {
        var free := BlockIsFree(i);
        if free { ok := false; }
        i := i + 1;
      }
    }

    /** The first loop of `read_bitmap`. */
    method MapBitmap() returns (ok: bool)
      requires DiskShape(View()) && forall b :: IsBitmapBlock(n, b) ==> b !in cache
      modifies `cache
      ensures ok <==> 2 + NBitmap(n) <= n
      ensures ok ==> Shape(View())
      ensures ok ==> forall b :: (Free(View(), b) <==> DiskFree(View(), b)) && (DiskFree(View(), b) <==> old(DiskFree(View(), b)))
      ensures ok ==> forall x :: Ptr(View(), x) == old(Ptr(View(), x))
      ensures forall b :: !IsBitmapBlock(n, b) ==> (b in cache <==> b in old(cache))
    {
      hide Free, DiskFree, Ptr;
      ghost var s0 := View();
      var nbitmap := n / BIT2BLK + 1;
      var i := 0;
      while i < nbitmap
        invariant 0 <= i <= nbitmap && (i > 0 ==> i + 2 <= n)
        invariant forall b :: b in cache ==> IsBlock(cache[b])
        invariant forall b :: b in cache <==> b in s0.cache || 2 <= b < 2 + i
        invariant forall b :: b in cache ==> cache[b] == if 2 <= b < 2 + i then disk[b] else s0.cache[b]
      {
        if i + 2 >= n {
          return false;
        }
        assert i + 2 !in cache;
        cache := cache[i + 2 := disk[i + 2]];
        i := i + 1;
      }
      ghost var s1 := View();
      assert Shape(s1);
      BitmapLoaded(s0, s1);
      ok := true;
    }

    /** The loop of `file_truncate`, which is the same on both of its branches. */
    method ClearBlocks(f: int, from: int, to: int)
      requires Inv(View()) && f in files && 0 <= from
      modifies `cache, `disk, `files, `asked
      ensures Inv(View()) && disk == old(disk) && files.Keys == old(files).Keys
      ensures forall g :: g in files ==> files[g].size == old(files)[g].size
      ensures ClearedRange(old(View()), View(), f, from, to)
    {
      ghost var s0 := View();
      var bno := from;
      while bno < to
        invariant from <= bno && (to <= from ==> bno == from) && (from < to ==> bno <= to)
        invariant Inv(View()) && disk == old(disk) && files.Keys == old(files).Keys
        invariant forall g :: g in files ==> files[g].size == old(files)[g].size
        invariant ClearedRange(s0, View(), f, from, bno)
      {
        ghost var s1 := View();
        var _ := FileClearBlock(f, bno);
        ClearedOneMore(s0, s1, View(), f, from, bno);
        bno := bno + 1;
      }
      ClearedRangeEmpty(s0, View(), f, from, bno, to);
    }

    /** `file_clear_block`: the block goes back to the bitmap in memory, its pointer is cleared. */
    method FileClearBlock(f: int, filebno: int) returns (r: int)
      requires Inv(View()) && f in files && 0 <= filebno
      modifies `cache, `disk, `files, `asked
      ensures Inv(View()) && disk == old(disk) && files.Keys == old(files).Keys
      ensures forall g :: g in files ==> files[g].size == old(files)[g].size
      ensures Cleared(old(View()), View(), f, filebno)
      ensures r == if filebno >= NINDIRECT then -E_INVAL
                   else if filebno >= NDIRECT && old(files)[f].indirect == 0 then -E_NOT_FOUND
                   else 0
    {
      ghost var s0 := View();
      var x;
      r, x := FileBlockWalk(f, filebno, false);
      ghost var s1 := View();
      if r < 0 {
        return;
      }
      var v := LoadPtr(x);
      if v != 0 {
        assert Holds(s1, x);
        FreeBlock(v);
        ghost var s2 := View();
        PtrsKept(s1, s2);
        assert Readable(s2, x) by {
          if x.Entry? { IndirectIsData(s1, f); assert s1.files[f].indirect in s2.cache.Keys; }
        }
        StorePtr(x, 0);
        ClearKeeps(s1, s2, View(), x, v);
      }
      r := 0;
    }
  }

  /** A failed allocation: the bits in memory are the same, on disk at most one more is in use. */
  ghost predicate Unallocated(s: Fs, t: Fs) {
    SameButBitmap(s, t) && forall x :: Free(t, x) <==> Free(s, x)
  }

  /** The walk has to make the indirect block first. */
  ghost predicate NeedsIndirect(s: Fs, f: int, filebno: int, alloc: bool) {
    alloc && NDIRECT <= filebno < NINDIRECT && f in s.files && s.files[f].indirect == 0
  }

  /** The pointer is not set, and only a block for it is missing. */
  ghost predicate NeedsOneBlock(s: Fs, f: int, filebno: int, alloc: bool) {
    alloc && 0 <= filebno < NINDIRECT && !Holds(s, SlotOf(f, filebno)) && !NeedsIndirect(s, f, filebno, alloc)
  }

  /** The first free block is not mapped, and the kernel does not give a page for it. */
  ghost predicate Refused(s: Fs, grants: nat -> bool, asked: nat) {
    !grants(asked) && exists b :: FirstFree(s, b) && b !in s.cache
  }

  /** The block alloc_block_num finds. */
  ghost predicate FirstFree(s: Fs, b: int) {
    3 <= b && Free(s, b) && forall k :: 3 <= k < b ==> !Free(s, k)
  }

  /** A successful allocation of `b`: it was the first free block and is now in use and mapped. Its contents are the
      cached ones if it was still mapped, and zero otherwise. */
  ghost predicate Allocated(s: Fs, t: Fs, b: int) {
    FirstFree(s, b) && (forall x :: Free(t, x) <==> Free(s, x) && x != b) &&
    t.n == s.n && t.files == s.files && t.disk.Keys == s.disk.Keys && t.cache.Keys == s.cache.Keys + {b} &&
    (b in s.cache && !IsBitmapBlock(s.n, b) ==> t.cache[b] == s.cache[b]) &&
    (b !in s.cache ==> t.cache[b] == ZeroBlock()) &&
    (forall x :: x in s.cache && !IsBitmapBlock(s.n, x) ==> t.cache[x] == s.cache[x]) &&
    (forall x :: x in s.disk && !IsBitmapBlock(s.n, x) ==> t.disk[x] == s.disk[x])
  }

  /** The pointer can be read without touching the disk. */
  ghost predicate Readable(s: Fs, x: Slot) {
    x.f in s.files && |s.files[x.f].direct| == NDIRECT &&
    match x
    case Direct(f, i) => 0 <= i < NDIRECT
    case Indirect(f) => true
    case Entry(f, i) =>
      NDIRECT <= i < NINDIRECT && s.files[f].indirect != 0 && s.files[f].indirect in s.cache &&
      |s.cache[s.files[f].indirect]| == NINDIRECT
  }

  ghost function WithPtr(s: Fs, x: Slot, v: int): Fs
    requires Readable(s, x) && !x.Indirect?
  {
    match x
    case Direct(f, i) => Fs(s.n, s.cache, s.disk, s.files[f := s.files[f].(direct := s.files[f].direct[i := v])])
    case Entry(f, i) =>
      Fs(s.n, s.cache[s.files[f].indirect := s.cache[s.files[f].indirect][i := v]], s.disk, s.files)
  }

  /** Same pointers, same bits in memory, same sizes. */
  ghost predicate SameVisible(s: Fs, t: Fs) {
    t.n == s.n && t.files.Keys == s.files.Keys && (forall f :: f in s.files ==> t.files[f].size == s.files[f].size) &&
    (forall x :: Ptr(t, x) == Ptr(s, x)) && (forall b :: Free(t, b) <==> Free(s, b))
  }

  /** File f has an indirect block now, taken from the free blocks; all other pointers but the entries
      of this block are the same. */
  ghost predicate NewIndirect(s: Fs, t: Fs, f: int) {
    t.n == s.n && f in t.files && f in s.files && t.files.Keys == s.files.Keys &&
    (forall g :: g in s.files ==> t.files[g].size == s.files[g].size) &&
    (var b := t.files[f].indirect;
     FirstFree(s, b) && DataBlock(s, b) && Ptr(t, Indirect(f)) == b &&
     (forall x :: Free(t, x) <==> Free(s, x) && x != b) &&
     (forall x: Slot :: x.f != f || x.Direct? ==> Ptr(t, x) == Ptr(s, x)) &&
     Content(t, b) == (if b in s.cache then s.cache[b] else ZeroBlock()))
  }

  ghost predicate EmptyEntries(s: Fs, f: int) {
    forall i :: !Holds(s, Entry(f, i))
  }

  lemma ZeroInUse(s: Fs)
    requires Inv(s)
    ensures !Free(s, 0)
  {}

  lemma SameBitmapItself(s: Fs)
    ensures SameButBitmap(s, s)
  {}

  /** The bitmap block of b goes to the disk. */
  lemma BitmapWritten(s: Fs, m: Fs, t: Fs, b: int)
    requires Shape(m) && SameButBitmap(s, m) && m.disk == s.disk && 0 <= b < m.n
    requires t == Fs(m.n, m.cache, m.disk[BitmapBlock(b) := m.cache[BitmapBlock(b)]], m.files)
    ensures Shape(t) && SameButBitmap(s, t) && forall x :: Free(t, x) <==> Free(m, x)
    ensures forall x :: DiskFree(t, x) <==> if BitmapBlock(x) == BitmapBlock(b) then Free(t, x) else DiskFree(s, x)
  {
    BitmapIndex(m.n, b);
  }

  lemma AllocStaysConservative(s: Fs, t: Fs, b: int)
    requires t == s || (0 <= b && (forall x :: Free(t, x) <==> Free(s, x) && x != b) &&
      forall x :: DiskFree(t, x) <==> (if BitmapBlock(x) == BitmapBlock(b) then Free(t, x) else DiskFree(s, x)))
    ensures Conservative(s) ==> Conservative(t)
  {
    if Conservative(s) {
      forall x | DiskFree(t, x) ensures Free(t, x) {
      }
    }
  }

  /** Reading the indirect block does not change which block is the next one, and whether it is mapped. */
  lemma SameRefusal(s: Fs, t: Fs, f: int, filebno: int, grants: nat -> bool, asked: nat)
    requires Inv(s) && Inv(t) && SameVisible(s, t) && f in s.files && f in t.files && (filebno >= NDIRECT ==> s.files[f].indirect != 0)
    requires forall b :: b in t.cache <==> b in s.cache || (filebno >= NDIRECT && b == t.files[f].indirect)
    ensures Refused(t, grants, asked) <==> Refused(s, grants, asked)
    ensures forall b :: Free(t, b) <==> Free(s, b)
  {
    hide Free, Ptr;
    forall b ensures FirstFree(t, b) <==> FirstFree(s, b) {
    }
    if filebno >= NDIRECT {
      IndirectOf(s, t, f);
      IndirectIsData(s, f);
    }
    forall b | FirstFree(s, b) ensures b in t.cache <==> b in s.cache {
      assert filebno >= NDIRECT ==> b != s.files[f].indirect;
    }
  }

  lemma IndirectOf(s: Fs, t: Fs, f: int)
    requires SameVisible(s, t) && f in s.files && f in t.files
    ensures t.files[f].indirect == s.files[f].indirect == Ptr(s, Indirect(f)) == Ptr(t, Indirect(f))
  {
    assert Ptr(t, Indirect(f)) == Ptr(s, Indirect(f));
  }

  lemma HeldNeedsIndirect(s: Fs, f: int, filebno: int)
    requires f in s.files
    ensures Holds(s, SlotOf(f, filebno)) && filebno >= NDIRECT ==> s.files[f].indirect != 0
  {}

  lemma BlockNumbersAreWords(s: Fs)
    requires Shape(s)
    ensures s.n < WORD
  {}

  lemma NoneBecameFree(s: Fs, t: Fs)
    ensures Unallocated(s, t) ==> forall b :: Free(t, b) <==> Free(s, b)
  {
    hide Free;
  }

  lemma RefusedIs(s: Fs, m: Fs, b: int, grants: nat -> bool, asked: nat)
    requires SameButBitmap(s, m) && FirstFree(s, b)
    ensures Refused(s, grants, asked) <==> !grants(asked) && b !in m.cache
  {
    forall k | FirstFree(s, k) ensures k == b { OnlyOneFirst(s, b, k); }
    assert b in m.cache <==> b in m.cache.Keys;
    assert b in s.cache <==> b in s.cache.Keys;
  }

  lemma AllocFailed(s: Fs, t: Fs)
    requires t == s
    ensures Unallocated(s, t)
  {}

  lemma MappingKeeps(s: Fs, m: Fs, t: Fs, b: int, r: int)
    requires Shape(s) && Shape(m) && SameButBitmap(s, m) && FirstFree(s, b)
    requires forall x :: Free(m, x) <==> Free(s, x) && x != b
    requires t == Fs(m.n, t.cache, m.disk, m.files)
    requires r == 0 ==> t.cache == if b in m.cache then m.cache else m.cache[b := ZeroBlock()]
    requires r != 0 ==> t == m
    ensures Shape(t) && (Conservative(m) ==> Conservative(t))
    ensures r == 0 ==> Allocated(s, t, b)
  {
    forall x ensures (Free(t, x) <==> Free(m, x)) && (DiskFree(t, x) <==> DiskFree(m, x)) {
    }
    assert b in s.cache <==> b in s.cache.Keys;
    assert b in m.cache <==> b in m.cache.Keys;
    assert t.cache.Keys == m.cache.Keys + (if r == 0 then {b} else {});
  }

  lemma RolledBack(s: Fs, m: Fs, t: Fs, b: int)
    requires SameButBitmap(s, m) && SameButBitmap(m, t) && Free(s, b)
    requires forall x :: Free(m, x) <==> Free(s, x) && x != b
    requires forall x :: Free(t, x) <==> Free(m, x) || x == b
    requires t.disk == m.disk
    ensures Unallocated(s, t) && (Conservative(m) ==> Conservative(t))
  {
    forall x ensures DiskFree(t, x) <==> DiskFree(m, x) {
    }
  }

  lemma UnallocatedKeeps(s: Fs, t: Fs)
    requires Inv(s) && Shape(t) && Unallocated(s, t)
    ensures Inv(t) && SameVisible(s, t)
  {
    PtrsKept(s, t);
  }

  /** An allocated block is a data block that no slot held, and moves no pointer. */
  lemma AllocatedKeeps(s: Fs, t: Fs, b: int)
    requires Inv(s) && Shape(t) && Allocated(s, t, b)
    ensures Inv(t) && DataBlock(s, b) && (forall x :: Ptr(t, x) == Ptr(s, x)) && (forall x :: Ptr(s, x) != b)
    ensures Content(t, b) == if b in s.cache then s.cache[b] else ZeroBlock()
  {
    assert DataBlock(s, b);
    forall f | f in s.files && s.files[f].indirect != 0
      ensures Content(t, s.files[f].indirect) == Content(s, s.files[f].indirect)
    {
      IndirectIsData(s, f);
      var k := s.files[f].indirect;
      assert k in t.cache <==> k in t.cache.Keys;
      assert k in s.disk <==> k in s.disk.Keys;
      assert k in t.disk <==> k in t.disk.Keys;
    }
    forall x ensures Ptr(t, x) == Ptr(s, x) && Ptr(s, x) != b {
      if Ptr(s, x) == b { assert Holds(s, x); }
    }
    assert b in t.cache.Keys;
  }

  lemma ReadKeeps(s: Fs, t: Fs, b: int)
    requires Shape(s) && Shape(t) && 0 <= b < s.n && !IsBitmapBlock(s.n, b)
    requires t == Fs(s.n, if b in s.cache then s.cache else s.cache[b := s.disk[b]], s.disk, s.files)
    ensures SameVisible(s, t) && (Inv(s) ==> Inv(t))
  {
    forall k ensures Content(t, k) == Content(s, k) {
    }
    forall x ensures Ptr(t, x) == Ptr(s, x) {
    }
    forall x ensures Free(t, x) <==> Free(s, x) {
    }
  }

  lemma SameVisibleItself(s: Fs)
    ensures SameVisible(s, s)
  {}

  /** In the middle of a walk the file has an indirect block that may be read. */
  lemma IndirectReadable(s: Fs, t: Fs, f: int)
    requires f in s.files && s.files[f].indirect != 0 ==> Inv(s) && t == s
    requires f in s.files && s.files[f].indirect == 0 ==> NewIndirect(s, t, f)
    requires f in s.files
    ensures f in t.files && DataBlock(t, t.files[f].indirect) && !Free(t, t.files[f].indirect)
  {
    if s.files[f].indirect != 0 { IndirectIsData(s, f); }
  }

  lemma WalkReads(s: Fs, m: Fs, t: Fs, f: int)
    requires f in s.files && Shape(m) && Shape(t) && f in m.files && DataBlock(m, m.files[f].indirect)
    requires s.files[f].indirect == 0 ==> NewIndirect(s, m, f) && (EmptyEntries(m, f) ==> Inv(m))
    requires s.files[f].indirect != 0 ==> m == s && Inv(s)
    requires var b := m.files[f].indirect;
      t == Fs(m.n, if b in m.cache then m.cache else m.cache[b := m.disk[b]], m.disk, m.files)
    ensures s.files[f].indirect == 0 ==> NewIndirect(s, t, f) && (EmptyEntries(t, f) ==> Inv(t))
    ensures s.files[f].indirect != 0 ==> SameVisible(s, t) && Inv(t)
    ensures Conservative(m) ==> Conservative(t)
  {
    hide Inv, Owned, SystemInUse;
    ReadKeeps(m, t, m.files[f].indirect);
    forall b ensures (DiskFree(t, b) <==> DiskFree(m, b)) && Content(t, b) == Content(m, b) {
    }
    assert Conservative(m) ==> Conservative(t);
    if s.files[f].indirect == 0 {
      hide Free, DiskFree, Ptr;
      assert NewIndirect(s, t, f);
      if EmptyEntries(t, f) {
        assert forall i :: Holds(m, Entry(f, i)) <==> Holds(t, Entry(f, i));
      }
    }
  }

  lemma NewIndirectKeeps(s: Fs, m: Fs, t: Fs, f: int, b: int)
    requires Inv(s) && Shape(m) && Allocated(s, m, b) && f in s.files && s.files[f].indirect == 0 && b > 0
    requires t == Fs(m.n, m.cache, m.disk, m.files[f := m.files[f].(indirect := b)])
    ensures Shape(t) && NewIndirect(s, t, f) && (EmptyEntries(t, f) ==> Inv(t))
    ensures Conservative(m) ==> Conservative(t)
  {
    AllocatedKeeps(s, m, b);
    forall x ensures Free(t, x) <==> Free(m, x) {
    }
    forall x: Slot | x.f != f || x.Direct? ensures Ptr(t, x) == Ptr(m, x) {
    }
  }

  /** File block k of file f is gone: its pointer is zero and its block, if any, is free. */
  ghost predicate Cleared(s: Fs, t: Fs, f: int, k: int) {
    (forall x :: Ptr(t, x) == if k < NINDIRECT && x == SlotOf(f, k) then 0 else Ptr(s, x)) &&
    (forall b :: Free(t, b) <==> Free(s, b) || (k < NINDIRECT && b != 0 && b == Ptr(s, SlotOf(f, k))))
  }

  /** The pointers of file blocks [from, to) are zero, their blocks are free, all else is as before. */
  ghost predicate ClearedRange(s: Fs, t: Fs, f: int, from: int, to: int) {
    (forall x :: Ptr(t, x) == if InRange(x, f, from, to) then 0 else Ptr(s, x)) &&
    (forall b :: Free(t, b) <==> Free(s, b) || exists x :: InRange(x, f, from, to) && Holds(s, x) && Ptr(s, x) == b)
  }

  /** x is the slot of one of the file blocks [from, to). */
  ghost predicate InRange(x: Slot, f: int, from: int, to: int) {
    match x
    case Direct(g, i) => g == f && 0 <= i < NDIRECT && from <= i < to
    case Entry(g, i) => g == f && NDIRECT <= i < NINDIRECT && from <= i < to
    case Indirect(_) => false
  }

  function Blocks(size: int): int { size / BY2BLK + 1 }
  function KeptBlocks(newsize: int): int { if newsize == 0 then 0 else newsize / BY2BLK + 1 }

  /** What truncation from `old` to `kept` blocks frees: the blocks in that range, and the indirect
      block if only direct pointers remain. */
  ghost predicate Dropped(x: Slot, f: int, kept: int, old_: int) {
    InRange(x, f, kept, old_) || (x == Indirect(f) && kept <= NDIRECT)
  }

  ghost predicate Truncated(s: Fs, t: Fs, f: int, old_: int, kept: int) {
    (forall x: Slot :: x.f != f ==> Ptr(t, x) == Ptr(s, x)) &&
    (forall i :: 0 <= i < kept ==> Ptr(t, SlotOf(f, i)) == Ptr(s, SlotOf(f, i))) &&
    (forall x: Slot :: !x.Indirect? && Holds(t, x) ==> Ptr(t, x) == Ptr(s, x)) &&
    (NoTail(s, f, old_) ==> NoTail(t, f, kept)) &&
    (forall x: Slot :: x.Direct? && !InRange(x, f, kept, old_) ==> Ptr(t, x) == Ptr(s, x)) &&
    (kept > NDIRECT ==> forall x: Slot :: !InRange(x, f, kept, old_) ==> Ptr(t, x) == Ptr(s, x)) &&
    (kept <= NDIRECT ==> Ptr(t, Indirect(f)) == 0) && (kept > NDIRECT ==> Ptr(t, Indirect(f)) == Ptr(s, Indirect(f))) &&
    (forall b :: Free(t, b) <==> Free(s, b) || exists x :: Dropped(x, f, kept, old_) && Holds(s, x) && Ptr(s, x) == b)
  }

  /** The hypothesis on reuse: the block to be allocated next holds no old pointers if it is still mapped.
      By NewIndirectIsEmpty this is exactly when a new indirect block is empty, and by MadeIsOwnedExactly,
      while no block is lost, exactly when ownership survives. */
  ghost predicate AllocReadsZero(s: Fs) {
    forall b :: FirstFree(s, b) && b in s.cache ==> forall i :: NDIRECT <= i < |s.cache[b]| ==> s.cache[b][i] == 0
  }

  /** The walk has to make an indirect block, and the block it will take is cached with entries. */
  ghost predicate Reuses(s: Fs, f: int, filebno: int, alloc: bool) {
    alloc && NDIRECT <= filebno < NINDIRECT && f in s.files && s.files[f].indirect == 0 && !AllocReadsZero(s)
  }

  /** What a cached block b holds where entries are read. */
  ghost function OldWord(s: Fs, b: int, i: int): int {
    if b in s.cache && NDIRECT <= i < NINDIRECT && i < |s.cache[b]| then s.cache[b][i] else 0
  }

  /** File f has an indirect block b now, the first free one. Its entries are the old words of b, but that a
      zero word at file block k may have become a second block; all other pointers are the same, and only
      these blocks have been taken. */
  ghost predicate MadeIndirect(s: Fs, t: Fs, f: int, k: int) {
    Shape(t) && t.n == s.n && t.files.Keys == s.files.Keys && (forall g :: g in s.files ==> t.files[g].size == s.files[g].size) &&
    f in s.files && f in t.files && NDIRECT <= k < NINDIRECT && Ptr(s, Indirect(f)) == 0 &&
    (forall x: Slot :: x.f != f || x.Direct? ==> Ptr(t, x) == Ptr(s, x)) &&
    MadeOf(s, t, f, k, Ptr(t, Indirect(f)), Ptr(t, Entry(f, k)))
  }

  ghost predicate MadeOf(s: Fs, t: Fs, f: int, k: int, b: int, c: int) {
    FirstFree(s, b) && (forall i :: i != k ==> Ptr(t, Entry(f, i)) == OldWord(s, b, i)) &&
    if c == OldWord(s, b, k) then forall x :: Free(t, x) <==> Free(s, x) && x != b
    else OldWord(s, b, k) == 0 && 3 <= c && c != b && Free(s, c) && forall x :: Free(t, x) <==> Free(s, x) && x != b && x != c
  }

  /** The old words name data blocks that are in use and that no pointer holds, and each names another one. */
  ghost predicate Orphans(s: Fs) {
    forall b :: FirstFree(s, b) ==> OrphanWords(s, b)
  }

  ghost predicate OrphanWords(s: Fs, b: int) {
    (forall i :: OldWord(s, b, i) != 0 ==>
      DataBlock(s, OldWord(s, b, i)) && !Free(s, OldWord(s, b, i)) && !HeldBlock(s, OldWord(s, b, i))) &&
    (forall i, j :: OldWord(s, b, i) != 0 && OldWord(s, b, i) == OldWord(s, b, j) ==> i == j)
  }

  /** Growth at file block k: pointers that were set stay, and only the slot of block k and the
      indirect pointer can become set; blocks in use stay in use, and a block taken is held there. */
  ghost predicate OnlyGrows(s: Fs, t: Fs, f: int, k: int) {
    t.n == s.n && t.files.Keys == s.files.Keys && (forall g :: g in s.files ==> t.files[g].size == s.files[g].size) &&
    (forall x :: Holds(s, x) || (x != SlotOf(f, k) && x != Indirect(f)) ==> Ptr(t, x) == Ptr(s, x)) &&
    (forall b :: Free(t, b) ==> Free(s, b)) &&
    (forall b :: Free(s, b) && !Free(t, b) ==> b == Ptr(t, SlotOf(f, k)) || b == Ptr(t, Indirect(f)))
  }

  lemma WalkResult(s: Fs, t: Fs, f: int, k: int, r: int)
    requires Inv(s) && f in s.files
    requires (Inv(t) && SameVisible(s, t)) ||
      (NewIndirect(s, t, f) && s.files[f].indirect == 0 && AllocReadsZero(s) && (EmptyEntries(t, f) ==> Inv(t)))
    ensures Inv(t) && OnlyGrows(s, t, f, k)
    ensures SameVisible(s, t) ==> forall x :: Ptr(t, x) == Ptr(s, x)
  {
    if !(Inv(t) && SameVisible(s, t)) {
      forall i ensures !Holds(t, Entry(f, i)) {
      }
    }
  }

  // A walk that makes an indirect block from a cached one.

  lemma OnlyOneFirst(s: Fs, b: int, k: int)
    requires FirstFree(s, b) && FirstFree(s, k)
    ensures b == k
  {
    assert (k < b ==> !Free(s, k)) && (b < k ==> !Free(s, b));
  }

  lemma WalkFailed(s: Fs, t: Fs, f: int)
    ensures SameVisible(s, t) && f in s.files ==> f in t.files && t.files[f].indirect == s.files[f].indirect
  {
    if SameVisible(s, t) && f in s.files {
      assert f in t.files.Keys && Ptr(t, Indirect(f)) == Ptr(s, Indirect(f));
    }
  }

  lemma Made(s: Fs, t: Fs, f: int, k: int)
    requires Inv(s) && Shape(t) && f in s.files && NewIndirect(s, t, f) && s.files[f].indirect == 0 && NDIRECT <= k < NINDIRECT
    ensures MadeIndirect(s, t, f, k) && t.files[f].indirect != 0
  {
    var b := t.files[f].indirect;
    assert Ptr(s, Indirect(f)) == 0 && Ptr(t, Indirect(f)) == b;
    assert Content(t, b) == if b in s.cache then s.cache[b] else ZeroBlock();
    assert IsBlock(Content(t, b));
    hide Free;
    assert forall i :: Ptr(t, Entry(f, i)) == OldWord(s, b, i);
  }

  /** The indirect blocks after the walk. */
  lemma MadeApart(s: Fs, t: Fs, f: int, k: int)
    requires Inv(s) && MadeIndirect(s, t, f, k)
    ensures IndirectsApart(t) && forall g :: g in t.files && t.files[g].indirect != 0 ==> !Free(t, t.files[g].indirect)
    ensures DataBlock(t, t.files[f].indirect)
  {
    InvKeepsIndirectsApart(s);
    var b := t.files[f].indirect;
    assert Ptr(t, Indirect(f)) == b && Free(s, b) && !Free(t, b);
    forall g | g in t.files && t.files[g].indirect != 0 && g != f
      ensures t.files[g].indirect == s.files[g].indirect != b && !Free(t, t.files[g].indirect)
    {
      assert Ptr(t, Indirect(g)) == Ptr(s, Indirect(g));
      IndirectIsData(s, g);
    }
  }

  lemma MadeFails(s0: Fs, s: Fs, t: Fs, f: int, k: int)
    requires Inv(s0) && MadeIndirect(s0, s, f, k) && Unallocated(s, t) && Shape(t)
    ensures MadeIndirect(s0, t, f, k) && t.files == s.files
  {
    MadeApart(s0, s, f, k);
    BitmapChangeKeepsPtrs(s, t);
    hide Free, Ptr, OldWord;
  }

  lemma MadeReadable(s0: Fs, s: Fs, t: Fs, f: int, k: int, x: Slot, b: int)
    requires Inv(s0) && MadeIndirect(s0, s, f, k) && Readable(s, x) && x == Entry(f, k) && Allocated(s, t, b)
    ensures Readable(t, x)
  {
    MadeApart(s0, s, f, k);
    assert s.files[f].indirect in t.cache.Keys;
  }

  /** An allocation moves no pointer when the indirect blocks are in use. */
  lemma AllocatedMovesNothing(s: Fs, t: Fs, b: int)
    requires Shape(s) && Shape(t) && Allocated(s, t, b) && IndirectsApart(s)
    requires forall g :: g in s.files && s.files[g].indirect != 0 ==> !Free(s, s.files[g].indirect)
    ensures forall x :: Ptr(t, x) == Ptr(s, x)
  {
    forall f | f in s.files && s.files[f].indirect != 0
      ensures Content(t, s.files[f].indirect) == Content(s, s.files[f].indirect)
    {
      var k := s.files[f].indirect;
      assert k in t.cache <==> k in t.cache.Keys;
      assert k in s.disk <==> k in s.disk.Keys;
      assert k in t.disk <==> k in t.disk.Keys;
    }
    hide Free;
    forall x ensures Ptr(t, x) == Ptr(s, x) {
    }
  }

  lemma MadeStores(s0: Fs, s: Fs, m: Fs, t: Fs, f: int, k: int, x: Slot, c: int)
    requires Inv(s0) && MadeIndirect(s0, s, f, k) && Shape(m) && Allocated(s, m, c) && 0 < c < s.n
    requires x == Entry(f, k) && !Holds(s, x) && Readable(m, x) && t == WithPtr(m, x, c)
    ensures MadeIndirect(s0, t, f, k) && Ptr(t, x) == c && (Conservative(m) ==> Conservative(t))
  {
    hide Readable, Conservative;
    MadeApart(s0, s, f, k);
    AllocatedMovesNothing(s, m, c);
    assert IndirectsApart(m);
    StorePtrs(m, t, x, c);
    assert Conservative(m) ==> Conservative(t) by { StoreIsConservative(m, t); }
    hide Ptr, IndirectsApart, Inv, OldWord;
  }

  lemma StoreIsConservative(s: Fs, t: Fs)
    requires forall b :: (Free(t, b) <==> Free(s, b)) && (DiskFree(t, b) <==> DiskFree(s, b))
    ensures Conservative(s) ==> Conservative(t)
  {
    hide Free, DiskFree;
    assert forall b :: DiskFree(t, b) ==> DiskFree(s, b);
  }

  /** Whether ownership survives when an indirect block is made, for every state: it does if and only if
      each old word of the block names another lost block. */
  lemma MadeIsOwnedExactly(s: Fs, t: Fs, f: int, k: int)
    requires Inv(s) && MadeIndirect(s, t, f, k)
    ensures Owned(t) <==> Orphans(s)
    ensures Inv(t) <==> Owned(t)
    ensures NoLeak(s) ==> (Owned(t) <==> AllocReadsZero(s))
  {
    var b := Ptr(t, Indirect(f));
    if Orphans(s) { MadeOwned(s, t, f, k, b); }
    if Owned(t) { OwnedMeansOrphans(s, t, f, k, b); }
    if NoLeak(s) { OrphansAreLost(s); }
  }

  lemma OrphansAreLost(s: Fs)
    requires Shape(s) && NoLeak(s)
    ensures Orphans(s) <==> AllocReadsZero(s)
  {
    if Orphans(s) {
      forall b, i | FirstFree(s, b) && b in s.cache && NDIRECT <= i < |s.cache[b]| ensures s.cache[b][i] == 0 {
        assert OrphanWords(s, b) && OldWord(s, b, i) == s.cache[b][i];
      }
    }
  }

  /** Where a pointer that is set after the walk comes from. */
  ghost predicate Comes(s: Fs, t: Fs, f: int, k: int, b: int, c: int, x: Slot) {
    (Holds(s, x) && Ptr(s, x) == Ptr(t, x)) || (x == Indirect(f) && Ptr(t, x) == b) ||
    (x.Entry? && x.f == f && OldWord(s, b, x.i) != 0 && Ptr(t, x) == OldWord(s, b, x.i)) ||
    (x == Entry(f, k) && Ptr(t, x) == c && c != b && Free(s, c))
  }

  lemma PtrComes(s: Fs, t: Fs, f: int, k: int, x: Slot)
    requires MadeIndirect(s, t, f, k) && Holds(t, x)
    ensures Comes(s, t, f, k, Ptr(t, Indirect(f)), Ptr(t, Entry(f, k)), x)
  {
    hide Free;
  }

  lemma FreeIsData(s: Fs, b: int)
    requires SystemInUse(s) && Free(s, b)
    ensures DataBlock(s, b)
  {}

  lemma FreeIsUnheld(s: Fs, b: int)
    requires Inv(s) && Free(s, b)
    ensures DataBlock(s, b) && forall x :: Holds(s, x) ==> Ptr(s, x) != b
  {
    FreeIsData(s, b);
  }

  lemma MadeOwned(s: Fs, t: Fs, f: int, k: int, b: int)
    requires Inv(s) && MadeIndirect(s, t, f, k) && Orphans(s) && b == Ptr(t, Indirect(f))
    ensures Inv(t)
  {
    var c := Ptr(t, Entry(f, k));
    assert FirstFree(s, b) && OrphanWords(s, b);
    forall x | Holds(t, x) ensures Comes(s, t, f, k, b, c, x) { PtrComes(s, t, f, k, x); }
    FreeIsUnheld(s, b);
    if Free(s, c) { FreeIsUnheld(s, c); }
    MadeInUse(s, t, f, k, b);
    hide Ptr, Free, OldWord, Shape;
    forall x | Holds(t, x) ensures DataBlock(t, Ptr(t, x)) && !Free(t, Ptr(t, x)) {
      assert Comes(s, t, f, k, b, c, x);
    }
    forall x, y | Holds(t, x) && Holds(t, y) && Ptr(t, x) == Ptr(t, y) ensures x == y {
      assert Comes(s, t, f, k, b, c, x) && Comes(s, t, f, k, b, c, y);
    }
  }

  lemma MadeInUse(s: Fs, t: Fs, f: int, k: int, b: int)
    requires MadeIndirect(s, t, f, k) && b == Ptr(t, Indirect(f))
    ensures forall x :: Free(t, x) ==> Free(s, x) && x != b
    ensures Ptr(t, Entry(f, k)) != OldWord(s, b, k) ==> !Free(t, Ptr(t, Entry(f, k)))
    ensures SystemInUse(s) ==> SystemInUse(t)
  {
    hide Ptr, Free, OldWord;
  }

  lemma OwnedMeansOrphans(s: Fs, t: Fs, f: int, k: int, b: int)
    requires Inv(s) && MadeIndirect(s, t, f, k) && Owned(t) && b == Ptr(t, Indirect(f))
    ensures Orphans(s)
  {
    hide Shape;
    var c := Ptr(t, Entry(f, k));
    assert FirstFree(s, b);
    forall i | OldWord(s, b, i) != 0 ensures Ptr(t, Entry(f, i)) == OldWord(s, b, i) {
    }
    assert !Free(s, 0) && b != 0;
    hide Ptr, Free;
    forall i | OldWord(s, b, i) != 0
      ensures DataBlock(s, OldWord(s, b, i)) && !Free(s, OldWord(s, b, i)) && !HeldBlock(s, OldWord(s, b, i))
    {
      var w := OldWord(s, b, i);
      assert Holds(t, Entry(f, i)) && !Free(t, w);
      assert Holds(t, Indirect(f)) && (c != 0 ==> Holds(t, Entry(f, k)));
      assert Free(s, w) ==> w == b || w == c;
      forall x | Holds(s, x) ensures Ptr(s, x) != w {
        HeldStays(s, t, f, k, x);
        assert Holds(t, x);
      }
    }
    forall i, j | OldWord(s, b, i) != 0 && OldWord(s, b, i) == OldWord(s, b, j) ensures i == j {
      assert Holds(t, Entry(f, i)) && Holds(t, Entry(f, j));
    }
    assert OrphanWords(s, b);
    forall a | FirstFree(s, a) ensures OrphanWords(s, a) { OnlyOneFirst(s, a, b); }
  }

  /** What was set is set to the same block, and not among the entries of the file. */
  lemma HeldStays(s: Fs, t: Fs, f: int, k: int, x: Slot)
    requires MadeIndirect(s, t, f, k) && Holds(s, x)
    ensures Ptr(t, x) == Ptr(s, x) && (x.f != f || x.Direct?)
  {}

  lemma StoreKeeps(s: Fs, t: Fs, x: Slot, v: int)
    requires Inv(s) && Readable(s, x) && !x.Indirect? && IsWord(v) && t == WithPtr(s, x, v)
    requires v == 0 || (DataBlock(s, v) && !Free(s, v) && forall y :: Ptr(s, y) != v)
    ensures Inv(t) && forall y :: Ptr(t, y) == if y == x then v else Ptr(s, y)
    ensures forall b :: (Free(t, b) <==> Free(s, b)) && (DiskFree(t, b) <==> DiskFree(s, b))
    ensures t.files.Keys == s.files.Keys && forall g :: g in s.files ==> t.files[g].size == s.files[g].size
  {
    InvKeepsIndirectsApart(s);
    StorePtrs(s, t, x, v);
  }

  /** Indirect blocks are not shared between files and none of them is a bitmap block. */
  ghost predicate IndirectsApart(s: Fs) {
    (forall f :: f in s.files && s.files[f].indirect != 0 ==> !IsBitmapBlock(s.n, s.files[f].indirect)) &&
    (forall f, g :: f in s.files && g in s.files && f != g && s.files[f].indirect != 0 ==>
      s.files[f].indirect != s.files[g].indirect)
  }

  lemma InvKeepsIndirectsApart(s: Fs)
    requires Inv(s)
    ensures IndirectsApart(s)
  {
    forall f | f in s.files && s.files[f].indirect != 0 ensures !IsBitmapBlock(s.n, s.files[f].indirect) {
      IndirectIsData(s, f);
    }
    forall f, g | f in s.files && g in s.files && f != g && s.files[f].indirect != 0
      ensures s.files[f].indirect != s.files[g].indirect
    {
      assert Holds(s, Indirect(f)) && Ptr(s, Indirect(g)) == s.files[g].indirect;
    }
  }

  /** A store changes exactly the pointer it is meant for. */
  lemma StorePtrs(s: Fs, t: Fs, x: Slot, v: int)
    requires Shape(s) && IndirectsApart(s) && Readable(s, x) && !x.Indirect? && IsWord(v) && t == WithPtr(s, x, v)
    ensures forall y :: Ptr(t, y) == if y == x then v else Ptr(s, y)
    ensures forall b :: (Free(t, b) <==> Free(s, b)) && (DiskFree(t, b) <==> DiskFree(s, b))
    ensures Shape(t)
  {}

  lemma ClearedOneMore(s0: Fs, s: Fs, t: Fs, f: int, from: int, k: int)
    requires ClearedRange(s0, s, f, from, k) && Cleared(s, t, f, k) && 0 <= from <= k
    ensures ClearedRange(s0, t, f, from, k + 1)
  {
    forall x ensures InRange(x, f, from, k + 1) <==> InRange(x, f, from, k) || (k < NINDIRECT && x == SlotOf(f, k)) {
    }
    forall b | Free(t, b) && !Free(s0, b)
      ensures exists x :: InRange(x, f, from, k + 1) && Holds(s0, x) && Ptr(s0, x) == b
    {
      if Free(s, b) {
        var x :| InRange(x, f, from, k) && Holds(s0, x) && Ptr(s0, x) == b;
        assert InRange(x, f, from, k + 1);
      } else {
        assert InRange(SlotOf(f, k), f, from, k + 1) && Ptr(s, SlotOf(f, k)) == Ptr(s0, SlotOf(f, k));
        assert Holds(s0, SlotOf(f, k));
      }
    }
    forall b, x | InRange(x, f, from, k + 1) && Holds(s0, x) && Ptr(s0, x) == b ensures Free(t, b) {
      if x == SlotOf(f, k) {
        assert !InRange(x, f, from, k) && Ptr(s, x) == b;
      } else {
        assert InRange(x, f, from, k);
      }
    }
  }

  lemma ClearedRangeEmpty(s: Fs, t: Fs, f: int, from: int, k: int, to: int)
    requires ClearedRange(s, t, f, from, k) && to <= k && (to <= from ==> k == from) && (from < to ==> k == to)
    ensures ClearedRange(s, t, f, from, to)
  {
    forall x ensures InRange(x, f, from, to) <==> InRange(x, f, from, k) {
    }
  }

  lemma GrowFails(s0: Fs, s: Fs, t: Fs, f: int, k: int)
    requires Inv(s) && OnlyGrows(s0, s, f, k) && Shape(t) && Unallocated(s, t)
    ensures Inv(t) && OnlyGrows(s0, t, f, k)
  {
    UnallocatedKeeps(s, t);
  }

  lemma GrowStores(s0: Fs, s: Fs, m: Fs, t: Fs, f: int, k: int, x: Slot, b: int)
    requires Inv(s) && OnlyGrows(s0, s, f, k) && Shape(m) && Allocated(s, m, b) && 0 < b < s.n
    requires x == SlotOf(f, k) && !Holds(s, x) && Readable(m, x) && t == WithPtr(m, x, b) && !Free(s0, 0)
    ensures Inv(t) && OnlyGrows(s0, t, f, k) && Ptr(t, x) == b
    ensures Conservative(m) ==> Conservative(t)
  {
    assert t.n == m.n == s.n;
    hide OnlyGrows, Owned, SystemInUse, WithPtr, Free, DiskFree, Ptr;
    AllocatedKeeps(s, m, b);
    StoreKeeps(m, t, x, b);
    GrowStoresPtrs(s0, s, m, t, f, k, x, b);
  }

  lemma StaysReadable(s: Fs, t: Fs, x: Slot, b: int)
    requires Inv(s) && Shape(t) && Allocated(s, t, b) && Readable(s, x)
    ensures Readable(t, x)
  {
    if x.Entry? {
      IndirectIsData(s, x.f);
      assert s.files[x.f].indirect in t.cache.Keys;
    }
  }

  lemma GrowStoresPtrs(s0: Fs, s: Fs, m: Fs, t: Fs, f: int, k: int, x: Slot, b: int)
    requires OnlyGrows(s0, s, f, k) && x == SlotOf(f, k) && !Holds(s, x) && b != 0 && !Free(s0, 0)
    requires t.n == s.n && m.files == s.files
    requires t.files.Keys == m.files.Keys && forall g :: g in m.files ==> t.files[g].size == m.files[g].size
    requires forall y :: Ptr(t, y) == if y == x then b else Ptr(s, y)
    requires forall y :: Free(t, y) <==> Free(s, y) && y != b
    ensures OnlyGrows(s0, t, f, k)
  {
    hide Ptr, Free;
    forall y | Holds(s0, y) ensures Ptr(t, y) == Ptr(s0, y) {
      assert Ptr(s, y) == Ptr(s0, y);
    }
    forall y | y != SlotOf(f, k) && y != Indirect(f) ensures Ptr(t, y) == Ptr(s0, y) {
    }
    assert Ptr(t, Indirect(f)) == Ptr(s, Indirect(f));
  }

  lemma ClearKeeps(s: Fs, m: Fs, t: Fs, x: Slot, v: int)
    requires Inv(s) && Shape(m) && SameButBitmap(s, m) && Readable(m, x) && Holds(s, x) && v == Ptr(s, x) && !x.Indirect?
    requires forall b :: Free(m, b) <==> Free(s, b) || b == v
    requires t == WithPtr(m, x, 0)
    ensures Inv(t) && (forall y :: Ptr(t, y) == if y == x then 0 else Ptr(s, y))
    ensures forall b :: Free(t, b) <==> Free(s, b) || b == v
    ensures t.files.Keys == s.files.Keys && forall g :: g in s.files ==> t.files[g].size == s.files[g].size
  {
    PtrsKept(s, m);
    InvKeepsIndirectsApart(s);
    StorePtrs(m, t, x, 0);
    assert DataBlock(s, v);
  }

  /** File f has no indirect block any more; the block it had is free. */
  ghost predicate IndirectDropped(s: Fs, t: Fs, f: int) {
    (forall x: Slot :: Ptr(t, x) == if x.f == f && !x.Direct? then 0 else Ptr(s, x)) &&
    (forall b :: Free(t, b) <==> Free(s, b) || (b != 0 && b == Ptr(s, Indirect(f))))
  }

  lemma DropIndirectKeeps(s: Fs, m: Fs, t: Fs, f: int, b: int)
    requires Inv(s) && f in s.files && s.files[f].indirect == b && b != 0
    requires Shape(m) && SameButBitmap(s, m) && forall x :: Free(m, x) <==> Free(s, x) || x == b
    requires t == Fs(m.n, m.cache, m.disk, m.files[f := m.files[f].(indirect := 0)])
    ensures Inv(t) && IndirectDropped(s, t, f)
  {
    PtrsKept(s, m);
    IndirectIsData(s, f);
    assert Ptr(s, Indirect(f)) == b;
    forall x: Slot ensures Ptr(t, x) == if x.f == f && !x.Direct? then 0 else Ptr(m, x) {
    }
    forall x ensures Free(t, x) <==> Free(m, x) {
    }
    forall x: Slot | Holds(t, x) ensures DataBlock(t, Ptr(t, x)) && !Free(t, Ptr(t, x)) {
      assert Holds(s, x);
      assert x != Indirect(f);
    }
  }

  lemma ResizeKeeps(s: Fs, t: Fs, f: int, newsize: int)
    requires Inv(s) && f in s.files && 0 <= newsize < WORD
    requires t == Fs(s.n, s.cache, s.disk, s.files[f := s.files[f].(size := newsize)])
    ensures Inv(t) && (forall x :: Ptr(t, x) == Ptr(s, x)) && (forall b :: Free(t, b) <==> Free(s, b))
  {
    forall x ensures Ptr(t, x) == Ptr(s, x) {
    }
    forall b ensures Free(t, b) <==> Free(s, b) {
    }
  }

  lemma NothingToDrop(s: Fs, f: int)
    requires f in s.files && s.files[f].indirect == 0
    ensures IndirectDropped(s, s, f)
  {}

  lemma TruncateDone(s: Fs, m: Fs, d: Fs, t: Fs, f: int, old_: int, kept: int)
    requires ClearedRange(s, m, f, kept, old_) && 0 <= kept
    requires if kept <= NDIRECT then IndirectDropped(m, d, f) else d == m
    requires (forall x :: Ptr(t, x) == Ptr(d, x)) && (forall b :: Free(t, b) <==> Free(d, b))
    ensures Truncated(s, t, f, old_, kept)
  {
    forall b | Free(t, b) && !Free(s, b)
      ensures exists x :: Dropped(x, f, kept, old_) && Holds(s, x) && Ptr(s, x) == b
    {
      if Free(m, b) {
        var x :| InRange(x, f, kept, old_) && Holds(s, x) && Ptr(s, x) == b;
        assert Dropped(x, f, kept, old_);
      } else {
        assert Dropped(Indirect(f), f, kept, old_) && Ptr(m, Indirect(f)) == Ptr(s, Indirect(f));
        assert Holds(s, Indirect(f));
      }
    }
    forall b, x | Dropped(x, f, kept, old_) && Holds(s, x) && Ptr(s, x) == b ensures Free(t, b) {
      if InRange(x, f, kept, old_) { assert Free(m, b); } else { assert Ptr(m, x) == b; }
    }
    if NoTail(s, f, old_) {
      forall i | kept <= i && 0 <= i < NINDIRECT ensures !Holds(t, SlotOf(f, i)) {
        assert i < old_ ==> InRange(SlotOf(f, i), f, kept, old_);
        assert i >= old_ ==> !Holds(s, SlotOf(f, i));
      }
    }
  }

  /** The hypotheses on a disk before its bitmap is read. */
  ghost predicate DiskShape(s: Fs) {
    0 < s.n <= DISKMAX_BLOCKS &&
    (forall b :: 0 <= b < s.n || IsBitmapBlock(s.n, b) ==> b in s.disk) &&
    (forall b :: b in s.cache ==> IsBlock(s.cache[b])) &&
    (forall b :: b in s.disk ==> IsBlock(s.disk[b])) &&
    (forall f :: f in s.files ==> |s.files[f].direct| == NDIRECT && 0 <= s.files[f].size < WORD)
  }

  lemma BitmapLoaded(s: Fs, t: Fs)
    requires DiskShape(s) && Shape(t) && forall b :: IsBitmapBlock(s.n, b) ==> b !in s.cache
    requires t.n == s.n && t.disk == s.disk && t.files == s.files
    requires forall b :: b in t.cache <==> b in s.cache || IsBitmapBlock(s.n, b)
    requires forall b :: b in t.cache ==> t.cache[b] == if IsBitmapBlock(s.n, b) then s.disk[b] else s.cache[b]
    ensures forall b :: Free(t, b) <==> DiskFree(t, b)
    ensures forall b :: DiskFree(t, b) <==> DiskFree(s, b)
    ensures forall x :: Ptr(t, x) == Ptr(s, x)
  {
    forall b | 0 <= b < s.n ensures BitOf(t.cache, b) <==> BitOf(t.disk, b) {
      BitmapIndex(s.n, b);
    }
    forall b ensures Content(t, b) == Content(s, b) {
    }
    forall x ensures Ptr(t, x) == Ptr(s, x) {
    }
  }

  lemma FreeingStaysConservative(s: Fs, t: Fs, f: int, old_: int, kept: int)
    requires Truncated(s, t, f, old_, kept) && t.disk == s.disk && t.n == s.n
    ensures Conservative(s) ==> Conservative(t)
  {
    forall b ensures DiskFree(t, b) <==> DiskFree(s, b) {
    }
  }

  lemma SyncStaysConservative(s: Fs, t: Fs)
    requires Shape(s) && Shape(t) && t.n == s.n && t.cache == s.cache
    requires forall b :: b in t.disk ==> b in s.disk && (t.disk[b] == s.disk[b] || (b in s.cache && t.disk[b] == s.cache[b]))
    ensures Conservative(s) ==> Conservative(t)
  {
    if Conservative(s) {
      forall b | DiskFree(t, b) ensures Free(t, b) {
        BitmapIndex(s.n, b);
        assert DiskFree(s, b) || Free(s, b);
        assert Free(t, b) <==> Free(s, b);
      }
    }
  }

  /** Truncation in bytes: a block that begins before the new size or at it is kept, and a block that begins behind
      the new size and not behind the old one is cleared and free. With size zero nothing is kept. */
  lemma TruncationInBytes(s: Fs, t: Fs, f: int, oldsize: int, newsize: int, k: int)
    requires Truncated(s, t, f, Blocks(oldsize), KeptBlocks(newsize)) && Inv(t) && 0 <= newsize && 0 <= k < NINDIRECT
    ensures newsize > 0 && k * BY2BLK <= newsize ==> Ptr(t, SlotOf(f, k)) == Ptr(s, SlotOf(f, k))
    ensures (newsize == 0 || newsize < k * BY2BLK) && k * BY2BLK <= oldsize ==>
      !Holds(t, SlotOf(f, k)) && (Holds(s, SlotOf(f, k)) ==> Free(t, Ptr(s, SlotOf(f, k))))
  {
    var old_, kept, x := Blocks(oldsize), KeptBlocks(newsize), SlotOf(f, k);
    assert newsize > 0 && k * BY2BLK <= newsize ==> k < kept;
    if (newsize == 0 || newsize < k * BY2BLK) && k * BY2BLK <= oldsize {
      assert kept <= k < old_ && Dropped(x, f, kept, old_);
      if Holds(s, x) { assert Free(t, Ptr(s, x)); }
    }
  }

  lemma TruncatedIsCovered(s: Fs, t: Fs, f: int, old_: int, kept: int, blocks: int)
    requires Truncated(s, t, f, old_, kept) && f in s.files && f in t.files && kept <= blocks
    requires old_ == Blocks(s.files[f].size) && blocks == Blocks(t.files[f].size)
    ensures Covered(s, f) ==> Covered(t, f)
  {
  }

  lemma GrownIsCovered(s: Fs, t: Fs, f: int, newsize: int)
    requires Inv(s) && f in s.files && s.files[f].size <= newsize < WORD
    requires t == Fs(s.n, s.cache, s.disk, s.files[f := s.files[f].(size := newsize)])
    ensures Inv(t) && (forall x :: Ptr(t, x) == Ptr(s, x)) && (forall b :: Free(t, b) <==> Free(s, b))
    ensures Covered(s, f) ==> Covered(t, f)
    ensures Conservative(s) ==> Conservative(t)
  {
    ResizeKeeps(s, t, f, newsize);
    forall b ensures DiskFree(t, b) <==> DiskFree(s, b) {
    }
  }

  /** Truncation loses no block if and only if it keeps the indirect block, or no entry of it is set
      beyond the blocks that are cleared one by one. */
  lemma TruncationLeaksExactly(s: Fs, t: Fs, f: int, old_: int, kept: int)
    requires Inv(s) && t.n == s.n && Truncated(s, t, f, old_, kept) && 0 <= kept <= old_ && NoLeak(s)
    ensures NoLeak(t) <==> (kept <= NDIRECT ==> NoStrayEntry(s, f, old_))
  {
    if kept <= NDIRECT && !NoStrayEntry(s, f, old_) {
      var i :| old_ <= i && NDIRECT <= i < NINDIRECT && Holds(s, Entry(f, i));
      StrayEntryIsLost(s, t, f, i, old_, kept);
    } else {
      forall b | DataBlock(t, b) && !Free(t, b) ensures HeldBlock(t, b) {
        assert HeldBlock(s, b);
        var x :| Holds(s, x) && Ptr(s, x) == b;
        assert !Dropped(x, f, kept, old_);
        KeptSlot(s, t, x, f, old_, kept);
        assert Holds(t, x);
      }
    }
  }

  ghost predicate NoStrayEntry(s: Fs, f: int, old_: int) {
    forall i :: old_ <= i && NDIRECT <= i < NINDIRECT ==> !Holds(s, Entry(f, i))
  }

  lemma KeptSlot(s: Fs, t: Fs, x: Slot, f: int, old_: int, kept: int)
    requires Shape(s) && Truncated(s, t, f, old_, kept) && 0 <= kept <= old_ && (kept <= NDIRECT ==> NoStrayEntry(s, f, old_))
    requires Holds(s, x) && !Dropped(x, f, kept, old_)
    ensures Ptr(t, x) == Ptr(s, x)
  {
    assert x.f == f && x.Entry? ==> x == SlotOf(f, x.i);
  }

  /** The block of an entry beyond the cleared ones stays in use, and no pointer holds it any more. */
  lemma StrayEntryIsLost(s: Fs, t: Fs, f: int, i: int, old_: int, kept: int)
    requires Inv(s) && t.n == s.n && Truncated(s, t, f, old_, kept) && kept <= NDIRECT && old_ <= i && NDIRECT <= i < NINDIRECT
    requires Holds(s, Entry(f, i))
    ensures var b := Ptr(s, Entry(f, i)); DataBlock(t, b) && !Free(t, b) && !HeldBlock(t, b)
    ensures !NoLeak(t)
  {
    var b := Ptr(s, Entry(f, i));
    assert !Dropped(Entry(f, i), f, kept, old_);
    assert DataBlock(s, b) && !Free(s, b);
    if HeldBlock(t, b) {
      var x :| Holds(t, x) && Ptr(t, x) == b;
      LeftOver(s, t, x, f, old_, kept);
      assert false;
    }
  }

  /** What is still set after truncation was set to the same block before, and is no entry of the file
      when the indirect block is gone. */
  lemma LeftOver(s: Fs, t: Fs, x: Slot, f: int, old_: int, kept: int)
    requires Truncated(s, t, f, old_, kept) && kept <= NDIRECT && Holds(t, x)
    ensures Ptr(t, x) == Ptr(s, x) && !(x.Entry? && x.f == f)
  {
    assert Ptr(t, Indirect(f)) == 0;
  }

  /** A walk that grows the file loses no block, whatever it returns. */
  lemma GrowthLeaksNothing(s: Fs, t: Fs, f: int, k: int)
    requires Inv(s) && Inv(t) && OnlyGrows(s, t, f, k) && NoLeak(s)
    ensures NoLeak(t)
  {
    forall b | DataBlock(t, b) && !Free(t, b) ensures HeldBlock(t, b) {
      if Free(s, b) {
        assert Holds(t, SlotOf(f, k)) || Holds(t, Indirect(f));
      } else {
        assert HeldBlock(s, b);
        var x :| Holds(s, x) && Ptr(s, x) == b;
        assert Ptr(t, x) == b;
      }
    }
  }

  // ---------- reuse of cached blocks ----------

  /** A new indirect block is empty if and only if the first free block is not cached, or its cached
      contents are zero where entries are read. */
  lemma NewIndirectIsEmpty(s: Fs, t: Fs, f: int, b: int)
    requires Shape(s) && Shape(t) && f in s.files && s.files[f].indirect == 0 && NewIndirect(s, t, f)
    requires FirstFree(s, b)
    ensures EmptyEntries(t, f) <==> (b in s.cache ==> forall i :: NDIRECT <= i < NINDIRECT ==> s.cache[b][i] == 0)
  {
    var k := t.files[f].indirect;
    assert k == b by {
      assert FirstFree(s, k) && (k < b ==> !Free(s, k)) && (b < k ==> !Free(s, b));
    }
    forall i | NDIRECT <= i < NINDIRECT ensures Ptr(t, Entry(f, i)) == Content(t, b)[i] {
    }
    if EmptyEntries(t, f) && b in s.cache {
      forall i | NDIRECT <= i < NINDIRECT ensures s.cache[b][i] == 0 {
        assert !Holds(t, Entry(f, i));
      }
    }
  }

  function StaleOnDisk(b: int): Block {
    if b == 2 then ZeroBlock()[0 := SetBit(0, 5)] else ZeroBlock()
  }

  /** Block 5 of 16 is free and still cached; its old contents name block 4 as entry 10. */
  ghost function StaleState(): Fs {
    var bits := ZeroBlock()[0 := SetBit(0, 5)];
    var file0 := File(0, seq(NDIRECT, _ => 0), 0);
    var file1 := File(BY2BLK - 1, seq(NDIRECT, i => if i == 0 then 4 else 0), 0);
    Fs(16, map[2 := bits, 5 := ZeroBlock()[NDIRECT := 4]], map b | 0 <= b < 16 :: StaleOnDisk(b),
       map[0 := file0, 1 := file1])
  }

  /** After the allocation of an indirect block for file 0. */
  ghost function StaleReused(): Fs {
    var s := StaleState();
    Fs(16, s.cache[2 := ZeroBlock()], s.disk[2 := ZeroBlock()], s.files[0 := s.files[0].(indirect := 5)])
  }

  lemma StaleBits(b: int)
    ensures Free(StaleState(), b) <==> b == 5
    ensures !Free(StaleReused(), b)
  {
    if 0 <= b < 16 {
      SetBitIs(0, 5, b);
      ZeroHasNoBits(b);
      ZeroHasNoBits(b % 32);
      assert BitmapBlock(b) == 2 && BitmapWord(b) == 0 && b % 32 == b;
    }
  }

  lemma StaleShape()
    ensures Shape(StaleState()) && NBitmap(16) == 1
  {
    WordBits(0, 5);
  }

  lemma StalePtrs()
    ensures forall x :: Ptr(StaleState(), x) == if x == Direct(1, 0) then 4 else 0
    ensures Ptr(StaleReused(), Entry(0, NDIRECT)) == Ptr(StaleReused(), Direct(1, 0)) == 4
    ensures Ptr(StaleReused(), Indirect(0)) == 5
    ensures forall x: Slot :: x.f != 0 || x.Direct? ==> Ptr(StaleReused(), x) == Ptr(StaleState(), x)
  {}

  /** An input for which Orphans fails: after the reuse file 0 and file 1 both name block 4. */
  lemma StaleBlockIsShared()
    ensures Inv(StaleState()) && NewIndirect(StaleState(), StaleReused(), 0)
    ensures Ptr(StaleReused(), Entry(0, NDIRECT)) == Ptr(StaleReused(), Direct(1, 0)) == 4
    ensures !Orphans(StaleState()) && !Owned(StaleReused())
  {
    StaleIsOwned();
    StaleIsNew();
    StaleIsHeld();
    StalePtrs();
    hide Free, Ptr, StaleState, StaleReused, Content, Shape, NewIndirect;
    assert Holds(StaleReused(), Entry(0, NDIRECT)) && Holds(StaleReused(), Direct(1, 0));
    assert FirstFree(StaleState(), 5) by { StaleFirst(); }
  }

  lemma StaleFirst()
    ensures FirstFree(StaleState(), 5) && forall b :: Free(StaleReused(), b) <==> Free(StaleState(), b) && b != 5
  {
    forall b ensures (Free(StaleState(), b) <==> b == 5) && !Free(StaleReused(), b) { StaleBits(b); }
    hide Free, StaleState, StaleReused;
  }

  lemma StaleIsOwned()
    ensures Inv(StaleState())
  {
    StaleShape();
    StalePtrs();
    forall b ensures Free(StaleState(), b) <==> b == 5 { StaleBits(b); }
    assert StaleState().n == 16;
    hide Free, Ptr, StaleState, Shape;
  }

  lemma StaleIsNew()
    ensures NewIndirect(StaleState(), StaleReused(), 0)
  {
    var s, t := StaleState(), StaleReused();
    StalePtrs();
    StaleFirst();
    assert s.files.Keys == {0, 1} && t.files.Keys == {0, 1} && s.n == t.n == 16;
    assert forall g :: g in s.files ==> t.files[g].size == s.files[g].size;
    assert Content(t, 5) == s.cache[5] && 5 in s.cache && t.files[0].indirect == 5;
    hide Free, Ptr, StaleState, StaleReused, Content;
  }

  lemma StaleIsHeld()
    ensures !OrphanWords(StaleState(), 5)
  {
    StalePtrs();
    assert Holds(StaleState(), Direct(1, 0)) && OldWord(StaleState(), 5, NDIRECT) == 4;
  }
}
