/** The block layer of the file server (fs/fs.c) as a value: cached and on-disk blocks, the free-block
    bitmap inside them, the files' block pointers, and who holds which block. */
module FsModel {
  import opened Words

  const BY2BLK := 4096
  const BIT2BLK := 32768
  const NDIRECT := 10
  const NINDIRECT := 1024
  const DISKMAX_BLOCKS := 262144

  const E_INVAL := 3
  const E_NO_MEM := 4
  const E_NO_DISK := 8
  const E_NOT_FOUND := 10

  /** A block of 1024 words. */
  type Block = seq<int>

  datatype File = File(size: int, direct: seq<int>, indirect: int)

  /** `n` is super->s_nblocks. `cache` holds the mapped blocks, `disk` the blocks on disk. */
  datatype Fs = Fs(n: int, cache: map<int, Block>, disk: map<int, Block>, files: map<int, File>)

  ghost predicate IsBlock(b: Block) {
    |b| == 1024 && forall i :: 0 <= i < 1024 ==> IsWord(b[i])
  }

  function ZeroBlock(): (z: Block)
    ensures IsBlock(z) && forall i :: 0 <= i < 1024 ==> z[i] == 0
  {
    seq(1024, _ => 0)
  }

  /** The number of bitmap blocks; they are blocks 2, 3, ... */
  function NBitmap(n: int): int { n / BIT2BLK + 1 }

  function BitmapBlock(b: int): int { b / BIT2BLK + 2 }
  function BitmapWord(b: int): int { b % BIT2BLK / 32 }

  predicate IsBitmapBlock(n: int, b: int) { 2 <= b < 2 + NBitmap(n) }

  ghost predicate Shape(s: Fs) {
    0 < s.n <= DISKMAX_BLOCKS &&
    (forall b :: IsBitmapBlock(s.n, b) ==> b in s.cache) &&
    (forall b :: 0 <= b < s.n || IsBitmapBlock(s.n, b) ==> b in s.disk) &&
    (forall b :: b in s.cache ==> IsBlock(s.cache[b])) &&
    (forall b :: b in s.disk ==> IsBlock(s.disk[b])) &&
    (forall f :: f in s.files ==> |s.files[f].direct| == NDIRECT && 0 <= s.files[f].size < WORD)
  }

  /** The bit of block `b` in a set of bitmap blocks. */
  ghost predicate BitOf(blocks: map<int, Block>, b: int) {
    BitmapBlock(b) in blocks && 0 <= BitmapWord(b) < |blocks[BitmapBlock(b)]| && 0 <= b &&
    TestBit(blocks[BitmapBlock(b)][BitmapWord(b)], b % 32)
  }

  /** `block_is_free`, and the same bit as it is on disk. */
  ghost predicate Free(s: Fs, b: int) { 0 <= b < s.n && BitOf(s.cache, b) }

  ghost predicate DiskFree(s: Fs, b: int) { 0 <= b < s.n && BitOf(s.disk, b) }

  /** What a read of block `b` sees. */
  ghost function Content(s: Fs, b: int): Block {
    if b in s.cache then s.cache[b] else if b in s.disk then s.disk[b] else ZeroBlock()
  }

  // ---------- block pointers ----------

  /** A place that can hold a block number: f_direct[i], f_indirect, or entry i of the indirect block. */
  datatype Slot =
    | Direct(f: int, i: int)
    | Indirect(f: int)
    | Entry(f: int, i: int)

  ghost function Ptr(s: Fs, x: Slot): int {
    if x.f !in s.files then 0
    else
      match x
      case Direct(f, i) => if 0 <= i < |s.files[f].direct| then s.files[f].direct[i] else 0
      case Indirect(f) => s.files[f].indirect
      case Entry(f, i) =>
        if s.files[f].indirect != 0 && NDIRECT <= i < NINDIRECT && |Content(s, s.files[f].indirect)| == NINDIRECT
        then Content(s, s.files[f].indirect)[i] else 0
  }

  /** The slot of the filebno'th block of a file. */
  function SlotOf(f: int, filebno: int): Slot {
    if filebno < NDIRECT then Direct(f, filebno) else Entry(f, filebno)
  }

  /** A block that a file may hold: on the disk and behind the boot, super and bitmap blocks. */
  ghost predicate DataBlock(s: Fs, b: int) { 2 + NBitmap(s.n) <= b < s.n }

  ghost predicate Holds(s: Fs, x: Slot) { Ptr(s, x) != 0 }

  /** Every nonzero pointer names an in-use data block, and no two pointers name the same block. */
  ghost predicate Owned(s: Fs) {
    (forall x :: Holds(s, x) ==> DataBlock(s, Ptr(s, x)) && !Free(s, Ptr(s, x))) &&
    (forall x, y :: Holds(s, x) && Holds(s, y) && Ptr(s, x) == Ptr(s, y) ==> x == y)
  }

  ghost predicate SystemInUse(s: Fs) {
    forall b :: 0 <= b < 2 + NBitmap(s.n) ==> !Free(s, b)
  }

  ghost predicate Inv(s: Fs) {
    Shape(s) && SystemInUse(s) && Owned(s)
  }

  /** A block that is in use in memory is in use on disk. */
  ghost predicate Conservative(s: Fs) {
    forall b :: DiskFree(s, b) ==> Free(s, b)
  }

  /** No slot is set from file block `k` on. */
  ghost predicate NoTail(s: Fs, f: int, k: int) {
    forall i :: k <= i && 0 <= i < NINDIRECT ==> !Holds(s, SlotOf(f, i))
  }

  /** File f has no pointer beyond its size. */
  ghost predicate Covered(s: Fs, f: int) {
    f in s.files && NoTail(s, f, s.files[f].size / BY2BLK + 1)
  }

  /** No block is lost: what is in use behind the bitmap is held by a pointer. */
  ghost predicate NoLeak(s: Fs) {
    forall b :: DataBlock(s, b) && !Free(s, b) ==> HeldBlock(s, b)
  }

  ghost predicate HeldBlock(s: Fs, b: int) {
    exists x :: Holds(s, x) && Ptr(s, x) == b
  }

  // ---------- steps ----------

  /** Nothing but bitmap bits in memory and on disk differs. */
  ghost predicate SameButBitmap(s: Fs, t: Fs) {
    t.n == s.n && t.files == s.files && t.cache.Keys == s.cache.Keys && t.disk.Keys == s.disk.Keys &&
    (forall b :: b in s.cache && !IsBitmapBlock(s.n, b) ==> t.cache[b] == s.cache[b]) &&
    (forall b :: b in s.disk && !IsBitmapBlock(s.n, b) ==> t.disk[b] == s.disk[b])
  }

  lemma BitmapIndex(n: int, b: int)
    requires 0 <= b < n
    ensures IsBitmapBlock(n, BitmapBlock(b)) && 0 <= BitmapWord(b) < 1024 && 0 <= b % 32 < 32
  {}

  /** The bitmap is one string of bits from block 2 on, 32768 to a block and 32 to a word, in the order of the
      block numbers. */
  lemma BitmapOrder(b: int)
    requires 0 <= b
    ensures 0x8000 * (BitmapBlock(b) - 2) + 32 * BitmapWord(b) + b % 32 == b
    ensures 2 <= BitmapBlock(b) && 0 <= BitmapWord(b) < 1024
  {
    var x := b % BIT2BLK;
    assert x % 32 == b % 32 && x == x / 32 * 32 + x % 32;
  }

  /** The first ten blocks of a file stand in the file structure, the others in its indirect block, at their
      own number. */
  lemma BlockNumberOf(s: Fs, f: int, i: int)
    requires Shape(s) && f in s.files && 0 <= i < 1024
    ensures |s.files[f].direct| == 10 && |Content(s, s.files[f].indirect)| == 1024
    ensures Ptr(s, SlotOf(f, i)) ==
      if i < 10 then s.files[f].direct[i] else if s.files[f].indirect == 0 then 0 else Content(s, s.files[f].indirect)[i]
  {}

  /** Two blocks share word and bit only if they are the same block. */
  lemma BitmapInjective(a: int, b: int)
    requires 0 <= a && 0 <= b
    requires BitmapBlock(a) == BitmapBlock(b) && BitmapWord(a) == BitmapWord(b) && a % 32 == b % 32
    ensures a == b
  {
    hide BitmapBlock, BitmapWord;
    BitmapOrder(a);
    BitmapOrder(b);
  }

  /** Changing one word of one bitmap block, in memory. */
  ghost function WithWord(blocks: map<int, Block>, b: int, w: int): map<int, Block>
    requires BitmapBlock(b) in blocks && 0 <= BitmapWord(b) < |blocks[BitmapBlock(b)]|
  {
    blocks[BitmapBlock(b) := blocks[BitmapBlock(b)][BitmapWord(b) := w]]
  }

  lemma SetBitOf(blocks: map<int, Block>, b: int, x: int, on: bool)
    requires 0 <= b && 0 <= x && BitmapBlock(b) in blocks && |blocks[BitmapBlock(b)]| == 1024
    requires 0 <= BitmapWord(b) < 1024
    ensures var w := blocks[BitmapBlock(b)][BitmapWord(b)];
            BitOf(WithWord(blocks, b, if on then SetBit(w, b % 32) else ClearBit(w, b % 32)), x) <==>
              (if x == b then on else BitOf(blocks, x))
  {
    var w := blocks[BitmapBlock(b)][BitmapWord(b)];
    if BitmapBlock(x) == BitmapBlock(b) && BitmapWord(x) == BitmapWord(b) {
      SetBitIs(w, b % 32, x % 32);
      ClearBitIs(w, b % 32, x % 32);
      if x % 32 == b % 32 { BitmapInjective(x, b); }
    }
  }

  /** Bitmap changes move no pointer. */
  lemma BitmapChangeKeepsPtrs(s: Fs, t: Fs)
    requires Shape(s) && SameButBitmap(s, t)
    requires forall f :: f in s.files && s.files[f].indirect != 0 ==> !IsBitmapBlock(s.n, s.files[f].indirect)
    ensures forall x :: Ptr(t, x) == Ptr(s, x)
  {
    forall f | f in s.files && s.files[f].indirect != 0
      ensures Content(t, s.files[f].indirect) == Content(s, s.files[f].indirect)
    {
      assert s.files[f].indirect in s.cache <==> s.files[f].indirect in s.cache.Keys;
      assert s.files[f].indirect in t.cache <==> s.files[f].indirect in t.cache.Keys;
      assert s.files[f].indirect in s.disk <==> s.files[f].indirect in s.disk.Keys;
      assert s.files[f].indirect in t.disk <==> s.files[f].indirect in t.disk.Keys;
    }
  }

  lemma IndirectIsData(s: Fs, f: int)
    requires Inv(s) && f in s.files && s.files[f].indirect != 0
    ensures DataBlock(s, s.files[f].indirect) && !Free(s, s.files[f].indirect)
    ensures !IsBitmapBlock(s.n, s.files[f].indirect)
  {
    assert Holds(s, Indirect(f));
  }

  lemma PtrsKept(s: Fs, t: Fs)
    requires Inv(s) && SameButBitmap(s, t)
    ensures forall x :: Ptr(t, x) == Ptr(s, x)
  {
    forall f | f in s.files && s.files[f].indirect != 0 ensures !IsBitmapBlock(s.n, s.files[f].indirect) {
      IndirectIsData(s, f);
    }
    BitmapChangeKeepsPtrs(s, t);
  }
}
