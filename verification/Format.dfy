/** Making an empty file system on a device, and opening the file system of a device. */
module Format {
  import opened Words
  import opened Blocks
  import opened Codec
  import opened DiskState
  import opened DiskFs
  import opened Directory
  import opened Dirents
  import Bits
  import Bcache

  const DISKFS_MAGIC: word := 0xabcd4321
  const INODE_BLOCKS: nat := 28
  const SUPERBLOCK_SIZE: nat := 32

  /** The superblock that describes a layout. */
  function EncodeSuperblock(l: Layout): block {
    PutSlot(ZeroBlock(), SUPERBLOCK_SIZE, 0,
            EncodeWords([DISKFS_MAGIC, BLOCK_SIZE, l.inodeStart, l.inodeBlocks, l.bitmapStart, l.bitmapBlocks,
                         l.dataStart, l.dataBlocks]))
  }

  function DecodeMagic(b: block): word {
    DecodeWords(Slot(b, SUPERBLOCK_SIZE, 0), 8)[0]
  }

  function DecodeLayout(b: block): Layout {
    var ws := DecodeWords(Slot(b, SUPERBLOCK_SIZE, 0), 8);
    Layout(ws[2], ws[3], ws[4], ws[5], ws[6], ws[7])
  }

  lemma SuperblockRoundTrip(l: Layout)
    ensures DecodeMagic(EncodeSuperblock(l)) == DISKFS_MAGIC && DecodeLayout(EncodeSuperblock(l)) == l
  {
    var ws: seq<word> := [DISKFS_MAGIC, BLOCK_SIZE, l.inodeStart, l.inodeBlocks, l.bitmapStart, l.bitmapBlocks,
                          l.dataStart, l.dataBlocks];
    SlotPut(ZeroBlock(), SUPERBLOCK_SIZE, 0, EncodeWords(ws), 0);
    WordsRoundTrip(ws);
  }

  /** The fields of a superblock are the first words of its block. */
  lemma SuperblockBytes(b: block)
    ensures var l := DecodeLayout(b);
            && DecodeMagic(b) == WordAt(b, 0)
            && l.inodeStart == WordAt(b, 8) && l.inodeBlocks == WordAt(b, 12) && l.bitmapStart == WordAt(b, 16)
            && l.bitmapBlocks == WordAt(b, 20) && l.dataStart == WordAt(b, 24) && l.dataBlocks == WordAt(b, 28)
    ensures DecodeMagic(b) == DISKFS_MAGIC <==> b[..4] == [0x21, 0x43, 0xcd, 0xab]
  {
    var s := Slot(b, SUPERBLOCK_SIZE, 0);
    forall i: nat | i < 8 ensures DecodeWords(s, 8)[i] == WordAt(b, 4 * i) {
      WordsAt(s, 8, i);
      SlotAt(b, SUPERBLOCK_SIZE, 0, 4 * i, 4 * i);
    }
    MagicBytes(b);
  }

  lemma MagicBytes(b: block)
    ensures WordAt(b, 0) == 0xabcd4321 <==> b[..4] == [0x21, 0x43, 0xcd, 0xab]
  {
    if WordAt(b, 0) == 0xabcd4321 {
      var r, t, u, v := b[0] as int, b[1] as int, b[2] as int, b[3] as int;
      assert r + 0x100 * (t + 0x100 * (u + 0x100 * v)) == 0x21 + 0x100 * (0x43 + 0x100 * (0xcd + 0x100 * 0xab));
      assert r == 0x21;
      assert t == 0x43;
      assert u == 0xcd;
    }
  }

  /** How format divides a device. */
  function FormatLayout(nblocks: nat): Layout
    requires 31 <= nblocks < 0x8000_0000
  {
    var remaining := nblocks - INODE_BLOCKS;
    var bitmapBlocks := 1 + remaining / BITS_PER_BLOCK;
    Layout(1, INODE_BLOCKS, 1 + INODE_BLOCKS, bitmapBlocks, 1 + INODE_BLOCKS + bitmapBlocks, remaining - bitmapBlocks)
  }

  /** A formatted volume gives each data block a bit of its own exactly when the device has fewer
      than 32796 blocks. */
  lemma FormatNumbering(nblocks: nat)
    requires 31 <= nblocks < 0x8000_0000
    ensures LayoutOk(FormatLayout(nblocks)) <==> nblocks < INODE_BLOCKS + BITS_PER_BLOCK
  {
    var remaining := nblocks - INODE_BLOCKS;
    if remaining < BITS_PER_BLOCK {
      assert remaining / BITS_PER_BLOCK == 0;
    } else {
      assert remaining / BITS_PER_BLOCK >= 1;
    }
  }

  /** The data region ends one block past the end of the device: the superblock is not counted. */
  lemma FormatEnd(nblocks: nat, k: nat)
    requires 31 <= nblocks < 0x8000_0000 && k < FormatLayout(nblocks).dataBlocks
    ensures FormatLayout(nblocks).dataStart + k < nblocks <==> k < FormatLayout(nblocks).dataBlocks - 1
  {
  }

  const ROOT_INODE := Inode(1, 32, [1, 0, 0, 0, 0, 0], 0)

  function DotItem(): Item {
    NewItem(ItemIn(ZeroBlock(), 0), DOT, ITEM_DIR, 0)
  }

  function RootInodeBlock(): block {
    SetInode(ZeroBlock(), 0, ROOT_INODE)
  }

  function RootBlock(): block {
    SetItem(ZeroBlock(), 0, DotItem())
  }

  /** What format leaves on a device that held d. */
  ghost predicate Formatted(d: Disk, d': Disk, l: Layout) {
    && Blk(d', 0) == EncodeSuperblock(l)
    && Blk(d', l.inodeStart) == RootInodeBlock()
    && (forall n {:trigger Blk(d', n)} :: l.inodeStart < n < l.bitmapStart ==> Blk(d', n) == ZeroBlock())
    && Blk(d', l.bitmapStart) == ZeroBlock()[0 := 3]
    && (forall n {:trigger Blk(d', n)} :: l.bitmapStart < n < l.dataStart ==> Blk(d', n) == ZeroBlock())
    && Blk(d', l.dataStart + 1) == RootBlock()
    && (forall n {:trigger Blk(d', n)} :: n < 0 || n == l.dataStart || n > l.dataStart + 1 ==> Blk(d', n) == Blk(d, n))
  }

  /** Block 0 holds the superblock; the inode blocks from lo1 on and the bitmap blocks from lo2 on
      are zero; nothing else has changed. */
  ghost predicate Cleared(d: Disk, d': Disk, l: Layout, lo1: int, lo2: int) {
    && Blk(d', 0) == EncodeSuperblock(l)
    && (forall n {:trigger Blk(d', n)} ::
          lo1 <= n < l.bitmapStart || lo2 <= n < l.dataStart ==> Blk(d', n) == ZeroBlock())
    && (forall n {:trigger Blk(d', n)} ::
          n != 0 && !(lo1 <= n < l.bitmapStart || lo2 <= n < l.dataStart) ==> Blk(d', n) == Blk(d, n))
  }

  lemma ImageIsDevice(image: Disk, view: imap<Key, block>, device: int)
    requires SameBlocks(image, view, device)
    ensures image == DeviceOf(view, device)
  {
    forall n: int ensures n in image && image[n] == DeviceOf(view, device)[n] { assert Shown(image, view, device, n); }
  }

  lemma ClearOne(d: Disk, d': Disk, l: Layout, lo1: int, lo2: int, lo1': int, lo2': int, at: int)
    requires Cleared(d, d', l, lo1, lo2) && 0 < at
    requires (lo1' == lo1 - 1 == at && lo2' == lo2 && at < l.bitmapStart)
             || (lo2' == lo2 - 1 == at && lo1' == lo1 && at < l.dataStart)
    ensures Cleared(d, d'[at := ZeroBlock()], l, lo1', lo2')
  {
    var d2 := d'[at := ZeroBlock()];
    forall n ensures Blk(d2, n) == if n == at then ZeroBlock() else Blk(d', n) {}
  }

  /** The inode blocks are cleared, from the last to the first. */
  method ClearInodes(v: Volume, ghost before: Disk)
    requires v.Synced() && LayoutShape(v.disk)
    requires Cleared(before, v.image, v.disk, v.disk.bitmapStart, v.disk.dataStart)
    modifies v`image, v.cache
    ensures v.Synced() && Cleared(before, v.image, v.disk, v.disk.inodeStart, v.disk.dataStart)
  {
    var sb := v.disk;
    var i: int := sb.inodeBlocks - 1;
    ghost var first := sb.bitmapStart;
    while i >= 0
      invariant -1 <= i < sb.inodeBlocks && v.Synced() && first == sb.inodeStart + i + 1
      invariant Cleared(before, v.image, sb, first, sb.dataStart)
    {
      ClearOne(before, v.image, sb, first, sb.dataStart, first - 1, sb.dataStart, sb.inodeStart + i);
      var r := v.BlockWrite(sb.inodeStart + i, ZeroBlock());
      i, first := i - 1, first - 1;
    }
  }

  /** The bitmap blocks are cleared, from the last to the first. */
  method ClearBitmap(v: Volume, ghost before: Disk)
    requires v.Synced() && LayoutShape(v.disk)
    requires Cleared(before, v.image, v.disk, v.disk.inodeStart, v.disk.dataStart)
    modifies v`image, v.cache
    ensures v.Synced() && Cleared(before, v.image, v.disk, v.disk.inodeStart, v.disk.bitmapStart)
  {
    hide Cleared, EncodeSuperblock;
    var sb := v.disk;
    var i: int := sb.bitmapBlocks - 1;
    ghost var first := sb.dataStart;
    while i >= 0
      invariant -1 <= i < sb.bitmapBlocks && v.Synced() && first == sb.bitmapStart + i + 1
      invariant Cleared(before, v.image, sb, sb.inodeStart, first)
    {
      ClearOne(before, v.image, sb, sb.inodeStart, first, sb.inodeStart, first - 1, sb.bitmapStart + i);
      var r := v.BlockWrite(sb.bitmapStart + i, ZeroBlock());
      i, first := i - 1, first - 1;
    }
  }

  /** Superblock, inode blocks, bitmap blocks and data blocks follow one another. */
  predicate LayoutShape(l: Layout) {
    l.inodeStart == 1 && l.bitmapStart == 1 + l.inodeBlocks && l.dataStart == l.bitmapStart + l.bitmapBlocks
    && l.inodeBlocks >= 1 && l.bitmapBlocks >= 1
  }

  lemma RootStep(d: Disk, d1: Disk, l: Layout)
    requires LayoutShape(l) && Cleared(d, d1, l, l.inodeStart, l.bitmapStart)
    ensures var d2 := d1[l.bitmapStart := ZeroBlock()[0 := 3]][l.inodeStart := RootInodeBlock()];
            Formatted(d, d2[l.dataStart + 1 := RootBlock()], l)
  {
    var d2 :=
      d1[l.bitmapStart := ZeroBlock()[0 := 3]][l.inodeStart := RootInodeBlock()][l.dataStart + 1 := RootBlock()];
    forall n | n != l.bitmapStart && n != l.inodeStart && n != l.dataStart + 1 ensures Blk(d2, n) == Blk(d1, n) {}
  }

  /** The root directory: inode 0, with one data block that holds the entry for itself. */
  method WriteRoot(v: Volume, ghost before: Disk)
    requires v.Synced() && LayoutShape(v.disk)
    requires Cleared(before, v.image, v.disk, v.disk.inodeStart, v.disk.bitmapStart)
    modifies v`image, v.cache
    ensures v.Synced() && Formatted(before, v.image, v.disk)
  {
    hide Formatted, Cleared, RootInodeBlock, RootBlock;
    RootStep(before, v.image, v.disk);
    // blocks 0 and 1 are in use
    var r := v.BlockWrite(v.disk.bitmapStart, ZeroBlock()[0 := 3]);
    r := v.BlockWrite(v.disk.inodeStart, RootInodeBlock());
    r := v.BlockWrite(v.disk.dataStart + 1, RootBlock());
  }

  lemma SuperblockStep(d: Disk, l: Layout)
    requires LayoutShape(l)
    ensures Cleared(d, d[0 := EncodeSuperblock(l)], l, l.bitmapStart, l.dataStart)
  {
  }

  method FormatBlocks(v: Volume)
    requires v.Synced() && LayoutShape(v.disk)
    modifies v`image, v.cache
    ensures v.Synced() && Formatted(old(v.image), v.image, v.disk)
  {
    ghost var before := v.image;
    SuperblockStep(before, v.disk);
    var r := v.BlockWrite(0, EncodeSuperblock(v.disk));
    ClearInodes(v, before);
    ClearBitmap(v, before);
    WriteRoot(v, before);
  }

  /** Every byte of a block from a place on is zero. */
  ghost predicate ZeroFrom(b: block, from: nat) {
    forall k :: from <= k < 4096 ==> b[k] == 0
  }

  /** What a formatted device of so many blocks holds, byte by byte: the superblock, an inode table in
      which inode 0 is a directory with one block, a bitmap with blocks 0 and 1, and the entry of that
      directory, ".". */
  ghost predicate FormatBytes(d: Disk, nblocks: nat)
    requires 31 <= nblocks
  {
    var bitmapBlocks := 1 + (nblocks - 28) / 32768;
    var sb, inode, bitmap, root := Blk(d, 0), Blk(d, 1), Blk(d, 29), Blk(d, 30 + bitmapBlocks);
    && sb[..4] == [0x21, 0x43, 0xcd, 0xab] && WordAt(sb, 4) == 4096 && WordAt(sb, 8) == 1 && WordAt(sb, 12) == 28
    && WordAt(sb, 16) == 29 && WordAt(sb, 20) == bitmapBlocks && WordAt(sb, 24) == 29 + bitmapBlocks
    && WordAt(sb, 28) == nblocks - 28 - bitmapBlocks && ZeroFrom(sb, 32)
    && WordAt(inode, 0) == 1 && WordAt(inode, 4) == 32 && WordAt(inode, 8) == 1 && ZeroFrom(inode, 12)
    && (forall n {:trigger Blk(d, n)} :: 2 <= n < 29 ==> ZeroFrom(Blk(d, n), 0))
    && bitmap[0] == 3 && ZeroFrom(bitmap, 1)
    && (forall n {:trigger Blk(d, n)} :: 30 <= n < 29 + bitmapBlocks ==> ZeroFrom(Blk(d, n), 0))
    && root[..7] == [0, 0, 0, 0, 2, 1, 46] && ZeroFrom(root, 7)
  }

  lemma RestZero(z: nat, bytes: seq<byte>)
    requires |bytes| == z <= 4096
    ensures PutSlot(ZeroBlock(), z, 0, bytes)[..z] == bytes && ZeroFrom(PutSlot(ZeroBlock(), z, 0, bytes), z)
  {
  }

  lemma SuperblockStored(l: Layout)
    ensures var b := EncodeSuperblock(l);
            && b[..4] == [0x21, 0x43, 0xcd, 0xab] && WordAt(b, 4) == 4096 && WordAt(b, 8) == l.inodeStart
            && WordAt(b, 12) == l.inodeBlocks && WordAt(b, 16) == l.bitmapStart && WordAt(b, 20) == l.bitmapBlocks
            && WordAt(b, 24) == l.dataStart && WordAt(b, 28) == l.dataBlocks && ZeroFrom(b, 32)
  {
    var b := EncodeSuperblock(l);
    var ws: seq<word> := [DISKFS_MAGIC, BLOCK_SIZE, l.inodeStart, l.inodeBlocks, l.bitmapStart, l.bitmapBlocks,
                          l.dataStart, l.dataBlocks];
    SlotPut(ZeroBlock(), SUPERBLOCK_SIZE, 0, EncodeWords(ws), 0);
    WordsRoundTrip(ws);
    RestZero(SUPERBLOCK_SIZE, EncodeWords(ws));
    SuperblockRoundTrip(l);
    SuperblockBytes(b);
    WordsAt(Slot(b, SUPERBLOCK_SIZE, 0), 8, 1);
    SlotAt(b, SUPERBLOCK_SIZE, 0, 4, 4);
  }

  lemma RootInodeStored()
    ensures var b := RootInodeBlock();
            WordAt(b, 0) == 1 && WordAt(b, 4) == 32 && WordAt(b, 8) == 1 && ZeroFrom(b, 12)
  {
    hide RootInodeBlock, InodeIn, WordAt;
    var b := RootInodeBlock();
    RootInodes(0);
    InodeBytes(b, 0);
    RootInodeRest(b);
    assert ROOT_INODE.direct[0] == WordAt(b, 8);
    forall i | 3 <= i < 9 ensures WordAt(b, 4 * i) == 0 {
      if i < 8 { assert WordAt(b, 8 + 4 * (i - 2)) == ROOT_INODE.direct[i - 2]; }
    }
    ZeroWords12(b);
  }

  lemma ZeroWords12(b: block)
    requires ZeroFrom(b, 36) && forall i :: 3 <= i < 9 ==> WordAt(b, 4 * i) == 0
    ensures ZeroFrom(b, 12)
  {
    forall k: nat | 12 <= k < 4096 ensures b[k] == 0 {
      if k < 36 {
        assert WordAt(b, 4 * (k / 4)) == 0;
        ZeroWordAt(b, 4 * (k / 4), k);
      }
    }
  }

  lemma RootInodeRest(b: block)
    requires b == RootInodeBlock()
    ensures ZeroFrom(b, 36)
  {
    RestZero(INODE_SIZE, EncodeInode(ROOT_INODE));
  }

  lemma ZeroWordAt(b: block, at: nat, k: nat)
    requires at <= k < at + 4 <= 4096 && WordAt(b, at) == 0
    ensures b[k] == 0
  {
  }

  lemma RootItemStored()
    ensures var b := RootBlock(); b[..7] == [0, 0, 0, 0, 2, 1, 46] && ZeroFrom(b, 7)
  {
    var e := DotItem();
    RestZero(ITEM_SIZE, EncodeItem(e));
    var b := RootBlock();
    assert ItemIn(ZeroBlock(), 0).field == seq(26, _ => 0);
    assert EncodeItem(e) == [0, 0, 0, 0, 2, 1, 46] + seq(25, _ => 0);
    forall k | 0 <= k < 32 ensures b[k] == EncodeItem(e)[k] { assert b[k] == b[..32][k]; }
  }

  lemma FormattedBytes(d: Disk, d': Disk, nblocks: nat)
    requires 31 <= nblocks < 0x8000_0000 && Formatted(d, d', FormatLayout(nblocks))
    ensures FormatBytes(d', nblocks)
  {
    hide EncodeSuperblock, RootInodeBlock, RootBlock;
    SuperblockStored(FormatLayout(nblocks));
    RootInodeStored();
    RootItemStored();
  }

  /** diskfs_volume_format; nblocks is the size of the device. */
  method VolumeFormat(cache: Bcache.Cache, device: int, nblocks: nat)
    requires cache.Valid() && 31 <= nblocks < 0x8000_0000
    modifies cache
    ensures cache.Valid()
            && Formatted(DeviceOf(old(cache.View()), device), DeviceOf(cache.View(), device), FormatLayout(nblocks))
            && FormatBytes(DeviceOf(cache.View(), device), nblocks)
    ensures forall k: Key :: k.device == device ==> Bcache.DiskAt(cache.disk, k) == cache.View()[k]
  {
    var v := new Volume(cache, device, FormatLayout(nblocks));
    FormatBlocks(v);
    ImageIsDevice(v.image, cache.View(), device);
    FormattedBytes(DeviceOf(old(cache.View()), device), v.image, nblocks);
    cache.FlushDevice(device);
  }

  /** diskfs_volume_open */
  method VolumeOpen(cache: Bcache.Cache, device: int) returns (v: Volume?)
    requires cache.Valid()
    modifies cache
    ensures cache.Valid() && cache.View() == old(cache.View())
    ensures v != null <==> Blk(DeviceOf(cache.View(), device), 0)[..4] == [0x21, 0x43, 0xcd, 0xab]
    ensures v != null ==>
              && fresh(v) && v.cache == cache && v.device == device && v.refcount == 1 && v.Synced()
              && v.image == DeviceOf(cache.View(), device) && v.disk == DecodeLayout(Blk(v.image, 0))
              && v.disk.inodeStart == WordAt(Blk(v.image, 0), 8) && v.disk.inodeBlocks == WordAt(Blk(v.image, 0), 12)
              && v.disk.bitmapStart == WordAt(Blk(v.image, 0), 16) && v.disk.bitmapBlocks == WordAt(Blk(v.image, 0), 20)
              && v.disk.dataStart == WordAt(Blk(v.image, 0), 24) && v.disk.dataBlocks == WordAt(Blk(v.image, 0), 28)
  {
    var garbage: bool := *;
    var r, data := cache.Read(device, 1, 0, [Bcache.Condition(1, false, garbage)]);
    SuperblockBytes(data[0]);
    if DecodeMagic(data[0]) != DISKFS_MAGIC { return null; }
    v := new Volume(cache, device, DecodeLayout(data[0]));
  }

  // ---- what a formatted volume means

  lemma ZeroInodes(j: nat)
    requires j < INODES_PER_BLOCK
    ensures InodeIn(ZeroBlock(), j) == ZERO_INODE
  {
    ZeroIsZeroInode(Slot(ZeroBlock(), INODE_SIZE, j));
  }

  lemma RootInodes(j: nat)
    requires j < INODES_PER_BLOCK
    ensures InodeIn(RootInodeBlock(), j) == if j == 0 then ROOT_INODE else ZERO_INODE
  {
    ZeroInodes(j);
    InodeSet(ZeroBlock(), 0, ROOT_INODE, j);
  }

  lemma FormattedInodeBlock(d: Disk, d': Disk, l: Layout, at: nat)
    requires Formatted(d, d', l) && l.inodeStart + at < l.bitmapStart
    ensures Blk(d', l.inodeStart + at) == if at == 0 then RootInodeBlock() else ZeroBlock()
  {
  }

  lemma FormattedInodeAt(b: block, at: nat, j: nat)
    requires b == (if at == 0 then RootInodeBlock() else ZeroBlock()) && j < INODES_PER_BLOCK
    ensures InodeIn(b, j) == if at == 0 && j == 0 then ROOT_INODE else ZERO_INODE
  {
    if at == 0 { RootInodes(j); } else { ZeroInodes(j); }
  }

  lemma FormattedInode(d: Disk, d': Disk, l: Layout, m: nat)
    requires Formatted(d, d', l) && l.inodeStart + m / INODES_PER_BLOCK < l.bitmapStart
    ensures InodeOf(d', l, m) == if m == 0 then ROOT_INODE else ZERO_INODE
  {
    hide Formatted, InodeIn, RootInodeBlock;
    var at, j := m / INODES_PER_BLOCK, m % INODES_PER_BLOCK;
    FormattedInodeBlock(d, d', l, at);
    FormattedInodeAt(Blk(d', l.inodeStart + at), at, j);
  }

  lemma FormattedPointer(d: Disk, d': Disk, l: Layout, q: Ref)
    requires Formatted(d, d', l) && LayoutOk(l) && Data(d, l, 0) == ZeroBlock() && InRange(l, q)
    ensures Ptr(d', l, q) == if q == Direct(0, 0) then 1 else 0
  {
    InodePlace(l, q.inumber);
    FormattedInode(d, d', l, q.inumber);
    FormattedHole(d, d', l);
    PointerOf(d', l, q);
  }

  lemma FormattedHole(d: Disk, d': Disk, l: Layout)
    requires Formatted(d, d', l) && LayoutOk(l) && Data(d, l, 0) == ZeroBlock()
    ensures Data(d', l, 0) == ZeroBlock()
  {
  }

  lemma PointerOf(d: Disk, l: Layout, q: Ref)
    requires InRange(l, q) && Data(d, l, 0) == ZeroBlock()
    requires InodeOf(d, l, q.inumber) == if q.inumber == 0 then ROOT_INODE else ZERO_INODE
    ensures Ptr(d, l, q) == if q == Direct(0, 0) then 1 else 0
  {
    if q.Entry? { ZeroPointer(q.j); }
  }

  lemma FormattedMarks(d: Disk, d': Disk, l: Layout)
    requires Formatted(d, d', l) && LayoutOk(l)
    ensures Marked(d', l, 1)
  {
    assert Bits.Has(1, 0);
  }

  lemma FormattedInodes(d: Disk, d': Disk, l: Layout)
    requires Formatted(d, d', l) && LayoutOk(l)
    ensures InodeOf(d', l, 0) == ROOT_INODE
    ensures forall m: nat {:trigger InodeOf(d', l, m)} :: 0 < m < Inodes(l) ==> InodeOf(d', l, m).inuse == 0
  {
    hide Formatted, InodeOf;
    forall m: nat | m < Inodes(l) ensures InodeOf(d', l, m) == if m == 0 then ROOT_INODE else ZERO_INODE {
      InodePlace(l, m);
      FormattedInode(d, d', l, m);
    }
  }

  /** A formatted volume is well formed. */
  lemma FormattedOk(d: Disk, d': Disk, l: Layout)
    requires Formatted(d, d', l) && LayoutOk(l) && Data(d, l, 0) == ZeroBlock()
    ensures DiskState.Ok(d', l)
  {
    FormattedMarks(d, d', l);
    forall q | InRange(l, q)
      ensures Ptr(d', l, q) == if q == Direct(0, 0) then 1 else 0 { FormattedPointer(d, d', l, q); }
    forall q ensures RefOk(d', l, q) {}
    forall q, q' ensures Unshared(d', l, q, q') {}
  }

  lemma RootFirstBlock(d: Disk, d': Disk, l: Layout)
    requires Formatted(d, d', l) && LayoutOk(l) && Data(d, l, 0) == ZeroBlock()
    ensures File(d', l, 0, 0) == RootBlock()
  {
    FormattedPointer(d, d', l, FileRef(0, 0));
  }

  lemma OneBlock(d: Disk, l: Layout)
    requires LayoutOk(l)
    ensures Listing(d, l, 0, 1) == ItemsIn(File(d, l, 0, 0))
  {
    ListingGrow(d, d, l, 0, 0);
    assert Listing(d, l, 0, 0) == [];
  }

  lemma RootListing(d: Disk, d': Disk, l: Layout)
    requires Formatted(d, d', l) && LayoutOk(l) && Data(d, l, 0) == ZeroBlock()
    ensures Listing(d', l, 0, 1) == ItemsIn(ZeroBlock())[0 := DotItem()]
  {
    RootFirstBlock(d, d', l);
    FirstItem(DotItem());
    OneBlock(d', l);
  }

  /** Its root directory has the one entry for itself. */
  lemma FormattedRoot(d: Disk, d': Disk, l: Layout)
    requires Formatted(d, d', l) && LayoutOk(l) && Data(d, l, 0) == ZeroBlock()
    ensures DirOk(d', l, 0, ITEM_SIZE) && DirMap(d', l, 0, ITEM_SIZE) == map[DOT := (0, ITEM_DIR)]
  {
    RootListing(d, d', l);
    FormattedInodes(d, d', l);
    RootItems(d', l);
    DirOkIf(d', l, 0, ITEM_SIZE, 1, ItemsIn(ZeroBlock())[0 := DotItem()]);
  }

  lemma RootItems(d: Disk, l: Layout)
    requires 0 < Inodes(l) && InodeOf(d, l, 0).inuse != 0
    ensures var items := ItemsIn(ZeroBlock())[0 := DotItem()];
            ListingOk(d, l, items, ITEM_SIZE) && Entries(items) == map[DOT := (0, ITEM_DIR)]
  {
    var blanks := ItemsIn(ZeroBlock());
    BlankBlock();
    EntriesBlank([], blanks);
    assert [] + blanks == blanks;
    EntriesSet(blanks, 0, DotItem());
  }
}
