/** The disk file system: allocation of blocks and inodes, reading and writing the blocks of a
    file through its inode, directories, formatting and opening a volume. All block traffic goes
    through the cache; device errors are left out, so every block operation succeeds. */
module DiskFs {
  import opened Words
  import opened Blocks
  import opened Codec
  import opened DiskState
  import Bits
  import Bcache

  const KERROR_OUT_OF_SPACE := -20

  class Volume {
    const cache: Bcache.Cache
    const device: int
    const disk: Layout
    var refcount: int

    /** The blocks of this volume's device, as seen through the cache. */
    ghost var image: Disk

    constructor (cache: Bcache.Cache, device: int, disk: Layout)
      requires cache.Valid()
      ensures this.cache == cache && this.device == device && this.disk == disk && refcount == 1
      ensures Synced() && image == DeviceOf(cache.View(), device)
    {
      this.cache, this.device, this.disk, refcount := cache, device, disk, 1;
      image := DeviceOf(cache.View(), device);
    }

    ghost predicate Synced()
      reads this, cache
    {
      cache.Valid() && SameBlocks(image, cache.View(), device)
    }

    /** The cache works, and the volume on the disk is well formed. */
    ghost predicate Valid()
      reads this, cache
    {
      Synced() && DiskState.Ok(image, disk)
    }

    /** diskfs_block_read */
    method BlockRead(n: int) returns (r: int, b: block)
      requires Synced()
      modifies cache
      ensures Synced() && r == BLOCK_SIZE && b == Blk(image, n)
    {
      var garbage: bool := *;
      var result, data := cache.Read(device, 1, n, [Bcache.Condition(1, false, garbage)]);
      assert Shown(image, cache.View(), device, n);
      b := data[0];
      r := if result != 0 then BLOCK_SIZE else -1;
    }

    /** diskfs_block_write */
    method BlockWrite(n: int, b: block) returns (r: int)
      requires Synced()
      modifies this`image, cache
      ensures Synced() && image == old(image)[n := b] && r == BLOCK_SIZE
    {
      var garbage: bool := *;
      ghost var view := cache.View();
      assert [b][..1] == [b] && [b][..0] == [];
      var result := cache.Write(device, [b], n, [Bcache.Condition(1, false, garbage)]);
      assert Bcache.Written(view, device, [], n) == view;
      assert cache.View() == view[Key(device, n) := b];
      image := image[n := b];
      forall m: int ensures Shown(image, cache.View(), device, m) { assert Shown(old(image), view, device, m); }
      r := if result != 0 then BLOCK_SIZE else -1;
    }

    method BitmapBlockRead(i: nat) returns (r: int, b: block)
      requires Synced() && i < disk.bitmapBlocks
      modifies cache
      ensures Synced() && b == Blk(image, disk.bitmapStart + i)
    {
      r, b := BlockRead(disk.bitmapStart + i);
    }

    method InodeBlockRead(i: nat) returns (r: int, b: block)
      requires Synced() && i < disk.inodeBlocks
      modifies cache
      ensures Synced() && b == Blk(image, disk.inodeStart + i)
    {
      r, b := BlockRead(disk.inodeStart + i);
    }

    /** diskfs_data_block_read: nothing is read past the data region. */
    method DataBlockRead(k: int) returns (r: int, b: block)
      requires Synced() && k >= 0
      modifies cache
      ensures Synced()
      ensures if k < disk.dataBlocks then r == BLOCK_SIZE && b == Data(image, disk, k) else r == KERROR_OUT_OF_SPACE
    {
      b := ZeroBlock();
      if k >= disk.dataBlocks { return KERROR_OUT_OF_SPACE, b; }
      r, b := BlockRead(disk.dataStart + k);
    }

    method DataBlockWrite(k: int, b: block) returns (r: int)
      requires Synced() && k >= 0
      modifies this`image, cache
      ensures Synced()
      ensures if k < disk.dataBlocks then r == BLOCK_SIZE && image == WriteData(old(image), disk, k, b)
              else r == KERROR_OUT_OF_SPACE && image == old(image)
    {
      if k >= disk.dataBlocks { return KERROR_OUT_OF_SPACE; }
      r := BlockWrite(disk.dataStart + k, b);
    }

    /** Bit k of byte j is set in bitmap block i. */
    method SetBit(b: block, i: nat, j: nat, k: nat)
      requires Synced() && j < BLOCK_SIZE && k < 8
      modifies this`image, cache
      ensures Synced() && image == old(image)[disk.bitmapStart + i := WithBit(b, j * 8 + k)]
    {
      MarkInBlock(b, j, k);
      var r := BlockWrite(disk.bitmapStart + i, b[j := Bits.Or(b[j], Pow2(k))]);
    }

    /** The data block of a clear bit that was found gets marked. */
    method TakeBlock(b: block, i: nat, j: nat, k: nat) returns (blockno: nat)
      requires Valid() && i < disk.bitmapBlocks && b == Blk(image, disk.bitmapStart + i)
      requires j < BLOCK_SIZE && k < 8 && !Bits.Has(b[j], k) && 0 < i * BLOCK_SIZE + j * 8 + k < disk.dataBlocks
      modifies this`image, cache
      ensures Valid() && 0 < blockno < disk.dataBlocks && !Marked(old(image), disk, blockno)
      ensures image == Mark(old(image), disk, blockno) && i == 0 && blockno == 8 * j + k
    {
      ghost var before := image;
      SetBit(b, i, j, k);
      blockno := i * BLOCK_SIZE + j * 8 + k;
      TakenStep(before, image, disk, i, j, k, blockno);
    }

    /** diskfs_data_block_alloc: the first unmarked block, which gets marked; 0 when there is
        none. */
    method DataBlockAlloc() returns (blockno: int)
      requires Valid()
      modifies this`image, cache
      ensures Valid()
      ensures blockno == 0 ==> image == old(image) && Full(image, disk)
      ensures blockno != 0 ==> 0 < blockno < disk.dataBlocks && !Marked(old(image), disk, blockno)
                               && image == Mark(old(image), disk, blockno)
      ensures forall a {:trigger Marked(old(image), disk, a)} :: 0 < a < blockno ==> Marked(old(image), disk, a)
    {
      ghost var before := image;
      var i := 0;
      while i < disk.bitmapBlocks
        invariant 0 <= i <= disk.bitmapBlocks && Synced() && image == before
        invariant i >= 1 ==> Full(before, disk)
      {
        var r, b := BitmapBlockRead(i);
        var found, j, k := ScanBitmapBlock(b, i, disk);
        if found {
          blockno := TakeBlock(b, i, j, k);
          ScannedMarks(before, disk, b, 8 * j + k);
          return;
        }
        NoneLeft(before, disk, b);
        i := i + 1;
      }
      blockno := 0;
    }

    /** diskfs_inode_load */
    method InodeLoad(n: nat) returns (x: Inode)
      requires Synced() && n < Inodes(disk)
      modifies cache
      ensures Synced() && x == InodeOf(image, disk, n)
    {
      var r, b := InodeBlockRead(n / INODES_PER_BLOCK);
      x := InodeIn(b, n % INODES_PER_BLOCK);
    }

    /** diskfs_inode_save */
    method InodeSave(n: nat, x: Inode)
      requires Synced() && n < Inodes(disk)
      modifies this`image, cache
      ensures Synced() && image == SaveInode(old(image), disk, n, x)
    {
      var r, b := InodeBlockRead(n / INODES_PER_BLOCK);
      r := BlockWrite(disk.inodeStart + n / INODES_PER_BLOCK, SetInode(b, n % INODES_PER_BLOCK, x));
    }

    /** Inode j of inode block i, whose contents are b, is put in use. */
    method TakeInode(b: block, i: nat, j: nat) returns (n: nat)
      requires Synced() && i < disk.inodeBlocks && b == Blk(image, disk.inodeStart + i)
      requires j < INODES_PER_BLOCK && InodeIn(b, j).inuse == 0 && InodeOf(image, disk, 0).inuse != 0
      modifies this`image, cache
      ensures Synced() && 0 < n == i * INODES_PER_BLOCK + j && TookInode(old(image), image, disk, n)
    {
      ghost var before := image;
      var r := BlockWrite(disk.inodeStart + i, SetInode(b, j, InodeIn(b, j).(inuse := 1)));
      FoundInode(before, image, disk, i, j);
      n := i * INODES_PER_BLOCK + j;
    }

    /** diskfs_inumber_alloc: the first inode that is not in use; 0 when there is none, since
        inode 0 is the root directory. */
    method InumberAlloc() returns (n: nat)
      requires Synced() && InodeOf(image, disk, 0).inuse != 0
      modifies this`image, cache
      ensures Synced()
      ensures n == 0 ==> image == old(image) && NoInode(image, disk)
      ensures n != 0 ==> TookInode(old(image), image, disk, n) && InUseTo(old(image), disk, n)
    {
      hide InodeOf, InodeIn, InUseTo, TookInode, UsedIn, SameBlocks, Blk, Bcache.UniqueKeys, Bcache.CleanOnes;
      ghost var before, scanned := image, 0;
      NoneScanned(before, disk);
      var i := 0;
      while i < disk.inodeBlocks
        invariant 0 <= i <= disk.inodeBlocks && Synced() && image == before
        invariant scanned == i * INODES_PER_BLOCK && InUseTo(before, disk, scanned)
      {
        var r, b := InodeBlockRead(i);
        var j := FirstUnused(b);
        if j < INODES_PER_BLOCK {
          ScannedInodes(before, disk, i, j, scanned, scanned + j);
          n := TakeInode(b, i, j);
          return;
        }
        ScannedInodes(before, disk, i, j, scanned, scanned + INODES_PER_BLOCK);
        i, scanned := i + 1, scanned + INODES_PER_BLOCK;
      }
      n := 0;
    }
  }

  /** The first unused inode of an inode block, or 113. */
  method FirstUnused(b: block) returns (j: nat)
    ensures j <= INODES_PER_BLOCK && (j < INODES_PER_BLOCK ==> InodeIn(b, j).inuse == 0)
    ensures UsedIn(b, j)
  {
    j := 0;
    while j < INODES_PER_BLOCK
      invariant 0 <= j <= INODES_PER_BLOCK && UsedIn(b, j)
    {
      if InodeIn(b, j).inuse == 0 { return; }
      j := j + 1;
    }
  }

  ghost predicate UsedIn(b: block, n: nat) {
    forall k {:trigger InodeIn(b, k)} :: 0 <= k < n && k < INODES_PER_BLOCK ==> InodeIn(b, k).inuse != 0
  }

  ghost predicate InUseTo(d: Disk, l: Layout, n: nat) {
    forall m: nat {:trigger InodeOf(d, l, m)} :: m < n ==> InodeOf(d, l, m).inuse != 0
  }

  ghost predicate NoInode(d: Disk, l: Layout) {
    InUseTo(d, l, Inodes(l))
  }

  /** Inode n was not in use; now it is. */
  ghost predicate TookInode(d: Disk, d': Disk, l: Layout, n: nat) {
    && n < Inodes(l) && InodeOf(d, l, n).inuse == 0
    && d' == SaveInode(d, l, n, InodeOf(d, l, n).(inuse := 1))
  }

  lemma FoundInode(d: Disk, d': Disk, l: Layout, i: nat, j: nat)
    requires i < l.inodeBlocks && j < INODES_PER_BLOCK && InodeOf(d, l, 0).inuse != 0
    requires var b := Blk(d, l.inodeStart + i);
             InodeIn(b, j).inuse == 0 && d' == d[l.inodeStart + i := SetInode(b, j, InodeIn(b, j).(inuse := 1))]
    ensures 0 < i * INODES_PER_BLOCK + j && TookInode(d, d', l, i * INODES_PER_BLOCK + j)
  {
    var n := i * INODES_PER_BLOCK + j;
    assert n / INODES_PER_BLOCK == i && n % INODES_PER_BLOCK == j;
  }

  lemma NoneScanned(d: Disk, l: Layout)
    ensures InUseTo(d, l, 0)
  {
  }

  lemma ScannedInodes(d: Disk, l: Layout, i: nat, j: nat, scanned: nat, scanned': nat)
    requires scanned == i * INODES_PER_BLOCK && scanned' == scanned + j && j <= INODES_PER_BLOCK
    requires InUseTo(d, l, scanned) && UsedIn(Blk(d, l.inodeStart + i), j)
    ensures InUseTo(d, l, scanned')
  {
    forall m: nat | m < scanned' ensures InodeOf(d, l, m).inuse != 0 {
      if scanned <= m {
        assert m / INODES_PER_BLOCK == i;
        assert InodeIn(Blk(d, l.inodeStart + i), m % INODES_PER_BLOCK).inuse != 0;
      }
    }
  }

  /** The scan of bitmap block i for a bit that is clear and may be allocated. (The test against
      0xff never fails on a signed byte, so every byte is looked into.) */
  method ScanBitmapBlock(b: block, i: nat, l: Layout) returns (found: bool, j: nat, k: nat)
    requires LayoutOk(l) && i < l.bitmapBlocks
    ensures found ==> j < BLOCK_SIZE && k < 8 && !Bits.Has(b[j], k) && 0 < i * BLOCK_SIZE + j * 8 + k < l.dataBlocks
    ensures i == 0 ==> ScannedTo(b, l, if found then 8 * j + k else BITS_PER_BLOCK)
  {
    found, j, k := false, 0, 0;
    while j < BLOCK_SIZE
      invariant 0 <= j <= BLOCK_SIZE
      invariant i == 0 ==> ScannedTo(b, l, 8 * j)
    {
      k := 0;
      while k < 8
        invariant 0 <= k <= 8
        invariant i == 0 ==> ScannedTo(b, l, 8 * j + k)
      {
        if !Bits.Has(b[j], k) {
          var blockno := i * BLOCK_SIZE + j * 8 + k;
          // block zero is never allocated
          if blockno != 0 {
            if blockno >= l.dataBlocks { break; }
            found := true;
            return;
          }
        }
        ScanStep(b, l, j, k);
        k := k + 1;
      }
      j := j + 1;
    }
  }

  lemma ScanStep(b: block, l: Layout, j: nat, k: nat)
    requires j < BLOCK_SIZE && k < 8 && (Bits.Has(b[j], k) || 8 * j + k == 0)
    ensures ScannedTo(b, l, 8 * j + k) ==> ScannedTo(b, l, 8 * j + k + 1)
  {
    assert (8 * j + k) / 8 == j && (8 * j + k) % 8 == k;
  }

  ghost predicate Shown(image: Disk, view: imap<Key, block>, device: int, n: int) {
    n in image && Key(device, n) in view && image[n] == view[Key(device, n)]
  }

  ghost predicate SameBlocks(image: Disk, view: imap<Key, block>, device: int) {
    forall n: int {:trigger Shown(image, view, device, n)} :: Shown(image, view, device, n)
  }

  ghost function DeviceOf(view: imap<Key, block>, device: int): Disk {
    imap n: int :: if Key(device, n) in view then view[Key(device, n)] else ZeroBlock()
  }

  /** Every block below n that may be allocated is marked. */
  ghost predicate ScannedTo(b: block, l: Layout, n: nat) {
    forall a :: 0 < a < n && a < l.dataBlocks && a < BITS_PER_BLOCK ==> Bits.Has(b[a / 8], a % 8)
  }

  /** Only the first bitmap block ever yields a block. */
  lemma AllocatedInFirst(l: Layout, i: nat, j: nat, k: nat)
    requires LayoutOk(l) && i < l.bitmapBlocks && j < BLOCK_SIZE && k < 8 && i * BLOCK_SIZE + j * 8 + k < l.dataBlocks
    ensures i == 0 && (j * 8 + k) / 8 == j && (j * 8 + k) % 8 == k
  {
  }

  lemma MarkInBlock(b: block, j: nat, k: nat)
    requires j < BLOCK_SIZE && k < 8
    ensures Bits.Or(b[j], Pow2(k)) < 256 && b[j := Bits.Or(b[j], Pow2(k))] == WithBit(b, j * 8 + k)
  {
    ByteOr(b[j], k);
    assert (j * 8 + k) / 8 == j && (j * 8 + k) % 8 == k;
  }

  lemma TakenIsMark(d: Disk, l: Layout, i: nat, j: nat, k: nat, blockno: nat)
    requires LayoutOk(l) && i < l.bitmapBlocks && j < BLOCK_SIZE && k < 8 && blockno == i * BLOCK_SIZE + j * 8 + k
    requires !Bits.Has(Blk(d, l.bitmapStart + i)[j], k) && blockno < l.dataBlocks
    ensures blockno < BITS_PER_BLOCK && blockno == j * 8 + k && !Marked(d, l, blockno)
    ensures d[l.bitmapStart + i := WithBit(Blk(d, l.bitmapStart + i), j * 8 + k)] == Mark(d, l, blockno)
  {
    AllocatedInFirst(l, i, j, k);
  }

  /** A bit found by the scan gets set. */
  lemma TakenStep(d: Disk, d': Disk, l: Layout, i: nat, j: nat, k: nat, blockno: nat)
    requires Ok(d, l) && i < l.bitmapBlocks && j < BLOCK_SIZE && k < 8 && blockno == i * BLOCK_SIZE + j * 8 + k
    requires !Bits.Has(Blk(d, l.bitmapStart + i)[j], k) && blockno < l.dataBlocks
    requires d' == d[l.bitmapStart + i := WithBit(Blk(d, l.bitmapStart + i), j * 8 + k)]
    ensures blockno < BITS_PER_BLOCK && Ok(d', l) && d' == Mark(d, l, blockno) && !Marked(d, l, blockno)
    ensures i == 0 && blockno == 8 * j + k
  {
    TakenIsMark(d, l, i, j, k, blockno);
    AllocatedInFirst(l, i, j, k);
    MarkOk(d, l, blockno);
  }

  lemma ScannedMarks(d: Disk, l: Layout, b: block, n: nat)
    requires b == Blk(d, l.bitmapStart) && ScannedTo(b, l, n) && n < l.dataBlocks && n < BITS_PER_BLOCK
    ensures forall a {:trigger Marked(d, l, a)} :: 0 < a < n ==> Marked(d, l, a)
  {
  }

  lemma NoneLeft(d: Disk, l: Layout, b: block)
    requires LayoutOk(l)
    ensures b == Blk(d, l.bitmapStart) && ScannedTo(b, l, BITS_PER_BLOCK) ==> Full(d, l)
  {
  }

  // ---- the two ways in which blocks are numbered

  /** A bit of the bitmap: a block of it, a byte and a place in the byte. */
  datatype MapBit = MapBit(i: nat, j: nat, k: nat)

  predicate BitIn(bitmapBlocks: nat, x: MapBit) {
    x.i < bitmapBlocks && x.j < BLOCK_SIZE && x.k < 8
  }

  /** The block that allocation takes a bit to stand for. */
  function BlockFor(x: MapBit): nat {
    x.i * BLOCK_SIZE + x.j * 8 + x.k
  }

  /** The bit that freeing a block clears. */
  function FreedBit(blockno: nat): MapBit {
    MapBit(blockno / BLOCK_SIZE, blockno % BLOCK_SIZE / 8, blockno % BLOCK_SIZE % 8)
  }

  /** No two bits stand for the same block of the volume. */
  ghost predicate NumbersDiffer(bitmapBlocks: nat, dataBlocks: nat) {
    forall x, y {:trigger BlockFor(x), BlockFor(y)} ::
      BitIn(bitmapBlocks, x) && BitIn(bitmapBlocks, y) && BlockFor(x) == BlockFor(y) < dataBlocks ==> x == y
  }

  /** Allocation gives every block one bit exactly when there is one bitmap block or there are at
      most 4096 data blocks: otherwise block 4096 has two. */
  lemma AllocationNumbering(bitmapBlocks: nat, dataBlocks: nat)
    requires bitmapBlocks >= 1
    ensures NumbersDiffer(bitmapBlocks, dataBlocks) <==> bitmapBlocks == 1 || dataBlocks <= BLOCK_SIZE
  {
    if bitmapBlocks == 1 || dataBlocks <= BLOCK_SIZE {
      forall x, y | BitIn(bitmapBlocks, x) && BitIn(bitmapBlocks, y) && BlockFor(x) == BlockFor(y) < dataBlocks
        ensures x == y {
        assert x.i == y.i;
        assert x.j == (x.j * 8 + x.k) / 8 && y.j == (y.j * 8 + y.k) / 8;
      }
    } else {
      var x, y := MapBit(0, 512, 0), MapBit(1, 0, 0);
      assert BlockFor(x) == BlockFor(y) == 4096 && x != y;
    }
  }

  /** Freeing clears the bit that allocation set, on a volume with one bitmap block, exactly for the
      blocks below 4096. */
  lemma FreeNumbering(x: MapBit)
    requires BitIn(1, x)
    ensures FreedBit(BlockFor(x)) == x <==> BlockFor(x) < BLOCK_SIZE
  {
    var n := x.j * 8 + x.k;
    assert n / 8 == x.j && n % 8 == x.k;
  }
}
