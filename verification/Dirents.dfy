/** Open files and directories of a volume. */
module Dirents {
  import opened Words
  import opened Blocks
  import opened Codec
  import opened DiskState
  import opened DiskFs
  import opened Directory

  /** An open file or directory, with a private copy of its inode. */
  class Dirent {
    const volume: Volume
    const inumber: nat
    const isdir: bool
    var size: word
    var refcount: int
    var disk: Inode

    /** The copy of the inode names what the inode on the disk names; its size may be newer. */
    ghost predicate Valid()
      reads this, volume, volume.cache
    {
      && volume.Valid() && size == disk.size && disk.inuse != 0
      && Current(volume.image, volume.disk, inumber, disk)
    }

    /** diskfs_dirent_create */
    constructor (volume: Volume, inumber: nat, kind: byte)
      requires volume.Valid() && inumber < Inodes(volume.disk) && InodeOf(volume.image, volume.disk, inumber).inuse != 0
      modifies volume.cache
      ensures Valid() && this.volume == volume && this.inumber == inumber && isdir == (kind == ITEM_DIR)
      ensures disk == InodeOf(volume.image, volume.disk, inumber) && refcount == 1
    {
      this.volume, this.inumber, isdir := volume, inumber, kind == ITEM_DIR;
      size, disk := 0, ZERO_INODE;
      refcount := 1;
      new;
      disk := volume.InodeLoad(inumber);
      size := disk.size;
    }

    /** diskfs_inode_read */
    method ReadBlock(i: nat) returns (r: int, b: block)
      requires Valid() && i < MAX_FILE_BLOCKS
      modifies volume.cache
      ensures Valid() && r == BLOCK_SIZE && b == File(volume.image, volume.disk, inumber, i)
    {
      var actual: int;
      ReadableRef(volume.image, volume.disk, inumber, i);
      if i < DIRECT_POINTERS {
        actual := disk.direct[i];
      } else {
        r, b := volume.DataBlockRead(disk.indirect);
        actual := PointerAt(b, i - DIRECT_POINTERS);
      }
      r, b := volume.DataBlockRead(actual);
    }

    /** How many blocks are left once block i has been written; negative when it cannot be. */
    ghost function Left(i: nat): int
      requires inumber < Inodes(volume.disk) && i < MAX_FILE_BLOCKS
      reads this, volume
    {
      Free(volume.image, volume.disk) - Missing(volume.image, volume.disk, inumber, i)
    }

    /** The direct case of diskfs_inode_write: block i of the file has a block of its own, or 0
        when there is no space. */
    method EnsureDirect(i: nat) returns (actual: int)
      requires Valid() && i < DIRECT_POINTERS
      modifies this`disk, volume`image, volume.cache
      ensures Valid() && Undisturbed(old(volume.image), volume.image, volume.disk, inumber, i)
      ensures Spends(old(volume.image), volume.image, volume.disk, inumber, 1)
      ensures actual == disk.direct[i] && disk.inuse == old(disk.inuse)
      ensures actual != 0 <==> old(HasSpace(volume.image, volume.disk, inumber, i))
      ensures actual != 0 ==> Free(volume.image, volume.disk) == old(Left(i))
      ensures actual == 0 ==> volume.image == old(volume.image) && Full(volume.image, volume.disk)
    {
      FullIsNoneFree(volume.image, volume.disk);
      actual := disk.direct[i];
      if actual == 0 {
        ghost var before := volume.image;
        actual := volume.DataBlockAlloc();
        if actual == 0 { return; }
        ghost var x := disk;
        DirectStep(before, volume.disk, inumber, x, i, actual);
        disk := disk.(direct := disk.direct[i := actual]);
        volume.InodeSave(inumber, disk);
      }
    }

    /** The indirect block of diskfs_inode_write, cleared when it is new. */
    method EnsureIndirect() returns (ok: bool)
      requires Valid()
      modifies this`disk, volume`image, volume.cache
      ensures Valid() && Undisturbed(old(volume.image), volume.image, volume.disk, inumber, -1)
      ensures Spends(old(volume.image), volume.image, volume.disk, inumber, 0)
      ensures disk.direct == old(disk.direct) && disk.size == old(disk.size) && disk.inuse == old(disk.inuse)
      ensures ok == (disk.indirect != 0)
      ensures old(disk.indirect) != 0 ==> volume.image == old(volume.image) && disk == old(disk)
      ensures !ok ==> volume.image == old(volume.image) && disk == old(disk) && Full(volume.image, volume.disk)
      ensures ok && old(disk.indirect) == 0 ==>
                && Data(volume.image, volume.disk, disk.indirect) == ZeroBlock()
                && Free(volume.image, volume.disk) == old(Free(volume.image, volume.disk)) - 1
    {
      ok := true;
      if disk.indirect == 0 {
        ghost var before, x := volume.image, disk;
        var actual := volume.DataBlockAlloc();
        if actual == 0 { return false; }
        IndirectStep(before, volume.disk, inumber, x, actual);
        disk := disk.(indirect := actual);
        volume.InodeSave(inumber, disk);
        var r := volume.DataBlockWrite(disk.indirect, ZeroBlock());
      }
    }

    /** The pointer of diskfs_inode_write within the indirect block; 0 when there is no space. */
    method EnsureEntry(j: nat) returns (actual: int)
      requires Valid() && j < POINTERS_PER_BLOCK && disk.indirect != 0
      modifies volume`image, volume.cache
      ensures Valid() && Undisturbed(old(volume.image), volume.image, volume.disk, inumber, DIRECT_POINTERS + j)
      ensures Spends(old(volume.image), volume.image, volume.disk, inumber, 1)
      ensures actual == Ptr(volume.image, volume.disk, Entry(inumber, j))
      ensures actual != 0 <==> old(HasSpace(volume.image, volume.disk, inumber, DIRECT_POINTERS + j))
      ensures actual != 0 ==> Free(volume.image, volume.disk) == old(Left(DIRECT_POINTERS + j))
      ensures actual == 0 ==> volume.image == old(volume.image) && Full(volume.image, volume.disk)
    {
      FullIsNoneFree(volume.image, volume.disk);
      ghost var before := volume.image;
      ReadableRef(before, volume.disk, inumber, DIRECT_POINTERS + j);
      var r, b := volume.DataBlockRead(disk.indirect);
      actual := PointerAt(b, j);
      if actual == 0 {
        actual := volume.DataBlockAlloc();
        if actual == 0 { return; }
        EntryStep(before, volume.disk, inumber, disk, j, actual);
        r := volume.DataBlockWrite(disk.indirect, SetPointer(b, j, actual));
      }
    }

    /** Where diskfs_inode_write puts block i; 0 when there is no space. */
    method EnsureBlock(i: nat) returns (actual: int)
      requires Valid() && i < MAX_FILE_BLOCKS
      modifies this`disk, volume`image, volume.cache
      ensures Valid() && Undisturbed(old(volume.image), volume.image, volume.disk, inumber, i)
              && disk.inuse == old(disk.inuse)
      ensures Spends(old(volume.image), volume.image, volume.disk, inumber, 1)
      ensures actual != 0 <==> old(HasSpace(volume.image, volume.disk, inumber, i))
      ensures actual != 0 ==>
                && actual == Ptr(volume.image, volume.disk, FileRef(inumber, i))
                && Free(volume.image, volume.disk) == old(Left(i))
      ensures actual == 0 ==>
                && Full(volume.image, volume.disk)
                && File(volume.image, volume.disk, inumber, i) == old(File(volume.image, volume.disk, inumber, i))
                     == ZeroBlock()
    {
      if i < DIRECT_POINTERS {
        actual := EnsureDirect(i);
      } else {
        ghost var before := volume.image;
        var ok := EnsureIndirect();
        if !ok {
          FullIsNoneFree(before, volume.disk);
          NoIndirectNoBlock(before, volume.disk, inumber, i);
          return 0;
        }
        ghost var middle := volume.image;
        if InodeOf(before, volume.disk, inumber).indirect == 0 {
          IndirectSpace(before, middle, volume.disk, inumber, i);
        }
        actual := EnsureEntry(i - DIRECT_POINTERS);
        UndisturbedTwice(before, middle, volume.image, volume.disk, inumber, i, -1);
      }
    }

    /** diskfs_inode_write: block i of this file becomes b, and nothing else changes in any file.
        It fails exactly when there are fewer free blocks than the write has to allocate, which is
        two where the file needs its indirect block as well; that too leaves every block of every
        file as it was. When it succeeds it has allocated that many. */
    method WriteBlock(b: block, i: nat) returns (r: int)
      requires Valid() && i < MAX_FILE_BLOCKS
      modifies this`disk, volume`image, volume.cache
      ensures Valid() && Undisturbed(old(volume.image), volume.image, volume.disk, inumber, i)
      ensures StillInUse(old(volume.image), volume.image, volume.disk)
      ensures Spends(old(volume.image), volume.image, volume.disk, inumber, 1)
      ensures r == if old(HasSpace(volume.image, volume.disk, inumber, i)) then 4096 else -20
      ensures r == 4096 ==>
                && File(volume.image, volume.disk, inumber, i) == b
                && Free(volume.image, volume.disk) == old(Left(i))
      ensures r == -20 ==>
                && Full(volume.image, volume.disk)
                && File(volume.image, volume.disk, inumber, i) == old(File(volume.image, volume.disk, inumber, i))
                     == ZeroBlock()
    {
      ghost var before := volume.image;
      var actual := EnsureBlock(i);
      ghost var named := volume.image;
      InUseAfter(before, named, volume.disk, inumber);
      if actual == 0 { return KERROR_OUT_OF_SPACE; }
      WriteStep(named, volume.disk, inumber, disk, i, b);
      r := volume.DataBlockWrite(actual, b);
      UndisturbedTwice(before, named, volume.image, volume.disk, inumber, i, i);
      InUseAfter(before, volume.image, volume.disk, inumber);
    }

    /** diskfs_dirent_resize */
    method Resize(size: word)
      modifies this`size, this`disk
      ensures this.size == size && disk == old(disk).(size := size)
    {
      this.size := size;
      disk := disk.(size := size);
    }

    /** The private copy of the inode, with its size, is saved. */
    method Save()
      requires Valid()
      modifies volume`image, volume.cache
      ensures Valid() && Undisturbed(old(volume.image), volume.image, volume.disk, inumber, -1)
      ensures StillInUse(old(volume.image), volume.image, volume.disk)
      ensures InodeOf(volume.image, volume.disk, inumber) == disk
              && Spends(old(volume.image), volume.image, volume.disk, inumber, 0)
      ensures volume.image == SaveInode(old(volume.image), volume.disk, inumber, disk)
    {
      ghost var before := volume.image;
      SaveStep(before, volume.disk, inumber, disk);
      volume.InodeSave(inumber, disk);
      InUseAfter(before, volume.image, volume.disk, inumber);
    }

    /** diskfs_dirent_close */
    method Close()
      requires Valid()
      modifies volume`image, volume.cache
      ensures Valid() && Undisturbed(old(volume.image), volume.image, volume.disk, inumber, -1)
      ensures StillInUse(old(volume.image), volume.image, volume.disk)
      ensures InodeOf(volume.image, volume.disk, inumber) == disk
              && Spends(old(volume.image), volume.image, volume.disk, inumber, 0)
      ensures old(InodeOf(volume.image, volume.disk, inumber)) == disk ==> volume.image == old(volume.image)
    {
      SaveAgain(volume.image, volume.disk, inumber);
      Save();
    }

    /** diskfs_dirent_lookup */
    method Lookup(name: Name) returns (t: Dirent?)
      requires Valid() && DirOk(volume.image, volume.disk, inumber, size)
      modifies volume.cache
      ensures Valid()
      ensures t == null <==> name !in DirMap(volume.image, volume.disk, inumber, size)
      ensures t != null ==> fresh(t) && t.Opens(volume, DirMap(volume.image, volume.disk, inumber, size)[name])
    {
      var nblocks := BlocksFor(size);
      ghost var items := Listing(volume.image, volume.disk, inumber, nblocks);
      var i := 0;
      while i < nblocks
        invariant 0 <= i <= nblocks && Valid() && Absent(items, i * ITEMS_PER_BLOCK, name)
      {
        var r, b := ReadBlock(i);
        var j := FindIn(b, name);
        if j < ITEMS_PER_BLOCK {
          FoundAt(volume.image, volume.disk, inumber, size, i, j, name);
          t := new Dirent(volume, ItemIn(b, j).inumber, ItemIn(b, j).kind);
          return;
        }
        NotInBlock(volume.image, volume.disk, inumber, nblocks, i, name);
        i := i + 1;
      }
      AbsentFromEntries(items, name);
      t := null;
    }

    /** The inode is saved after an entry was added to the disk as it was before. */
    method SaveAdded(ghost before: Disk, ghost oldSize: nat, ghost name: Name, ghost kind: byte, ghost inum: word)
      requires Valid() && oldSize <= MAX_FILE_BLOCKS * BLOCK_SIZE
      requires AddDone(before, volume.image, volume.disk, inumber, oldSize, size, name, kind, inum)
      modifies volume`image, volume.cache
      ensures Valid()
      ensures AddDone(before, volume.image, volume.disk, inumber, oldSize, size, name, kind, inum)
      ensures Spends(old(volume.image), volume.image, volume.disk, inumber, 0)
    {
      ghost var written := volume.image;
      Save();
      SavedAfterAdd(before, written, volume.image, volume.disk, inumber, oldSize, size, name, kind, inum, disk);
    }

    /** Item j of block i, which is blank and whose block reads b, is filled. */
    method FillSlot(b: block, i: nat, j: nat, name: Name, kind: byte, inum: word)
      requires Valid() && CanAdd(volume.image, volume.disk, inumber, size, name, kind, inum)
      requires i < BlocksFor(size) && j < ITEMS_PER_BLOCK
      requires b == File(volume.image, volume.disk, inumber, i) && ItemIn(b, j).kind == ITEM_BLANK
      requires i == EntryBlock(volume.image, volume.disk, inumber, 0, BlocksFor(size)) && NoBlank(b, j)
      modifies this`disk, this`size, volume`image, volume.cache
      ensures Valid()
      ensures AddDone(old(volume.image), volume.image, volume.disk, inumber, old(size), size, name, kind, inum)
      ensures Spends(old(volume.image), volume.image, volume.disk, inumber, 1)
    {
      hide AddDone, EntryBlock, HasSpace, Undisturbed, DiskState.Ok;
      ghost var before, oldSize := volume.image, size;
      var e := NewItem(ItemIn(b, j), name, kind, inum);
      // the result is not looked at
      var r := WriteBlock(SetItem(b, j, e), i);
      ghost var written := volume.image;
      assert NameOf(e) == name && e.kind == kind && e.inumber == inum;
      FillStep(before, written, volume.disk, inumber, size, i, j, e, r == BLOCK_SIZE);
      var newsize := i * BLOCK_SIZE + (j + 1) * ITEM_SIZE;
      NewSize(size, i, j, newsize);
      if newsize > size {
        Resize(newsize);
        SaveAdded(before, oldSize, name, kind, inum);
      }
    }

    method WriteNewBlock(ghost oldSize: nat, i: nat, e: Item)
      requires Valid() && CanAdd(volume.image, volume.disk, inumber, oldSize, NameOf(e), e.kind, e.inumber)
      requires i == BlocksFor(oldSize) && oldSize == i * BLOCK_SIZE && i < MAX_FILE_BLOCKS
               && size == oldSize + ITEM_SIZE
      requires i == EntryBlock(volume.image, volume.disk, inumber, 0, i)
      requires e.nameLength <= NAME_MAX == |e.field|
      modifies this`disk, volume`image, volume.cache
      ensures Valid()
      ensures AddDone(old(volume.image), volume.image, volume.disk, inumber, oldSize, size, NameOf(e), e.kind,
                      e.inumber)
      ensures Spends(old(volume.image), volume.image, volume.disk, inumber, 1)
    {
      ghost var before := volume.image;
      // the result is not looked at
      var r := WriteBlock(SetItem(ZeroBlock(), 0, e), i);
      AppendStep(before, volume.image, volume.disk, inumber, oldSize, i, e, r == BLOCK_SIZE);
    }

    /** A new block with the entry as its first item goes behind block i - 1, the last one. */
    method AppendBlock(i: nat, name: Name, kind: byte, inum: word)
      requires Valid() && CanAdd(volume.image, volume.disk, inumber, size, name, kind, inum)
      requires i == BlocksFor(size) && size == i * BLOCK_SIZE && i < MAX_FILE_BLOCKS
      requires i == EntryBlock(volume.image, volume.disk, inumber, 0, i)
      modifies this`disk, this`size, volume`image, volume.cache
      ensures Valid()
      ensures AddDone(old(volume.image), volume.image, volume.disk, inumber, old(size), size, name, kind, inum)
      ensures Spends(old(volume.image), volume.image, volume.disk, inumber, 1)
    {
      ghost var before, oldSize := volume.image, size;
      SizeGrown(size, i);
      Resize(size + ITEM_SIZE);
      WriteNewBlock(oldSize, i, NewItem(ItemIn(ZeroBlock(), 0), name, kind, inum));
      SaveAdded(before, oldSize, name, kind, inum);
    }

    /** diskfs_dirent_add. The result of the write is not looked at: without room for the block that
        the entry goes to, the entry is not there afterwards. */
    method Add(name: Name, kind: byte, inum: word)
      requires Valid() && CanAdd(volume.image, volume.disk, inumber, size, name, kind, inum)
      modifies this`disk, this`size, volume`image, volume.cache
      ensures Valid()
      ensures AddDone(old(volume.image), volume.image, volume.disk, inumber, old(size), size, name, kind, inum)
      ensures Spends(old(volume.image), volume.image, volume.disk, inumber, 1)
    {
      var nblocks := BlocksFor(size);
      ghost var items := Listing(volume.image, volume.disk, inumber, nblocks);
      var i := 0;
      while i < nblocks
        invariant 0 <= i <= nblocks && Valid() && size == old(size) && volume.image == old(volume.image)
        invariant EntryBlock(volume.image, volume.disk, inumber, 0, nblocks)
                    == EntryBlock(volume.image, volume.disk, inumber, i, nblocks)
      {
        var r, b := ReadBlock(i);
        var j := FirstBlank(b);
        if j < ITEMS_PER_BLOCK {
          FillSlot(b, i, j, name, kind, inum);
          return;
        }
        i := i + 1;
      }
      UsedBlocks(volume.image, volume.disk, inumber, nblocks, nblocks);
      FullDirectory(items, size);
      AppendBlock(i, name, kind, inum);
    }

    /** A free inode is taken and made empty; 0 when there is none. */
    method NewInode() returns (inum: nat)
      requires Valid() && InodeOf(volume.image, volume.disk, 0).inuse != 0
      modifies volume`image, volume.cache
      ensures Valid()
      ensures inum == 0 <==> NoInode(old(volume.image), volume.disk)
      ensures inum == 0 ==> volume.image == old(volume.image)
      ensures inum != 0 ==> inum != inumber && Emptied(old(volume.image), volume.image, volume.disk, inum)
    {
      ghost var before := volume.image;
      inum := volume.InumberAlloc();
      if inum != 0 {
        ghost var taken := volume.image;
        volume.InodeSave(inum, EMPTY_INODE);
        TakenThenEmptied(before, taken, volume.image, volume.disk, inum);
      }
    }

    /** The part of diskfs_dirent_create_file_or_dir for a name that is not taken. */
    method CreateNew(name: Name, kind: byte) returns (t: Dirent?)
      requires Valid() && DirOk(volume.image, volume.disk, inumber, size) && size < MAX_FILE_BLOCKS * BLOCK_SIZE
      requires kind != ITEM_BLANK && InodeOf(volume.image, volume.disk, 0).inuse != 0
      requires |name| <= NAME_MAX && name !in DirMap(volume.image, volume.disk, inumber, size)
      modifies this`disk, this`size, volume`image, volume.cache
      ensures Valid()
      ensures t == null <==> NoInode(old(volume.image), volume.disk)
      ensures t == null ==> volume.image == old(volume.image) && size == old(size) && disk == old(disk)
      ensures t != null ==> fresh(t) && t.inumber < WORD && t.Opens(volume, (t.inumber, kind))
                            && Created(old(volume.image), volume.image, volume.disk, inumber, old(size), size, name,
                                       kind, t.inumber)
                            && Takes(old(volume.image), volume.image, volume.disk, 2)
    {
      hide DirOk, Created, AddDone, Emptied, CanAdd, EntrySpace, EntrySlot;
      ghost var before, oldSize := volume.image, size;
      var inum := NewInode();
      if inum == 0 { return null; }
      ghost var emptied := volume.image;
      CanAddToEmptied(before, emptied, volume.disk, inumber, size, name, kind, inum);
      Add(name, kind, inum);
      CreatedStep(before, emptied, volume.image, volume.disk, inumber, oldSize, size, name, kind, inum);
      t := new Dirent(volume, inum, kind);
    }

    /** diskfs_dirent_create_file_or_dir: it fails exactly when the name is too long or taken or
        there is no free inode, and then changes nothing. When it succeeds, the name is in the
        directory exactly when there was room for it. */
    method Create(name: Name, kind: byte) returns (t: Dirent?)
      requires Valid() && DirOk(volume.image, volume.disk, inumber, size) && size < MAX_FILE_BLOCKS * BLOCK_SIZE
      requires kind != ITEM_BLANK && InodeOf(volume.image, volume.disk, 0).inuse != 0
      modifies this`disk, this`size, volume`image, volume.cache
      ensures Valid()
      ensures t == null <==> || |name| > NAME_MAX || name in old(DirMap(volume.image, volume.disk, inumber, size))
                             || NoInode(old(volume.image), volume.disk)
      ensures t == null ==> volume.image == old(volume.image) && size == old(size) && disk == old(disk)
      ensures t != null ==> fresh(t) && t.inumber < WORD && t.Opens(volume, (t.inumber, kind))
                            && Created(old(volume.image), volume.image, volume.disk, inumber, old(size), size, name,
                                       kind, t.inumber)
                            && Takes(old(volume.image), volume.image, volume.disk, 2)
    {
      if |name| > NAME_MAX { return null; }
      t := Lookup(name);
      if t != null {
        t.Close();
        return null;
      }
      t := CreateNew(name, kind);
    }

    /** A freshly opened dirent for what a directory entry names. */
    ghost predicate Opens(v: Volume, entry: (word, byte))
      reads this, v, v.cache
    {
      && volume == v && Valid() && inumber == entry.0 && isdir == (entry.1 == ITEM_DIR)
      && disk == InodeOf(v.image, v.disk, inumber) && refcount == 1
    }
  }

  /** The first item of a directory block with the given name, or 128. */
  method FindIn(b: block, name: Name) returns (j: nat)
    ensures j <= ITEMS_PER_BLOCK && (j < ITEMS_PER_BLOCK ==> Is(ItemIn(b, j), name))
    ensures NotAmong(b, j, name)
  {
    j := 0;
    while j < ITEMS_PER_BLOCK
      invariant 0 <= j <= ITEMS_PER_BLOCK && NotAmong(b, j, name)
    {
      if Is(ItemIn(b, j), name) { return; }
      j := j + 1;
    }
  }

  /** None of the first n items of a block has the name. */
  ghost predicate NotAmong(b: block, n: nat, name: Name) {
    forall k {:trigger ItemIn(b, k)} :: 0 <= k < n && k < ITEMS_PER_BLOCK ==> !Is(ItemIn(b, k), name)
  }

  /** The first blank item of a directory block, or 128. */
  method FirstBlank(b: block) returns (j: nat)
    ensures j <= ITEMS_PER_BLOCK && (j < ITEMS_PER_BLOCK ==> ItemIn(b, j).kind == ITEM_BLANK)
    ensures NoBlank(b, j)
  {
    j := 0;
    while j < ITEMS_PER_BLOCK
      invariant 0 <= j <= ITEMS_PER_BLOCK && NoBlank(b, j)
    {
      if ItemIn(b, j).kind == ITEM_BLANK { return; }
      j := j + 1;
    }
  }

  lemma TakenThenEmptied(d: Disk, d1: Disk, d2: Disk, l: Layout, n: nat)
    requires Ok(d, l) && TookInode(d, d1, l, n) && d2 == SaveInode(d1, l, n, EMPTY_INODE)
    ensures Ok(d2, l) && Emptied(d, d2, l, n)
    ensures forall m: nat {:trigger InodeOf(d, l, m)} ::
              m < Inodes(l) && InodeOf(d, l, m).inuse != 0 ==> InodeOf(d2, l, m) == InodeOf(d, l, m)
  {
    EmptyStep(d, l, n, InodeOf(d, l, n).(inuse := 1));
  }

  lemma NewSize(size: nat, i: nat, j: nat, newsize: nat)
    requires newsize == i * BLOCK_SIZE + (j + 1) * ITEM_SIZE
    ensures SizeWith(size, i * ITEMS_PER_BLOCK + j) == if newsize > size then newsize else size
  {
  }

  lemma FoundAt(d: Disk, l: Layout, n: nat, size: nat, i: nat, j: nat, name: Name)
    requires DirOk(d, l, n, size) && i < BlocksFor(size) && j < ITEMS_PER_BLOCK
    requires Is(ItemIn(File(d, l, n, i), j), name)
    ensures var e := ItemIn(File(d, l, n, i), j);
            && name in DirMap(d, l, n, size) && DirMap(d, l, n, size)[name] == (e.inumber, e.kind)
            && e.inumber < Inodes(l) && InodeOf(d, l, e.inumber).inuse != 0
  {
    var s := i * ITEMS_PER_BLOCK + j;
    SlotNumber(i, j);
    var items := Listing(d, l, n, BlocksFor(size));
    assert items[s] == ItemOf(d, l, n, s) && Fits(d, l, items[s]);
    EntryAt(items, s);
  }

  lemma NotInBlock(d: Disk, l: Layout, n: nat, blocks: nat, i: nat, name: Name)
    requires n < Inodes(l) && i < blocks <= MAX_FILE_BLOCKS && NotAmong(File(d, l, n, i), ITEMS_PER_BLOCK, name)
    requires Absent(Listing(d, l, n, blocks), i * ITEMS_PER_BLOCK, name)
    ensures Absent(Listing(d, l, n, blocks), (i + 1) * ITEMS_PER_BLOCK, name)
  {
    var items := Listing(d, l, n, blocks);
    forall s: nat | s < (i + 1) * ITEMS_PER_BLOCK && s < |items| ensures !Is(items[s], name) {
      if i * ITEMS_PER_BLOCK <= s {
        SlotNumber(i, s - i * ITEMS_PER_BLOCK);
        assert !Is(ItemIn(File(d, l, n, i), s - i * ITEMS_PER_BLOCK), name);
      }
    }
  }
}
