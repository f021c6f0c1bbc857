/** The whole disk stack at work: what is written to a file is there after the volume has been
    closed and opened again through an empty cache. */
module Persistence {
  import opened Words
  import opened Blocks
  import opened Codec
  import opened DiskState
  import opened DiskFs
  import opened Directory
  import opened Dirents
  import opened Format
  import opened Fs
  import Bcache
  import Bits

  datatype FileWrite = FileWrite(offset: nat, bytes: seq<byte>)

  /** A file after a run of writes. */
  ghost function Spliced(bytes: seq<byte>, writes: seq<FileWrite>): seq<byte> {
    if writes == [] then bytes
    else
      var n := |writes| - 1;
      Splice(Spliced(bytes, writes[..n]), writes[n].offset, writes[n].bytes)
  }

  /** The blocks that a run of writes touches. */
  ghost function Needs(writes: seq<FileWrite>): nat {
    if writes == [] then 0
    else
      var n := |writes| - 1;
      Needs(writes[..n]) + Span(writes[n].offset, |writes[n].bytes|)
  }

  predicate Fits(w: FileWrite) {
    w.offset + |w.bytes| <= MAX_BYTES
  }

  lemma {:induction false} SplicedSize(bytes: seq<byte>, writes: seq<FileWrite>)
    requires |bytes| <= MAX_BYTES && forall i :: 0 <= i < |writes| ==> Fits(writes[i])
    ensures |Spliced(bytes, writes)| <= MAX_BYTES
  {
    if writes != [] { SplicedSize(bytes, writes[..|writes| - 1]); }
  }

  lemma {:induction false} NeedsGrow(writes: seq<FileWrite>, i: nat)
    requires i <= |writes|
    ensures Needs(writes[..i]) <= Needs(writes)
  {
    var n := |writes| - 1;
    if i <= n {
      assert writes[..n][..i] == writes[..i];
      NeedsGrow(writes[..n], i);
    } else {
      assert writes[..i] == writes;
    }
  }

  lemma OtherFilesAtFirst(d: Disk, l: Layout, n: nat)
    ensures OtherFiles(d, d, l, n) && StillInUse(d, d, l)
  {
  }

  /** A run of writes to an open file, with enough free blocks for it. */
  method WriteEach(f: Dirent, writes: seq<FileWrite>, ghost bytes: seq<byte>)
    requires f.Valid() && f.size == |bytes| <= MAX_BYTES && FileIs(f.volume.image, f.volume.disk, f.inumber, bytes)
    requires forall i :: 0 <= i < |writes| ==> Fits(writes[i])
    requires Needs(writes) < Room(f.volume.image, f.volume.disk, f.inumber)
    modifies f`size, f`disk, f.volume`image, f.volume.cache
    ensures f.Valid() && f.size == |Spliced(bytes, writes)|
    ensures FileIs(f.volume.image, f.volume.disk, f.inumber, Spliced(bytes, writes))
    ensures OtherFiles(old(f.volume.image), f.volume.image, f.volume.disk, f.inumber)
    ensures StillInUse(old(f.volume.image), f.volume.image, f.volume.disk)
  {
    hide Full, FileIs, OtherFiles, StillInUse, Wrote, DiskState.Ok, SameBlocks;
    ghost var before := f.volume.image;
    OtherFilesAtFirst(before, f.volume.disk, f.inumber);
    var i := 0;
    while i < |writes|
      invariant 0 <= i <= |writes| && f.Valid() && f.size == |Spliced(bytes, writes[..i])| <= MAX_BYTES
      invariant FileIs(f.volume.image, f.volume.disk, f.inumber, Spliced(bytes, writes[..i]))
      invariant OtherFiles(before, f.volume.image, f.volume.disk, f.inumber)
      invariant StillInUse(before, f.volume.image, f.volume.disk)
      invariant Spends(before, f.volume.image, f.volume.disk, f.inumber, Needs(writes[..i]))
    {
      ghost var middle := f.volume.image;
      assert writes[..i + 1][..i] == writes[..i];
      NeedsGrow(writes, i + 1);
      assert Fits(writes[i]);
      var r := Write(f, writes[i].bytes, writes[i].offset);
      FullIsNoneFree(f.volume.image, f.volume.disk);
      WriteSplices(middle, f.volume.image, f.volume.disk, f.inumber, Spliced(bytes, writes[..i]), writes[i].offset,
                   writes[i].bytes);
      OtherFilesAgain(before, middle, f.volume.image, f.volume.disk, f.inumber);
      i := i + 1;
    }
    assert writes[..i] == writes;
  }

  lemma OtherFilesAgain(d: Disk, d1: Disk, d2: Disk, l: Layout, n: nat)
    requires OtherFiles(d, d1, l, n) && StillInUse(d, d1, l) && OtherFiles(d1, d2, l, n) && StillInUse(d1, d2, l)
    ensures OtherFiles(d, d2, l, n) && StillInUse(d, d2, l)
  {
    forall m: nat | m < Inodes(l)
      ensures (InodeOf(d, l, m).inuse != 0 ==> InodeOf(d2, l, m).inuse != 0)
              && (m != n ==> InodeOf(d2, l, m) == InodeOf(d, l, m)) {
      assert InodeOf(d, l, m).inuse != 0 ==> InodeOf(d1, l, m).inuse != 0;
      assert m != n ==> InodeOf(d1, l, m) == InodeOf(d, l, m);
    }
    forall m: nat, j: nat | m < Inodes(l) && j < MAX_FILE_BLOCKS && m != n
      ensures File(d2, l, m, j) == File(d, l, m, j) {
      assert File(d1, l, m, j) == File(d, l, m, j);
    }
  }

  type Dir = map<Name, (word, byte)>

  /** A volume with this root directory, which has a regular file of this name with exactly these
      bytes. */
  ghost predicate Stored(d: Disk, l: Layout, entries: Dir, name: Name, bytes: seq<byte>) {
    && Ok(d, l) && Blk(d, 0) == EncodeSuperblock(l) && HasRoot(d, l, InodeOf(d, l, 0).size, entries)
    && name in entries && entries[name].1 == ITEM_FILE
    && var n: nat := entries[name].0;
       n < Inodes(l) && InodeOf(d, l, n).inuse != 0 && InodeOf(d, l, n).size == |bytes| && FileIs(d, l, n, bytes)
  }

  /** The root directory, of this size, means this. */
  ghost predicate HasRoot(d: Disk, l: Layout, size: nat, entries: Dir) {
    DirOk(d, l, 0, size) && InodeOf(d, l, 0).inuse != 0 && DirMap(d, l, 0, size) == entries
  }

  lemma RootKept(d: Disk, d': Disk, l: Layout, size: nat, entries: Dir)
    requires HasRoot(d, l, size, entries) && StillInUse(d, d', l) && OtherBlocksOf(d, d', l, 0)
    ensures HasRoot(d', l, size, entries)
  {
    DirKeptBlocks(d, d', l, 0, size);
  }

  /** Every file but the root and file n is as before. */
  lemma KeptTwice(d: Disk, d1: Disk, d2: Disk, l: Layout, n: nat)
    requires OthersKept(d, d1, l, 0, n) && OthersKept(d1, d2, l, 0, n)
    ensures OthersKept(d, d2, l, 0, n)
  {
    forall m: nat | m < Inodes(l) && m != 0 && m != n ensures InodeOf(d2, l, m) == InodeOf(d, l, m) {
      assert InodeOf(d1, l, m) == InodeOf(d, l, m);
    }
    forall m: nat, j: nat | m < Inodes(l) && j < MAX_FILE_BLOCKS && m != 0 && m != n
      ensures File(d2, l, m, j) == File(d, l, m, j) {
      assert File(d1, l, m, j) == File(d, l, m, j);
    }
  }

  /** A volume to which a file of this name can be added, with room for these writes. */
  ghost predicate Usable(d: Disk, l: Layout, entries: Dir, name: Name, writes: seq<FileWrite>) {
    && Ok(d, l) && Blk(d, 0) == EncodeSuperblock(l)
    && HasRoot(d, l, InodeOf(d, l, 0).size, entries) && InodeOf(d, l, 0).size < MAX_BYTES
    && |name| <= NAME_MAX && name != DOT && name !in entries && !NoInode(d, l)
    && (forall i :: 0 <= i < |writes| ==> Fits(writes[i])) && Needs(writes) + 4 <= Free(d, l)
  }

  /** A new file is made in the root directory of a volume. */
  method Make(root: Dirent, name: Name, ghost entries: Dir) returns (f: Dirent)
    requires root.Valid() && root.inumber == 0 && root.refcount == 1 && root.size < MAX_BYTES
    requires HasRoot(root.volume.image, root.volume.disk, root.size, entries)
    requires |name| <= NAME_MAX && name !in entries && !NoInode(root.volume.image, root.volume.disk)
    requires 4 <= Free(root.volume.image, root.volume.disk)
    modifies root`disk, root`size, root.volume`image, root.volume`refcount, root.volume.cache
    ensures root.Valid() && f.Valid() && fresh(f) && f.volume == root.volume && f.refcount == 1 && f.inumber != 0
            && f.size == 0
    ensures f.inumber < WORD && root.volume.refcount == old(root.volume.refcount) + 1
    ensures InodeOf(old(root.volume.image), root.volume.disk, f.inumber).inuse == 0
    ensures HasRoot(root.volume.image, root.volume.disk, root.size, entries[name := (f.inumber, ITEM_FILE)])
    ensures FileIs(f.volume.image, f.volume.disk, f.inumber, [])
    ensures OthersKept(old(root.volume.image), root.volume.image, root.volume.disk, 0, f.inumber)
    ensures old(Free(root.volume.image, root.volume.disk)) <= Room(f.volume.image, f.volume.disk, f.inumber) + 3
  {
    TwoAreEnough(root.volume.image, root.volume.disk, 0, root.size);
    var t := Mkfile(root, name);
    f := t;
    HolesAreEmpty(root.volume.image, root.volume.disk, f.inumber);
  }

  /** A new file is made in the root directory of a volume, and written. */
  method MakeAndWrite(root: Dirent, name: Name, writes: seq<FileWrite>, ghost entries: Dir) returns (f: Dirent)
    requires root.Valid() && root.inumber == 0 && root.refcount == 1 && root.size < MAX_BYTES
    requires HasRoot(root.volume.image, root.volume.disk, root.size, entries)
    requires |name| <= NAME_MAX && name !in entries && !NoInode(root.volume.image, root.volume.disk)
    requires forall i :: 0 <= i < |writes| ==> Fits(writes[i])
    requires Needs(writes) + 4 <= Free(root.volume.image, root.volume.disk)
    modifies root`disk, root`size, root.volume`image, root.volume`refcount, root.volume.cache
    ensures root.Valid() && f.Valid() && fresh(f) && f.volume == root.volume && f.refcount == 1 && f.inumber != 0
    ensures f.inumber < WORD && root.volume.refcount == old(root.volume.refcount) + 1
    ensures InodeOf(old(root.volume.image), root.volume.disk, f.inumber).inuse == 0
    ensures HasRoot(root.volume.image, root.volume.disk, root.size, entries[name := (f.inumber, ITEM_FILE)])
    ensures FileIs(f.volume.image, f.volume.disk, f.inumber, Spliced([], writes)) && f.size == |Spliced([], writes)|
    ensures OthersKept(old(root.volume.image), root.volume.image, root.volume.disk, 0, f.inumber)
  {
    hide DirOk, Room, OthersKept, OtherFiles, StillInUse;
    ghost var before, l := root.volume.image, root.volume.disk;
    f := Make(root, name, entries);
    ghost var made := root.volume.image;
    WriteRootLeft(f, root, writes, entries[name := (f.inumber, ITEM_FILE)]);
    KeptTwice(before, made, root.volume.image, l, f.inumber);
  }

  /** The new file is written; the root directory is not touched. */
  method WriteRootLeft(f: Dirent, root: Dirent, writes: seq<FileWrite>, ghost entries: Dir)
    requires f.Valid() && root.Valid() && f != root && f.volume == root.volume && root.inumber == 0 != f.inumber
             && f.size == 0
    requires HasRoot(root.volume.image, root.volume.disk, root.size, entries)
    requires FileIs(f.volume.image, f.volume.disk, f.inumber, [])
    requires forall i :: 0 <= i < |writes| ==> Fits(writes[i])
    requires Needs(writes) < Room(f.volume.image, f.volume.disk, f.inumber)
    modifies f`size, f`disk, f.volume`image, f.volume.cache
    ensures f.Valid() && root.Valid() && HasRoot(root.volume.image, root.volume.disk, root.size, entries)
    ensures FileIs(f.volume.image, f.volume.disk, f.inumber, Spliced([], writes)) && f.size == |Spliced([], writes)|
    ensures OthersKept(old(root.volume.image), root.volume.image, root.volume.disk, 0, f.inumber)
  {
    ghost var made, l := root.volume.image, root.volume.disk;
    WriteEach(f, writes, []);
    assert OtherBlocksOf(made, f.volume.image, l, 0);
    RootKept(made, f.volume.image, l, root.size, entries);
    assert InodeOf(f.volume.image, l, 0) == InodeOf(made, l, 0);
  }

  /** One of the root and the new file is closed; another file or directory means what it meant. */
  method CloseOne(d: Dirent, ghost size: nat, ghost entries: Dir, ghost n: nat, ghost bytes: seq<byte>)
    requires d.Valid() && d.refcount == 1 && d.volume.refcount > 1 && n < Inodes(d.volume.disk)
             && (d.inumber == 0 || d.inumber == n)
    requires HasRoot(d.volume.image, d.volume.disk, size, entries) && FileIs(d.volume.image, d.volume.disk, n, bytes)
    modifies d`refcount, d.volume`image, d.volume`refcount, d.volume.cache
    ensures d.Valid() && d.refcount == 0 && d.volume.refcount == old(d.volume.refcount) - 1
    ensures InodeOf(d.volume.image, d.volume.disk, d.inumber) == d.disk
    ensures OtherInodes(old(d.volume.image), d.volume.image, d.volume.disk, d.inumber)
    ensures HasRoot(d.volume.image, d.volume.disk, size, entries) && FileIs(d.volume.image, d.volume.disk, n, bytes)
    ensures OthersKept(old(d.volume.image), d.volume.image, d.volume.disk, 0, n)
  {
    ghost var before, l := d.volume.image, d.volume.disk;
    DirentClose(d);
    assert OtherBlocksOf(before, d.volume.image, l, 0) && OtherBlocksOf(before, d.volume.image, l, n);
    RootKept(before, d.volume.image, l, size, entries);
    FileKept(before, d.volume.image, l, n, bytes);
  }

  /** Both are closed, and then the volume. */
  method CloseAll(root: Dirent, f: Dirent, name: Name, ghost entries: Dir, ghost bytes: seq<byte>)
    requires root.Valid() && f.Valid() && f.volume == root.volume && f != root && f.inumber != 0 && root.inumber == 0
    requires f.refcount == 1 && root.refcount == 1 && root.volume.refcount == 3
    requires HasRoot(root.volume.image, root.volume.disk, root.size, entries)
    requires f.inumber < WORD && name in entries && entries[name] == (f.inumber, ITEM_FILE)
    requires FileIs(f.volume.image, f.volume.disk, f.inumber, bytes) && f.size == |bytes|
    requires Blk(root.volume.image, 0) == EncodeSuperblock(root.volume.disk)
    modifies root`refcount, f`refcount, root.volume`refcount, root.volume`image, root.volume.cache
    ensures root.volume.Synced() && root.volume.refcount == 0 && OnDevice(root.volume)
    ensures Stored(root.volume.image, root.volume.disk, entries, name, bytes)
    ensures OthersKept(old(root.volume.image), root.volume.image, root.volume.disk, 0, f.inumber)
  {
    hide DirOk, FileIs, HasRoot, OthersKept;
    ghost var d0, l := root.volume.image, root.volume.disk;
    CloseOne(f, root.size, entries, f.inumber, bytes);
    ghost var d1 := root.volume.image;
    assert InodeOf(d1, l, 0) == InodeOf(d0, l, 0);
    CloseOne(root, root.size, entries, f.inumber, bytes);
    ghost var d2 := root.volume.image;
    assert InodeOf(d2, l, f.inumber) == InodeOf(d1, l, f.inumber);
    KeptTwice(d0, d1, d2, l, f.inumber);
    VolumeClose(root.volume);
  }

  /** The volume on a device is opened, and its root directory. */
  method OpenRoot(cache: Bcache.Cache, device: int, ghost l: Layout, ghost entries: Dir) returns (root: Dirent)
    requires cache.Valid() && var d := DeviceOf(cache.View(), device);
             Ok(d, l) && Blk(d, 0) == EncodeSuperblock(l) && HasRoot(d, l, InodeOf(d, l, 0).size, entries)
    modifies cache
    ensures fresh(root) && fresh(root.volume) && root.volume.cache == cache && root.volume.device == device
            && root.volume.disk == l
    ensures root.Opens(root.volume, (0, ITEM_DIR)) && root.volume.refcount == 2
    ensures root.volume.image == DeviceOf(old(cache.View()), device)
  {
    hide EncodeSuperblock, DecodeLayout, WordAt, Ok, DirOk;
    SuperblockRoundTrip(l);
    SuperblockStored(l);
    var maybe := VolumeOpen(cache, device);
    root := VolumeRoot(maybe);
  }

  /** The name is looked up and the file read from end to end. */
  method FetchBack(root: Dirent, name: Name, ghost entries: Dir, ghost bytes: seq<byte>) returns (data: seq<byte>)
    requires root.Opens(root.volume, (0, ITEM_DIR)) && name != DOT
    requires Stored(root.volume.image, root.volume.disk, entries, name, bytes)
    modifies root`refcount, root.volume`refcount, root.volume.cache
    ensures data == bytes
  {
    var t := Lookup(root, name);
    var r;
    r, data := Read(t, t.size, 0, false);
    ReadSlices(root.volume.image, root.volume.disk, t.inumber, bytes, 0, data);
  }

  lemma NoBits(m: nat, j: nat)
    requires m <= 3 && j >= 2
    ensures !Bits.Has(m, j)
  {
    Bits.HasNone(j - 2);
    assert Bits.Has(m, j) == Bits.Has(m / 2, j - 1) == Bits.Has(m / 2 / 2, j - 2);
  }

  lemma FormattedMark(d: Disk, d': Disk, l: Layout, k: nat)
    requires Formatted(d, d', l) && 2 <= k < BITS_PER_BLOCK
    ensures !Marked(d', l, k)
  {
    Bits.HasNone(k % 8);
    if k < 8 { NoBits(3, k % 8); }
  }

  /** A freshly formatted volume has room for everything but the root directory. */
  lemma FormattedRoom(d: Disk, d': Disk, l: Layout)
    requires Formatted(d, d', l) && LayoutOk(l)
    ensures Free(d', l) == l.dataBlocks - 2
  {
    FormattedMarks(d, d', l);
    forall k: nat | 2 <= k < l.dataBlocks ensures !Marked(d', l, k) { FormattedMark(d, d', l, k); }
    IntervalSize(FreeSet(d', l), 2, l.dataBlocks);
  }

  /** A new volume: well formed, with an empty root directory and everything else free. */
  ghost predicate NewVolume(d: Disk, l: Layout) {
    && Ok(d, l) && Blk(d, 0) == EncodeSuperblock(l) && InodeOf(d, l, 0) == ROOT_INODE
    && DirOk(d, l, 0, ITEM_SIZE) && DirMap(d, l, 0, ITEM_SIZE) == map[DOT := (0, ITEM_DIR)]
    && !NoInode(d, l) && Free(d, l) == l.dataBlocks - 2
  }

  lemma FormattedIsNew(d: Disk, d': Disk, l: Layout)
    requires Formatted(d, d', l) && LayoutOk(l) && Data(d, l, 0) == ZeroBlock()
    ensures NewVolume(d', l)
  {
    FormattedOk(d, d', l);
    FormattedInodes(d, d', l);
    FormattedRoot(d, d', l);
    FormattedRoom(d, d', l);
    assert InodeOf(d', l, 1).inuse == 0;
  }

  /** Where creation succeeds and the name is lost: a device of 32 blocks has one to spare, block 2;
      when it is taken, no name can be stored in a new directory, inode 1, which has no block yet. */
  lemma NameLost(d: Disk, d': Disk, d1: Disk, l: Layout, name: Name)
    requires l == FormatLayout(32) && Formatted(d, d', l) && Data(d, l, 0) == ZeroBlock() && |name| <= NAME_MAX
    requires d1 == SaveInode(SaveInode(Mark(d', l, 2), l, 1, EMPTY_INODE), l, 1, EMPTY_INODE)
    ensures Ok(d1, l) && CanAdd(d1, l, 1, 0, name, ITEM_FILE, 1) && !EntrySpace(d1, l, 1, 0)
  {
    hide DirOk, Formatted, EntryBlock;
    FormatNumbering(32);
    FormattedOk(d, d', l);
    FormattedInodes(d, d', l);
    FormattedRoom(d, d', l);
    MarkOk(d', l, 2);
    MarkEffect(d', l, 2);
    FormattedMark(d, d', l, 2);
    TakeOne(d', l, 2);
    assert InodeOf(Mark(d', l, 2), l, 1) == InodeOf(d', l, 1);
    EmptyStep(Mark(d', l, 2), l, 1, EMPTY_INODE);
    assert InodeOf(d1, l, 1) == EMPTY_INODE;
    EmptyDirectory(d1, l, 1);
  }

  /** A file without a block is an empty directory. */
  lemma EmptyDirectory(d: Disk, l: Layout, n: nat)
    requires n < Inodes(l) && InodeOf(d, l, n) == EMPTY_INODE
    ensures DirOk(d, l, n, 0) && DirMap(d, l, n, 0) == map[] && EntryBlock(d, l, n, 0, BlocksFor(0)) == 0
    ensures Ptr(d, l, FileRef(n, 0)) == 0
  {
    assert Listing(d, l, n, 0) == [];
  }

  /** An open volume gets a file, which is written in any way; then everything is closed. */
  method WriteOut(root: Dirent, name: Name, writes: seq<FileWrite>, ghost entries: Dir) returns (ghost n: word)
    requires root.Opens(root.volume, (0, ITEM_DIR)) && root.volume.refcount == 2
    requires Usable(root.volume.image, root.volume.disk, entries, name, writes)
    modifies root, root.volume, root.volume.cache
    ensures root.volume.Synced() && OnDevice(root.volume)
            && InodeOf(old(root.volume.image), root.volume.disk, n).inuse == 0
    ensures Stored(root.volume.image, root.volume.disk, entries[name := (n, ITEM_FILE)], name, Spliced([], writes))
    ensures OthersKept(old(root.volume.image), root.volume.image, root.volume.disk, 0, n)
  {
    hide DirOk, Needs;
    ghost var before := root.volume.image;
    var f := MakeAndWrite(root, name, writes, entries);
    n := f.inumber;
    ghost var written := root.volume.image;
    CloseAll(root, f, name, entries[name := (n, ITEM_FILE)], Spliced([], writes));
    KeptTwice(before, written, root.volume.image, root.volume.disk, n);
  }

  /** An empty cache over the device shows the volume as it was when it was flushed. */
  lemma Reopened(image: Disk, view: imap<Key, block>, device: int, disk: map<Key, block>, view': imap<Key, block>)
    requires SameBlocks(image, view, device)
    requires forall n: int {:trigger Blk(image, n)} :: Bcache.DiskAt(disk, Key(device, n)) == Blk(image, n)
    requires forall k: Key :: k in view' && view'[k] == Bcache.DiskAt(disk, k)
    ensures DeviceOf(view', device) == image
  {
    forall n: int ensures n in image && image[n] == DeviceOf(view', device)[n] {
      assert Shown(image, view, device, n);
      assert Bcache.DiskAt(disk, Key(device, n)) == Blk(image, n);
    }
  }

  /** The file is read through a cache that starts empty, from what the device holds. */
  method ReadBack(v: Volume, name: Name, ghost entries: Dir, ghost bytes: seq<byte>) returns (data: seq<byte>)
    requires v.Synced() && OnDevice(v) && Stored(v.image, v.disk, entries, name, bytes) && name != DOT
    ensures data == bytes
  {
    var cache := new Bcache.Cache(v.cache.disk);
    Reopened(v.image, v.cache.View(), v.device, v.cache.disk, cache.View());
    var root := OpenRoot(cache, v.device, v.disk, entries);
    data := FetchBack(root, name, entries, bytes);
  }

  /** End to end: a volume on a device is opened, a file made in its root directory and written in
      any way, everything closed; then, with an empty cache over what the device holds, the volume
      is opened again and the file read. What is read is what was written, with zeros in the holes.
      On the device, every file that was there has its inode and its blocks, and the root directory
      every name that it had. */
  method Persist(cache: Bcache.Cache, device: int, ghost l: Layout, name: Name, writes: seq<FileWrite>,
                 ghost entries: Dir)
    returns (data: seq<byte>, ghost after: Disk, ghost n: word)
    requires cache.Valid() && Usable(DeviceOf(cache.View(), device), l, entries, name, writes)
    modifies cache
    ensures data == Spliced([], writes)
    ensures forall k: int {:trigger Blk(after, k)} :: Blk(after, k) == Bcache.DiskAt(cache.disk, Key(device, k))
    ensures InodeOf(DeviceOf(old(cache.View()), device), l, n).inuse == 0
    ensures OthersKept(DeviceOf(old(cache.View()), device), after, l, 0, n)
    ensures Stored(after, l, entries[name := (n, ITEM_FILE)], name, Spliced([], writes))
  {
    var root := OpenRoot(cache, device, l, entries);
    n := WriteOut(root, name, writes, entries);
    after := root.volume.image;
    data := ReadBack(root.volume, name, entries[name := (n, ITEM_FILE)], Spliced([], writes));
  }

  lemma {:induction false} NewIsUsable(d: Disk, l: Layout, name: Name, writes: seq<FileWrite>)
    requires NewVolume(d, l) && Needs(writes) + 6 <= l.dataBlocks
    requires |name| <= NAME_MAX && name != DOT && forall i :: 0 <= i < |writes| ==> Fits(writes[i])
    ensures Usable(d, l, map[DOT := (0, ITEM_DIR)], name, writes)
  {
  }

  /** The same from the start: the device is formatted first. */
  method FormatAndPersist(cache: Bcache.Cache, device: int, nblocks: nat, name: Name, writes: seq<FileWrite>)
    returns (data: seq<byte>)
    requires cache.Valid() && 31 <= nblocks < INODE_BLOCKS + BITS_PER_BLOCK
    requires Blk(DeviceOf(cache.View(), device), FormatLayout(nblocks).dataStart) == ZeroBlock()
    requires |name| <= NAME_MAX && name != DOT && forall i :: 0 <= i < |writes| ==> Fits(writes[i])
    requires Needs(writes) + 6 <= FormatLayout(nblocks).dataBlocks
    modifies cache
    ensures data == Spliced([], writes)
  {
    hide FormatBytes, Formatted, LayoutOk, Usable, NewVolume, Needs, Bcache.UniqueKeys;
    ghost var before, l := DeviceOf(cache.View(), device), FormatLayout(nblocks);
    FormatNumbering(nblocks);
    VolumeFormat(cache, device, nblocks);
    FormattedIsNew(before, DeviceOf(cache.View(), device), l);
    NewIsUsable(DeviceOf(cache.View(), device), l, name, writes);
    ghost var after, n;
    data, after, n := Persist(cache, device, l, name, writes, map[DOT := (0, ITEM_DIR)]);
  }
}
