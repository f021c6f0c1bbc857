/** Files as byte arrays: reads and writes at any offset and length, over blocks; volumes and
    open files that are counted and closed. */
module Fs {
  import opened Words
  import opened Blocks
  import opened Codec
  import opened DiskState
  import opened DiskFs
  import opened Directory
  import opened Dirents
  import Bcache

  const MAX_BYTES: nat := MAX_FILE_BLOCKS * BLOCK_SIZE

  ghost function ByteAt(d: Disk, l: Layout, n: nat, o: nat): byte
    requires n < Inodes(l) && o < MAX_BYTES
  {
    File(d, l, n, o / BLOCK_SIZE)[o % BLOCK_SIZE]
  }

  /** File n holds the given bytes at the given offset. */
  ghost predicate Holds(d: Disk, l: Layout, n: nat, offset: nat, bytes: seq<byte>) {
    n < Inodes(l) && offset + |bytes| <= MAX_BYTES
    && forall k :: 0 <= k < |bytes| ==> bytes[k] == ByteAt(d, l, n, offset + k)
  }

  /** File n differs from what it was in the given bytes at the given offset, and nowhere else. */
  ghost predicate Patched(d: Disk, d': Disk, l: Layout, n: nat, offset: nat, bytes: seq<byte>) {
    n < Inodes(l) && forall o: nat {:trigger ByteAt(d', l, n, o)} :: o < MAX_BYTES ==>
      ByteAt(d', l, n, o) == if offset <= o < offset + |bytes| then bytes[o - offset] else ByteAt(d, l, n, o)
  }

  lemma InBlock(i: nat, p: nat)
    requires p < BLOCK_SIZE
    ensures (i * BLOCK_SIZE + p) / BLOCK_SIZE == i && (i * BLOCK_SIZE + p) % BLOCK_SIZE == p
  {
  }

  /** A part of a block is a part of the file. */
  lemma HoldsMore(d: Disk, l: Layout, n: nat, offset: nat, bytes: seq<byte>, i: nat, p: nat, count: nat)
    requires Holds(d, l, n, offset, bytes) && offset + |bytes| == i * BLOCK_SIZE + p
    requires i < MAX_FILE_BLOCKS && p + count <= BLOCK_SIZE
    ensures Holds(d, l, n, offset, bytes + File(d, l, n, i)[p..p + count])
  {
    var more := File(d, l, n, i)[p..p + count];
    forall k | |bytes| <= k < |bytes| + count ensures (bytes + more)[k] == ByteAt(d, l, n, offset + k) {
      InBlock(i, p + k - |bytes|);
    }
  }

  /** A block with some of its bytes overwritten. */
  function Overlay(b: block, p: nat, part: seq<byte>): block
    requires p + |part| <= BLOCK_SIZE
  {
    b[..p] + part + b[p + |part|..]
  }

  /** Writing a part of one block. */
  lemma PatchBlock(d: Disk, d': Disk, l: Layout, n: nat, i: nat, p: nat, bytes: seq<byte>)
    requires n < Inodes(l) && i < MAX_FILE_BLOCKS && p + |bytes| <= BLOCK_SIZE && OtherBlocks(d, d', l, n, i)
    requires File(d', l, n, i) == Overlay(File(d, l, n, i), p, bytes)
    ensures Patched(d, d', l, n, i * BLOCK_SIZE + p, bytes)
  {
    forall o: nat | o < MAX_BYTES
      ensures ByteAt(d', l, n, o) == if i * BLOCK_SIZE + p <= o < i * BLOCK_SIZE + p + |bytes|
                then bytes[o - (i * BLOCK_SIZE + p)] else ByteAt(d, l, n, o) {
      if o / BLOCK_SIZE != i {
        assert File(d', l, n, o / BLOCK_SIZE) == File(d, l, n, o / BLOCK_SIZE);
      }
    }
  }

  lemma WholeBlock(b: block, part: seq<byte>)
    requires |part| == BLOCK_SIZE
    ensures Overlay(b, 0, part) == part
  {
  }

  lemma PatchTwice(d: Disk, d1: Disk, d2: Disk, l: Layout, n: nat, offset: nat, a: seq<byte>, b: seq<byte>)
    requires Patched(d, d1, l, n, offset, a) && Patched(d1, d2, l, n, offset + |a|, b)
    ensures Patched(d, d2, l, n, offset, a + b)
  {
    forall o: nat | o < MAX_BYTES
      ensures ByteAt(d2, l, n, o) == if offset <= o < offset + |a + b| then (a + b)[o - offset]
                else ByteAt(d, l, n, o) {
      assert ByteAt(d1, l, n, o) == if offset <= o < offset + |a| then a[o - offset] else ByteAt(d, l, n, o);
    }
  }

  lemma PatchNothing(d: Disk, d': Disk, l: Layout, n: nat, offset: nat, i: nat)
    requires n < Inodes(l) && i < MAX_FILE_BLOCKS && OtherBlocks(d, d', l, n, i)
             && File(d', l, n, i) == File(d, l, n, i)
    ensures Patched(d, d', l, n, offset, [])
  {
    forall o: nat | o < MAX_BYTES ensures ByteAt(d', l, n, o) == ByteAt(d, l, n, o) {
      assert File(d', l, n, o / BLOCK_SIZE) == File(d, l, n, o / BLOCK_SIZE);
    }
  }

  /** fs_dirent_read: the bytes from the offset on, cut at the size. */
  method Read(d: Dirent, length: word, offset: word, outOfMemory: bool) returns (r: int, buffer: seq<byte>)
    requires d.Valid() && d.size <= MAX_BYTES && offset + length < WORD
    modifies d.volume.cache
    ensures d.Valid()
    ensures if outOfMemory && offset <= d.size then r == -1 else
              && r == |buffer|
                   == (if offset > d.size then 0 else if offset + length > d.size then d.size - offset else length)
              && (offset <= d.size ==> Holds(d.volume.image, d.volume.disk, d.inumber, offset, buffer))
  {
    buffer := [];
    if offset > d.size { return 0, buffer; }
    var count: nat := if offset + length > d.size then d.size - offset else length;
    if outOfMemory { return -1, buffer; }
    var at: nat := offset;
    ghost var left := count;
    while count > 0
      invariant d.Valid() && |buffer| + count == left && at == offset + |buffer|
      invariant Holds(d.volume.image, d.volume.disk, d.inumber, offset, buffer)
    {
      var blocknum, p := at / BLOCK_SIZE, at % BLOCK_SIZE;
      var result, temp := d.ReadBlock(blocknum);
      var actual;
      if p != 0 {
        actual := if BLOCK_SIZE - p < count then BLOCK_SIZE - p else count;
      } else if count >= BLOCK_SIZE {
        actual := BLOCK_SIZE;
      } else {
        actual := count;
      }
      HoldsMore(d.volume.image, d.volume.disk, d.inumber, offset, buffer, blocknum, p, actual);
      buffer := buffer + temp[p..p + actual];
      count, at := count - actual, at + actual;
    }
    r := |buffer|;
  }

  /** The file after a write of which the first done bytes went through. */
  ghost predicate Wrote(d: Disk, d': Disk, l: Layout, n: nat, offset: nat, buffer: seq<byte>, done: nat) {
    && done <= |buffer| && Patched(d, d', l, n, offset, buffer[..done])
    && OtherFiles(d, d', l, n) && StillInUse(d, d', l)
  }

  lemma WroteNothing(d: Disk, l: Layout, n: nat, offset: nat, buffer: seq<byte>)
    requires n < Inodes(l)
    ensures Wrote(d, d, l, n, offset, buffer, 0)
  {
  }

  lemma WroteMore(d: Disk, d1: Disk, d2: Disk, l: Layout, n: nat, offset: nat, buffer: seq<byte>, done: nat, i: nat,
                  part: seq<byte>)
    requires Wrote(d, d1, l, n, offset, buffer, done) && Patched(d1, d2, l, n, offset + done, part)
    requires done + |part| <= |buffer| && part == buffer[done..done + |part|]
    requires Undisturbed(d1, d2, l, n, i) && StillInUse(d1, d2, l)
    ensures Wrote(d, d2, l, n, offset, buffer, done + |part|)
  {
    hide Patched, OtherFiles, StillInUse, Undisturbed;
    assert buffer[..done] + part == buffer[..done + |part|];
    PatchTwice(d, d1, d2, l, n, offset, buffer[..done], part);
    OtherFilesTwice(d, d1, d2, l, n, i);
  }

  /** One round of fs_dirent_write: a part of a block is read, changed and written back; a whole
      block is written at once. */
  method WritePart(d: Dirent, part: seq<byte>, blocknum: nat, p: nat) returns (ok: bool)
    requires d.Valid() && blocknum < MAX_FILE_BLOCKS && 0 < |part| && p + |part| <= BLOCK_SIZE
    modifies d`disk, d.volume`image, d.volume.cache
    ensures d.Valid() && Undisturbed(old(d.volume.image), d.volume.image, d.volume.disk, d.inumber, blocknum)
    ensures StillInUse(old(d.volume.image), d.volume.image, d.volume.disk)
    ensures Spends(old(d.volume.image), d.volume.image, d.volume.disk, d.inumber, 1)
    ensures Patched(old(d.volume.image), d.volume.image, d.volume.disk, d.inumber, blocknum * BLOCK_SIZE + p,
                    if ok then part else [])
    ensures !ok ==> Full(d.volume.image, d.volume.disk)
  {
    ghost var before := d.volume.image;
    var wactual;
    if p == 0 && |part| == BLOCK_SIZE {
      WholeBlock(File(before, d.volume.disk, d.inumber, blocknum), part);
      wactual := d.WriteBlock(part, blocknum);
    } else {
      var actual, temp := d.ReadBlock(blocknum);
      wactual := d.WriteBlock(Overlay(temp, p, part), blocknum);
    }
    ok := wactual == BLOCK_SIZE;
    if ok {
      PatchBlock(before, d.volume.image, d.volume.disk, d.inumber, blocknum, p, part);
    } else {
      PatchNothing(before, d.volume.image, d.volume.disk, d.inumber, blocknum * BLOCK_SIZE + p, blocknum);
    }
  }

  /** How many blocks the bytes from an offset on lie in. */
  function Span(offset: nat, length: nat): nat {
    (offset % BLOCK_SIZE + length + BLOCK_SIZE - 1) / BLOCK_SIZE
  }

  /** The block of a round, the place in it, and how many bytes go there. */
  method NextPart(at: nat, left: nat) returns (blocknum: nat, p: nat, actual: nat)
    requires at + left <= MAX_BYTES && 0 < left
    ensures blocknum < MAX_FILE_BLOCKS && blocknum * BLOCK_SIZE + p == at && p + actual <= BLOCK_SIZE
    ensures 0 < actual <= left && (actual == left || p + actual == BLOCK_SIZE)
  {
    blocknum, p := at / BLOCK_SIZE, at % BLOCK_SIZE;
    actual := if BLOCK_SIZE - p < left then BLOCK_SIZE - p else left;
  }

  /** After so many rounds, total of length bytes are done; only the last round ends inside a
      block. */
  ghost predicate Rounds(offset: nat, length: nat, total: nat, rounds: nat) {
    && offset % BLOCK_SIZE + total <= rounds * BLOCK_SIZE + (if rounds == 0 then offset % BLOCK_SIZE else 0)
    && (if total < length then rounds > 0 ==> offset % BLOCK_SIZE + total == rounds * BLOCK_SIZE
        else rounds * BLOCK_SIZE < offset % BLOCK_SIZE + total + BLOCK_SIZE)
    && (rounds == 0 ==> total == 0)
  }

  lemma RoundsStep(offset: nat, length: nat, total: nat, rounds: nat, blocknum: nat, p: nat, actual: nat)
    requires Rounds(offset, length, total, rounds) && total < length
    requires blocknum * BLOCK_SIZE + p == offset + total && p + actual <= BLOCK_SIZE
    requires 0 < actual <= length - total && (actual == length - total || p + actual == BLOCK_SIZE)
    ensures Rounds(offset, length, total + actual, rounds + 1) && rounds + 1 <= Span(offset, length)
  {
    var q, p0 := offset / BLOCK_SIZE, offset % BLOCK_SIZE;
    assert blocknum * BLOCK_SIZE + p == q * BLOCK_SIZE + p0 + total;
  }

  lemma RoundsStart(offset: nat, length: nat)
    ensures Rounds(offset, length, 0, 0)
  {
  }

  /** The loop body of fs_dirent_write, after total bytes: actual more go to place p of a block. */
  method WriteRound(d: Dirent, ghost before: Disk, buffer: seq<byte>, ghost offset: nat, total: nat, blocknum: nat,
                    p: nat, actual: nat)
    returns (ok: bool)
    requires d.Valid() && total + actual <= |buffer|
    requires blocknum < MAX_FILE_BLOCKS && 0 < actual && p + actual <= BLOCK_SIZE
             && blocknum * BLOCK_SIZE + p == offset + total
    requires Wrote(before, d.volume.image, d.volume.disk, d.inumber, offset, buffer, total)
    modifies d`disk, d.volume`image, d.volume.cache
    ensures d.Valid()
    ensures Wrote(before, d.volume.image, d.volume.disk, d.inumber, offset, buffer,
                  if ok then total + actual else total)
    ensures Spends(old(d.volume.image), d.volume.image, d.volume.disk, d.inumber, 1)
    ensures !ok ==> Full(d.volume.image, d.volume.disk)
  {
    hide Patched, Wrote, Undisturbed, StillInUse, Room, Full;
    ghost var middle := d.volume.image;
    var part := buffer[total..total + actual];
    ok := WritePart(d, part, blocknum, p);
    if ok {
      WroteMore(before, middle, d.volume.image, d.volume.disk, d.inumber, offset, buffer, total, blocknum, part);
    } else {
      WroteMore(before, middle, d.volume.image, d.volume.disk, d.inumber, offset, buffer, total, blocknum, []);
    }
  }

  /** The loop of fs_dirent_write. */
  method WriteAll(d: Dirent, buffer: seq<byte>, offset: nat) returns (total: nat)
    requires d.Valid() && offset + |buffer| <= MAX_BYTES
    modifies d`disk, d.volume`image, d.volume.cache
    ensures d.Valid() && Wrote(old(d.volume.image), d.volume.image, d.volume.disk, d.inumber, offset, buffer, total)
    ensures total < |buffer| ==> Full(d.volume.image, d.volume.disk)
    ensures Spends(old(d.volume.image), d.volume.image, d.volume.disk, d.inumber, Span(offset, |buffer|))
  {
    hide Wrote, Rounds, Span, Room, Full, SameBlocks, DiskState.Ok, InodeOf;
    ghost var before := d.volume.image;
    total := 0;
    ghost var rounds := 0;
    WroteNothing(before, d.volume.disk, d.inumber, offset, buffer);
    RoundsStart(offset, |buffer|);
    while total < |buffer|
      invariant 0 <= total <= |buffer| && d.Valid()
      invariant Wrote(before, d.volume.image, d.volume.disk, d.inumber, offset, buffer, total)
      invariant Rounds(offset, |buffer|, total, rounds) && rounds <= Span(offset, |buffer|)
      invariant Spends(before, d.volume.image, d.volume.disk, d.inumber, rounds)
    {
      var blocknum, p, actual := NextPart(offset + total, |buffer| - total);
      var ok := WriteRound(d, before, buffer, offset, total, blocknum, p, actual);
      RoundsStep(offset, |buffer|, total, rounds, blocknum, p, actual);
      rounds := rounds + 1;
      if !ok { return; }
      total := total + actual;
    }
  }

  /** fs_dirent_write: the file is resized first when the write goes past its end. Only a full
      volume stops a write, and then a prefix has been written. */
  method Write(d: Dirent, buffer: seq<byte>, offset: word) returns (r: int)
    requires d.Valid() && d.size <= MAX_BYTES && offset + |buffer| <= MAX_BYTES
    modifies d`size, d`disk, d.volume`image, d.volume.cache
    ensures d.Valid() && d.size == if offset + |buffer| > old(d.size) then offset + |buffer| else old(d.size)
    ensures (r == -1 || 0 <= r <= |buffer|) && (r == 0 ==> buffer == [])
    ensures Wrote(old(d.volume.image), d.volume.image, d.volume.disk, d.inumber, offset, buffer, if r < 0 then 0 else r)
    ensures r < |buffer| ==> Full(d.volume.image, d.volume.disk)
    ensures Spends(old(d.volume.image), d.volume.image, d.volume.disk, d.inumber, Span(offset, |buffer|))
  {
    if offset + |buffer| > d.size {
      d.Resize(offset + |buffer|);
    }
    var total := WriteAll(d, buffer, offset);
    r := if total == 0 && |buffer| > 0 then -1 else total;
  }

  // ---- a file as one sequence of bytes

  /** File n is exactly these bytes: its size is their number and everything past it is zero. */
  ghost predicate FileIs(d: Disk, l: Layout, n: nat, bytes: seq<byte>) {
    && Holds(d, l, n, 0, bytes)
    && forall o: nat {:trigger ByteAt(d, l, n, o)} :: |bytes| <= o < MAX_BYTES ==> ByteAt(d, l, n, o) == 0
  }

  /** The bytes with a buffer laid over them; a gap in front of it is filled with zeros. */
  function Splice(bytes: seq<byte>, offset: nat, buffer: seq<byte>): (r: seq<byte>)
    ensures |r| == if offset + |buffer| > |bytes| then offset + |buffer| else |bytes|
  {
    seq(if offset + |buffer| > |bytes| then offset + |buffer| else |bytes|,
        o requires 0 <= o => if offset <= o < offset + |buffer| then buffer[o - offset] else if o < |bytes|
          then bytes[o] else 0)
  }

  /** A write that went through splices its buffer into the file. */
  lemma WriteSplices(d: Disk, d': Disk, l: Layout, n: nat, bytes: seq<byte>, offset: nat, buffer: seq<byte>)
    requires FileIs(d, l, n, bytes) && Wrote(d, d', l, n, offset, buffer, |buffer|) && offset + |buffer| <= MAX_BYTES
    ensures FileIs(d', l, n, Splice(bytes, offset, buffer))
  {
    assert buffer[..|buffer|] == buffer;
    var after := Splice(bytes, offset, buffer);
    forall o: nat | o < MAX_BYTES ensures ByteAt(d', l, n, o) == if o < |after| then after[o] else 0 {
      assert ByteAt(d', l, n, o) == if offset <= o < offset + |buffer| then buffer[o - offset] else ByteAt(d, l, n, o);
      assert ByteAt(d, l, n, o) == if o < |bytes| then bytes[o] else 0;
    }
    forall k | 0 <= k < |after| ensures after[k] == ByteAt(d', l, n, 0 + k) {}
  }

  /** What a read finds is a slice of the file. */
  lemma ReadSlices(d: Disk, l: Layout, n: nat, bytes: seq<byte>, offset: nat, buffer: seq<byte>)
    requires FileIs(d, l, n, bytes) && Holds(d, l, n, offset, buffer) && offset + |buffer| <= |bytes|
    ensures buffer == bytes[offset..offset + |buffer|]
  {
    forall k | 0 <= k < |buffer| ensures buffer[k] == bytes[offset + k] {
      assert bytes[offset + k] == ByteAt(d, l, n, 0 + (offset + k));
    }
  }

  /** A file whose blocks are all holes is empty. */
  lemma HolesAreEmpty(d: Disk, l: Layout, n: nat)
    requires n < Inodes(l) && forall j: nat {:trigger File(d, l, n, j)} ::
               j < MAX_FILE_BLOCKS ==> File(d, l, n, j) == ZeroBlock()
    ensures FileIs(d, l, n, [])
  {
  }

  /** A file keeps its bytes as long as its blocks stay the same. */
  lemma FileKept(d: Disk, d': Disk, l: Layout, n: nat, bytes: seq<byte>)
    requires FileIs(d, l, n, bytes) && OtherBlocksOf(d, d', l, n)
    ensures FileIs(d', l, n, bytes)
  {
    forall o: nat | o < MAX_BYTES ensures ByteAt(d', l, n, o) == ByteAt(d, l, n, o) {
      assert File(d', l, n, o / BLOCK_SIZE) == File(d, l, n, o / BLOCK_SIZE);
    }
    forall k | 0 <= k < |bytes| ensures bytes[k] == ByteAt(d', l, n, 0 + k) {
      assert bytes[k] == ByteAt(d, l, n, 0 + k);
    }
  }

  // ---- volumes and open files are counted

  /** Everything written to the volume is on its device. */
  ghost predicate OnDevice(v: Volume)
    reads v, v.cache
  {
    forall n: int {:trigger Blk(v.image, n)} :: Bcache.DiskAt(v.cache.disk, Key(v.device, n)) == Blk(v.image, n)
  }

  /** fs_volume_addref */
  method VolumeAddref(v: Volume)
    modifies v`refcount
    ensures v.refcount == old(v.refcount) + 1
  {
    v.refcount := v.refcount + 1;
  }

  /** fs_volume_close: the last reference to go flushes the device. */
  method VolumeClose(v: Volume)
    requires v.Synced()
    modifies v`refcount, v.cache
    ensures v.Synced() && v.refcount == old(v.refcount) - 1
    ensures v.refcount == 0 ==> OnDevice(v)
  {
    v.refcount := v.refcount - 1;
    if v.refcount == 0 {
      v.cache.FlushDevice(v.device);
      forall n: int ensures Bcache.DiskAt(v.cache.disk, Key(v.device, n)) == Blk(v.image, n) {
        assert Shown(v.image, v.cache.View(), v.device, n);
      }
    }
  }

  /** fs_volume_root */
  method VolumeRoot(v: Volume) returns (d: Dirent)
    requires v.Valid() && InodeOf(v.image, v.disk, 0).inuse != 0
    modifies v`refcount, v.cache
    ensures fresh(d) && d.Opens(v, (0, ITEM_DIR)) && v.refcount == old(v.refcount) + 1
  {
    InodePlace(v.disk, 0);
    d := new Dirent(v, 0, ITEM_DIR);
    VolumeAddref(v);
  }

  /** fs_dirent_mkfile */
  method Mkfile(d: Dirent, name: Name) returns (t: Dirent?)
    requires d.Valid() && DirOk(d.volume.image, d.volume.disk, d.inumber, d.size)
             && d.size < MAX_FILE_BLOCKS * BLOCK_SIZE
    requires InodeOf(d.volume.image, d.volume.disk, 0).inuse != 0
    modifies d`disk, d`size, d.volume`image, d.volume`refcount, d.volume.cache
    ensures d.Valid()
    ensures t == null <==> || |name| > NAME_MAX || name in old(DirMap(d.volume.image, d.volume.disk, d.inumber, d.size))
                           || NoInode(old(d.volume.image), d.volume.disk)
    ensures t == null ==> d.volume.image == old(d.volume.image) && d.volume.refcount == old(d.volume.refcount)
    ensures t != null ==> fresh(t) && t.inumber < WORD && t.Opens(d.volume, (t.inumber, ITEM_FILE))
                          && d.volume.refcount == old(d.volume.refcount) + 1
                          && Created(old(d.volume.image), d.volume.image, d.volume.disk, d.inumber, old(d.size), d.size,
                                     name, ITEM_FILE, t.inumber)
                          && Takes(old(d.volume.image), d.volume.image, d.volume.disk, 2)
  {
    hide DirOk, DirMap, Created, NoInode, Free, Current, SameBlocks, InodeOf, DiskState.Ok, Bcache.UniqueKeys;
    t := d.Create(name, ITEM_FILE);
    if t != null { VolumeAddref(d.volume); }
  }

  /** fs_dirent_lookup */
  method Lookup(d: Dirent, name: Name) returns (t: Dirent?)
    requires d.Valid() && DirOk(d.volume.image, d.volume.disk, d.inumber, d.size)
    modifies d`refcount, d.volume`refcount, d.volume.cache
    ensures d.Valid()
    ensures name == DOT ==> t == d && d.refcount == old(d.refcount) + 1 && d.volume.refcount == old(d.volume.refcount)
    ensures name != DOT ==>
              && d.refcount == old(d.refcount)
                 && (t == null <==> name !in DirMap(d.volume.image, d.volume.disk, d.inumber, d.size))
              && d.volume.refcount == old(d.volume.refcount) + (if t == null then 0 else 1)
              && (t != null ==>
                    fresh(t) && t.Opens(d.volume, DirMap(d.volume.image, d.volume.disk, d.inumber, d.size)[name]))
  {
    hide DirOk, Current, SameBlocks, InodeOf, DiskState.Ok, Bcache.UniqueKeys;
    if name == DOT {
      d.refcount := d.refcount + 1;
      return d;
    }
    t := d.Lookup(name);
    if t != null { VolumeAddref(d.volume); }
  }

  /** fs_dirent_close: the last reference saves the inode and lets go of the volume. */
  method DirentClose(d: Dirent)
    requires d.Valid()
    modifies d`refcount, d.volume`image, d.volume`refcount, d.volume.cache
    ensures d.Valid() && d.refcount == old(d.refcount) - 1
    ensures d.refcount != 0 ==> d.volume.image == old(d.volume.image) && d.volume.refcount == old(d.volume.refcount)
    ensures d.refcount == 0 ==>
              && d.volume.refcount == old(d.volume.refcount) - 1 && (d.volume.refcount == 0 ==> OnDevice(d.volume))
              && InodeOf(d.volume.image, d.volume.disk, d.inumber) == d.disk
              && Undisturbed(old(d.volume.image), d.volume.image, d.volume.disk, d.inumber, -1)
              && StillInUse(old(d.volume.image), d.volume.image, d.volume.disk)
              && Spends(old(d.volume.image), d.volume.image, d.volume.disk, d.inumber, 0)
  {
    d.refcount := d.refcount - 1;
    if d.refcount == 0 {
      d.Close();
      VolumeClose(d.volume);
    }
  }
}
