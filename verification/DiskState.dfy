/** A volume on a flat disk: inodes, the block bitmap and data blocks, and which pointer names
    which data block. */
module DiskState {
  import opened Words
  import opened Blocks
  import opened Codec
  import Bits

  /** The regions of the volume, from its superblock. */
  datatype Layout = Layout(inodeStart: word, inodeBlocks: word, bitmapStart: word, bitmapBlocks: word,
                           dataStart: word, dataBlocks: word)

  const BITS_PER_BLOCK: nat := 32768

  /** Regions in order, and bitmap numbering that gives every data block one bit. */
  predicate LayoutOk(l: Layout) {
    && 1 <= l.inodeStart && 1 <= l.inodeBlocks && Inodes(l) < 0x8000_0000
       && l.inodeStart + l.inodeBlocks <= l.bitmapStart
    && 1 <= l.bitmapBlocks && l.bitmapStart + l.bitmapBlocks <= l.dataStart
    && 2 <= l.dataBlocks && l.dataStart + l.dataBlocks < WORD
    && OneNumbering(l.bitmapBlocks, l.dataBlocks)
  }

  predicate OneNumbering(bitmapBlocks: nat, dataBlocks: nat) {
    dataBlocks <= 4096 || (bitmapBlocks == 1 && dataBlocks <= BITS_PER_BLOCK)
  }

  function Inodes(l: Layout): nat {
    l.inodeBlocks * INODES_PER_BLOCK
  }

  type Disk = imap<int, block>

  ghost function Blk(d: Disk, n: int): block {
    if n in d then d[n] else ZeroBlock()
  }

  ghost function InodeOf(d: Disk, l: Layout, n: nat): Inode {
    InodeIn(Blk(d, l.inodeStart + n / INODES_PER_BLOCK), n % INODES_PER_BLOCK)
  }

  ghost function Data(d: Disk, l: Layout, k: int): block {
    Blk(d, l.dataStart + k)
  }

  ghost predicate Marked(d: Disk, l: Layout, k: int) {
    0 <= k < BITS_PER_BLOCK && Bits.Has(Blk(d, l.bitmapStart)[k / 8], k % 8)
  }

  /** A place that may name a data block: a direct pointer, an indirect pointer, or a pointer in
      an indirect block. */
  datatype Ref = Direct(inumber: nat, k: nat) | Indirect(inumber: nat) | Entry(inumber: nat, j: nat)

  predicate InRange(l: Layout, r: Ref) {
    r.inumber < Inodes(l) && (r.Direct? ==> r.k < DIRECT_POINTERS) && (r.Entry? ==> r.j < POINTERS_PER_BLOCK)
  }

  ghost function Ptr(d: Disk, l: Layout, r: Ref): word
    requires InRange(l, r)
  {
    var n := InodeOf(d, l, r.inumber);
    match r
    case Direct(_, k) => n.direct[k]
    case Indirect(_) => n.indirect
    case Entry(_, j) => PointerAt(Data(d, l, n.indirect), j)
  }

  ghost predicate RefOk(d: Disk, l: Layout, r: Ref) {
    InRange(l, r) ==> Ptr(d, l, r) < l.dataBlocks && (Ptr(d, l, r) != 0 ==> Marked(d, l, Ptr(d, l, r)))
  }

  ghost predicate Unshared(d: Disk, l: Layout, r: Ref, r': Ref) {
    InRange(l, r) && InRange(l, r') && r != r' && Ptr(d, l, r) != 0 ==> Ptr(d, l, r) != Ptr(d, l, r')
  }

  /** Every named block is a marked data block, no block is named twice, and block 0, which
      stands for every hole, reads as zeros. */
  ghost predicate Ok(d: Disk, l: Layout) {
    && LayoutOk(l) && Data(d, l, 0) == ZeroBlock()
    && (forall r {:trigger RefOk(d, l, r)} :: RefOk(d, l, r))
    && (forall r, r' {:trigger Unshared(d, l, r, r')} :: Unshared(d, l, r, r'))
  }

  const MAX_FILE_BLOCKS: nat := DIRECT_POINTERS + POINTERS_PER_BLOCK

  /** The pointer for block i of a file. */
  function FileRef(n: nat, i: nat): Ref {
    if i < DIRECT_POINTERS then Direct(n, i) else Entry(n, i - DIRECT_POINTERS)
  }

  /** Block i of file n. */
  ghost function File(d: Disk, l: Layout, n: nat, i: nat): block
    requires n < Inodes(l) && i < MAX_FILE_BLOCKS
  {
    Data(d, l, Ptr(d, l, FileRef(n, i)))
  }

  /** The inode table starts at the inode blocks, 113 inodes of 36 bytes to a block. */
  lemma InodeTable(d: Disk, l: Layout, n: nat)
    ensures var b, at := Blk(d, l.inodeStart + n / 113), 36 * (n % 113);
            var x := InodeOf(d, l, n);
            && x.inuse == WordAt(b, at) && x.size == WordAt(b, at + 4) && x.indirect == WordAt(b, at + 32)
            && (forall k :: 0 <= k < 6 ==> x.direct[k] == WordAt(b, at + 8 + 4 * k))
  {
    InodeBytes(Blk(d, l.inodeStart + n / 113), n % 113);
  }

  /** The first six blocks of a file are named by words of its inode, the next 1024 by the words of
      its indirect block; numbers count from the start of the data blocks. */
  lemma FileBlocks(d: Disk, l: Layout, n: nat, i: nat)
    requires n < Inodes(l) && i < 1030
    ensures var b, at := Blk(d, l.inodeStart + n / 113), 36 * (n % 113);
            && (i < 6 ==> File(d, l, n, i) == Blk(d, l.dataStart + WordAt(b, at + 8 + 4 * i)))
            && (i >= 6 ==> var indirect := Blk(d, l.dataStart + WordAt(b, at + 32));
                  File(d, l, n, i) == Blk(d, l.dataStart + WordAt(indirect, 4 * (i - 6))))
  {
    InodeTable(d, l, n);
    if i >= 6 { PointerBytes(Data(d, l, InodeOf(d, l, n).indirect), i - 6); }
  }

  /** Data block k is marked by a bit of byte k / 8 of the bitmap, the low bits first. */
  lemma BitmapBits(d: Disk, l: Layout, k: nat)
    requires k < 32768
    ensures Marked(d, l, k) <==> Blk(d, l.bitmapStart)[k / 8] / [1, 2, 4, 8, 16, 32, 64, 128][k % 8] % 2 == 1
  {
    BitOfByte(Blk(d, l.bitmapStart)[k / 8], k % 8);
  }

  lemma BitOfByte(x: byte, j: nat)
    requires j < 8
    ensures Bits.Has(x, j) <==> x / [1, 2, 4, 8, 16, 32, 64, 128][j] % 2 == 1
  {
    BitQuotient(x, j);
    assert Pow2(0) == 1 && Pow2(1) == 2 && Pow2(2) == 4 && Pow2(3) == 8;
    assert Pow2(4) == 16 && Pow2(5) == 32 && Pow2(6) == 64 && Pow2(7) == 128;
  }

  lemma {:induction false} BitQuotient(m: nat, j: nat)
    ensures Pow2(j) > 0 && (Bits.Has(m, j) <==> m / Pow2(j) % 2 == 1)
  {
    if j > 0 {
      BitQuotient(m / 2, j - 1);
      HalfQuotient(m, Pow2(j - 1));
    }
  }

  lemma HalfQuotient(m: nat, p: nat)
    requires p > 0
    ensures m / (2 * p) == m / 2 / p
  {
    var q, r := m / 2 / p, m / 2 % p;
    assert m / 2 == q * p + r;
    assert m == q * (2 * p) + (2 * r + m % 2) && 0 <= 2 * r + m % 2 < 2 * p;
    MulDiv(q, 2 * r + m % 2, 2 * p);
  }

  // ---- the three kinds of writes

  ghost function SaveInode(d: Disk, l: Layout, n: nat, x: Inode): Disk {
    var at := l.inodeStart + n / INODES_PER_BLOCK;
    d[at := SetInode(Blk(d, at), n % INODES_PER_BLOCK, x)]
  }

  ghost function WriteData(d: Disk, l: Layout, k: int, b: block): Disk {
    d[l.dataStart + k := b]
  }

  /** b with bit k of its first 32768 bits set. */
  function WithBit(b: block, k: nat): block
    requires k < BITS_PER_BLOCK
  {
    ByteOr(b[k / 8], k % 8);
    b[k / 8 := Bits.Or(b[k / 8], Pow2(k % 8))]
  }

  lemma ByteOr(x: byte, k: nat)
    requires k < 8
    ensures Bits.Or(x, Pow2(k)) < 256
    ensures forall j: nat :: Bits.Has(Bits.Or(x, Pow2(k)), j) <==> j == k || Bits.Has(x, j)
  {
    assert Pow2(8) == 256;
    Pow2Monotone(k, 7);
    Bits.OrBound(x, Pow2(k), 8);
    forall j: nat ensures Bits.Has(Bits.Or(x, Pow2(k)), j) <==> j == k || Bits.Has(x, j) {
      Bits.HasOr(x, Pow2(k), j);
      Bits.HasPow2(k, j);
    }
  }

  ghost function Mark(d: Disk, l: Layout, k: nat): Disk
    requires k < BITS_PER_BLOCK
  {
    d[l.bitmapStart := WithBit(Blk(d, l.bitmapStart), k)]
  }

  lemma InodePlace(l: Layout, n: nat)
    requires LayoutOk(l) && n < Inodes(l)
    ensures l.inodeStart <= l.inodeStart + n / INODES_PER_BLOCK < l.bitmapStart
  {
  }

  lemma SaveInodeEffect(d: Disk, l: Layout, n: nat, x: Inode)
    requires LayoutOk(l) && n < Inodes(l)
    ensures var d' := SaveInode(d, l, n, x);
            && (forall m: nat {:trigger InodeOf(d', l, m)} ::
                  m < Inodes(l) ==> InodeOf(d', l, m) == if m == n then x else InodeOf(d, l, m))
            && (forall k {:trigger Data(d', l, k)} :: 0 <= k < l.dataBlocks ==> Data(d', l, k) == Data(d, l, k))
            && (forall k {:trigger Marked(d', l, k)} :: Marked(d', l, k) <==> Marked(d, l, k))
  {
    var d' := SaveInode(d, l, n, x);
    InodePlace(l, n);
    forall m: nat | m < Inodes(l) ensures InodeOf(d', l, m) == if m == n then x else InodeOf(d, l, m) {
      InodeSet(Blk(d, l.inodeStart + n / INODES_PER_BLOCK), n % INODES_PER_BLOCK, x, m % INODES_PER_BLOCK);
    }
  }

  lemma WriteDataEffect(d: Disk, l: Layout, k: int, b: block)
    requires LayoutOk(l) && 0 <= k < l.dataBlocks
    ensures var d' := WriteData(d, l, k, b);
            && (forall m: nat {:trigger InodeOf(d', l, m)} :: m < Inodes(l) ==> InodeOf(d', l, m) == InodeOf(d, l, m))
            && (forall j {:trigger Data(d', l, j)} :: Data(d', l, j) == if j == k then b else Data(d, l, j))
            && (forall j {:trigger Marked(d', l, j)} :: Marked(d', l, j) <==> Marked(d, l, j))
  {
    forall m: nat | m < Inodes(l) ensures InodeOf(WriteData(d, l, k, b), l, m) == InodeOf(d, l, m) { InodePlace(l, m); }
  }

  lemma MarkEffect(d: Disk, l: Layout, k: nat)
    requires LayoutOk(l) && k < BITS_PER_BLOCK
    ensures var d' := Mark(d, l, k);
            && (forall m: nat {:trigger InodeOf(d', l, m)} :: m < Inodes(l) ==> InodeOf(d', l, m) == InodeOf(d, l, m))
            && (forall j {:trigger Data(d', l, j)} :: 0 <= j < l.dataBlocks ==> Data(d', l, j) == Data(d, l, j))
            && (forall j {:trigger Marked(d', l, j)} :: Marked(d', l, j) <==> j == k || Marked(d, l, j))
  {
    var d' := Mark(d, l, k);
    forall m: nat | m < Inodes(l) ensures InodeOf(d', l, m) == InodeOf(d, l, m) { InodePlace(l, m); }
    ByteOr(Blk(d, l.bitmapStart)[k / 8], k % 8);
    forall j ensures Marked(d', l, j) <==> j == k || Marked(d, l, j) {
      if 0 <= j < BITS_PER_BLOCK && j / 8 == k / 8 { assert j % 8 == k % 8 ==> j == k; }
    }
  }

  // ---- what the writes do to the naming of blocks

  /** No pointer names block a. */
  ghost predicate Unnamed(d: Disk, l: Layout, a: int) {
    forall r {:trigger Ptr(d, l, r)} :: InRange(l, r) ==> Ptr(d, l, r) != a
  }

  lemma UnmarkedIsUnnamed(d: Disk, l: Layout, a: int)
    requires Ok(d, l) && a != 0 && !Marked(d, l, a)
    ensures Unnamed(d, l, a)
  {
    forall r | InRange(l, r) ensures Ptr(d, l, r) != a { assert RefOk(d, l, r); }
  }

  /** The pointer r names a now; all others are as before. */
  ghost predicate Names(d: Disk, d': Disk, l: Layout, r: Ref, a: word) {
    forall q {:trigger Ptr(d', l, q)} :: InRange(l, q) ==> Ptr(d', l, q) == if q == r then a else Ptr(d, l, q)
  }

  lemma OkAfterNaming(d: Disk, d': Disk, l: Layout, r: Ref, a: word)
    requires Ok(d, l) && InRange(l, r) && Names(d, d', l, r, a) && Data(d', l, 0) == ZeroBlock()
    requires Unnamed(d, l, a) && 0 < a < l.dataBlocks && Marked(d', l, a)
    requires forall k {:trigger Marked(d', l, k)} :: Marked(d, l, k) ==> Marked(d', l, k)
    ensures Ok(d', l)
  {
    forall q ensures RefOk(d', l, q) { assert RefOk(d, l, q); }
    forall q, q' ensures Unshared(d', l, q, q') { assert Unshared(d, l, q, q'); }
  }

  lemma OkAfterSameNames(d: Disk, d': Disk, l: Layout)
    requires Ok(d, l) && Data(d', l, 0) == ZeroBlock()
    requires forall q {:trigger Ptr(d', l, q)} :: InRange(l, q) ==> Ptr(d', l, q) == Ptr(d, l, q)
    requires forall k {:trigger Marked(d', l, k)} :: Marked(d, l, k) ==> Marked(d', l, k)
    ensures Ok(d', l)
  {
    forall q ensures RefOk(d', l, q) { assert RefOk(d, l, q); }
    forall q, q' ensures Unshared(d', l, q, q') { assert Unshared(d, l, q, q'); }
  }

  /** Marking a block changes no pointer and no file. */
  lemma MarkOk(d: Disk, l: Layout, k: nat)
    requires Ok(d, l) && k < BITS_PER_BLOCK
    ensures var d' := Mark(d, l, k);
            && Ok(d', l) && (forall q {:trigger Ptr(d', l, q)} :: InRange(l, q) ==> Ptr(d', l, q) == Ptr(d, l, q))
  {
    var d' := Mark(d, l, k);
    MarkEffect(d, l, k);
    SameDataSamePointers(d, d', l);
    OkAfterSameNames(d, d', l);
  }

  lemma SameDataSamePointers(d: Disk, d': Disk, l: Layout)
    requires Ok(d, l)
    requires forall m: nat {:trigger InodeOf(d', l, m)} :: m < Inodes(l) ==> InodeOf(d', l, m) == InodeOf(d, l, m)
    requires forall j {:trigger Data(d', l, j)} :: 0 <= j < l.dataBlocks ==> Data(d', l, j) == Data(d, l, j)
    ensures forall q {:trigger Ptr(d', l, q)} :: InRange(l, q) ==> Ptr(d', l, q) == Ptr(d, l, q)
  {
    forall q | InRange(l, q) ensures Ptr(d', l, q) == Ptr(d, l, q) {
      assert InodeOf(d', l, q.inumber) == InodeOf(d, l, q.inumber);
      assert RefOk(d, l, Indirect(q.inumber));
    }
  }

  /** Writing the block that a file names changes that block of that file alone. */
  lemma WriteFileOk(d: Disk, l: Layout, n: nat, i: nat, b: block)
    requires Ok(d, l) && n < Inodes(l) && i < MAX_FILE_BLOCKS && Ptr(d, l, FileRef(n, i)) != 0
    ensures var d' := WriteData(d, l, Ptr(d, l, FileRef(n, i)), b);
            && Ok(d', l)
            && (forall m: nat, j: nat {:trigger File(d', l, m, j)} :: m < Inodes(l) && j < MAX_FILE_BLOCKS ==>
                  File(d', l, m, j) == if m == n && j == i then b else File(d, l, m, j))
  {
    var a := Ptr(d, l, FileRef(n, i));
    var d' := WriteData(d, l, a, b);
    assert RefOk(d, l, FileRef(n, i));
    WriteDataEffect(d, l, a, b);
    forall q | InRange(l, q) ensures Ptr(d', l, q) == Ptr(d, l, q) {
      assert InodeOf(d', l, q.inumber) == InodeOf(d, l, q.inumber);
      assert Unshared(d, l, FileRef(n, i), Indirect(q.inumber));
    }
    OkAfterSameNames(d, d', l);
    forall m: nat, j: nat | m < Inodes(l) && j < MAX_FILE_BLOCKS
      ensures File(d', l, m, j) == if m == n && j == i then b else File(d, l, m, j) {
      assert Unshared(d, l, FileRef(n, i), FileRef(m, j));
      assert InRange(l, FileRef(m, j));
    }
  }

  /** Saving an inode whose pointers are those on the disk changes no file. */
  lemma ResaveOk(d: Disk, l: Layout, n: nat, x: Inode)
    requires Ok(d, l) && n < Inodes(l)
    requires x.direct == InodeOf(d, l, n).direct && x.indirect == InodeOf(d, l, n).indirect
    ensures var d' := SaveInode(d, l, n, x);
            && Ok(d', l)
            && (forall q {:trigger Ptr(d', l, q)} :: InRange(l, q) ==> Ptr(d', l, q) == Ptr(d, l, q))
            && (forall m: nat, j: nat {:trigger File(d', l, m, j)} :: m < Inodes(l) && j < MAX_FILE_BLOCKS ==>
                  File(d', l, m, j) == File(d, l, m, j))
  {
    var d' := SaveInode(d, l, n, x);
    SaveInodeEffect(d, l, n, x);
    forall q | InRange(l, q) ensures Ptr(d', l, q) == Ptr(d, l, q) {
      assert InodeOf(d', l, q.inumber).direct == InodeOf(d, l, q.inumber).direct;
      assert RefOk(d, l, Indirect(q.inumber));
    }
    OkAfterSameNames(d, d', l);
    SameFiles(d, d', l);
  }

  lemma SameFiles(d: Disk, d': Disk, l: Layout)
    requires Ok(d, l)
    requires forall q {:trigger Ptr(d', l, q)} :: InRange(l, q) ==> Ptr(d', l, q) == Ptr(d, l, q)
    requires forall k {:trigger Data(d', l, k)} :: 0 <= k < l.dataBlocks ==> Data(d', l, k) == Data(d, l, k)
    ensures forall m: nat, j: nat {:trigger File(d', l, m, j)} :: m < Inodes(l) && j < MAX_FILE_BLOCKS ==>
              File(d', l, m, j) == File(d, l, m, j)
  {
    forall m: nat, j: nat | m < Inodes(l) && j < MAX_FILE_BLOCKS ensures File(d', l, m, j) == File(d, l, m, j) {
      assert RefOk(d, l, FileRef(m, j));
      assert InRange(l, FileRef(m, j));
    }
  }

  /** A marked, unnamed block becomes direct block k of a file that had none there. */
  lemma AttachDirectOk(d: Disk, l: Layout, n: nat, x: Inode, k: nat, a: word)
    requires Ok(d, l) && n < Inodes(l) && k < DIRECT_POINTERS
    requires x.direct == InodeOf(d, l, n).direct[k := a] && x.indirect == InodeOf(d, l, n).indirect
    requires Unnamed(d, l, a) && 0 < a < l.dataBlocks && Marked(d, l, a)
    ensures var d' := SaveInode(d, l, n, x);
            && Ok(d', l) && Names(d, d', l, Direct(n, k), a)
            && (forall k {:trigger Data(d', l, k)} :: 0 <= k < l.dataBlocks ==> Data(d', l, k) == Data(d, l, k))
  {
    var d' := SaveInode(d, l, n, x);
    SaveInodeEffect(d, l, n, x);
    forall q | InRange(l, q) ensures Ptr(d', l, q) == if q == Direct(n, k) then a else Ptr(d, l, q) {
      assert InodeOf(d', l, q.inumber).indirect == InodeOf(d, l, q.inumber).indirect;
      assert RefOk(d, l, Indirect(q.inumber));
    }
    OkAfterNaming(d, d', l, Direct(n, k), a);
  }

  /** A marked, unnamed block becomes the indirect block of a file that had none, and is cleared. */
  lemma AttachIndirectOk(d: Disk, l: Layout, n: nat, x: Inode, a: word)
    requires Ok(d, l) && n < Inodes(l) && InodeOf(d, l, n).indirect == 0
    requires x.direct == InodeOf(d, l, n).direct && x.indirect == a
    requires Unnamed(d, l, a) && 0 < a < l.dataBlocks && Marked(d, l, a)
    ensures var d' := WriteData(SaveInode(d, l, n, x), l, a, ZeroBlock());
            && Ok(d', l) && Names(d, d', l, Indirect(n), a)
            && (forall m: nat, j: nat {:trigger File(d', l, m, j)} :: m < Inodes(l) && j < MAX_FILE_BLOCKS ==>
                  File(d', l, m, j) == File(d, l, m, j))
  {
    var d1 := SaveInode(d, l, n, x);
    var d' := WriteData(d1, l, a, ZeroBlock());
    SaveInodeEffect(d, l, n, x);
    WriteDataEffect(d1, l, a, ZeroBlock());
    forall q | InRange(l, q) ensures Ptr(d', l, q) == if q == Indirect(n) then a else Ptr(d, l, q) {
      assert InodeOf(d', l, q.inumber) == InodeOf(d1, l, q.inumber);
      assert InRange(l, Indirect(q.inumber)) && Ptr(d, l, Indirect(q.inumber)) != a;
      assert RefOk(d, l, Indirect(q.inumber));
    }
    OkAfterNaming(d, d', l, Indirect(n), a);
    forall m: nat, j: nat | m < Inodes(l) && j < MAX_FILE_BLOCKS ensures File(d', l, m, j) == File(d, l, m, j) {
      assert InRange(l, FileRef(m, j)) && Ptr(d, l, FileRef(m, j)) != a;
      assert RefOk(d, l, FileRef(m, j));
    }
  }

  /** A marked, unnamed block goes into a free pointer of the indirect block. */
  lemma AttachEntryOk(d: Disk, l: Layout, n: nat, j: nat, a: word)
    requires Ok(d, l) && n < Inodes(l) && j < POINTERS_PER_BLOCK && InodeOf(d, l, n).indirect != 0
    requires Unnamed(d, l, a) && 0 < a < l.dataBlocks && Marked(d, l, a)
    ensures var ind := InodeOf(d, l, n).indirect;
            var d' := WriteData(d, l, ind, SetPointer(Data(d, l, ind), j, a));
            && Ok(d', l) && Names(d, d', l, Entry(n, j), a)
            && (forall k {:trigger Data(d', l, k)} ::
                  0 <= k < l.dataBlocks && k != ind ==> Data(d', l, k) == Data(d, l, k))
  {
    var ind := InodeOf(d, l, n).indirect;
    var b := SetPointer(Data(d, l, ind), j, a);
    var d' := WriteData(d, l, ind, b);
    assert RefOk(d, l, Indirect(n));
    WriteDataEffect(d, l, ind, b);
    forall q | InRange(l, q) ensures Ptr(d', l, q) == if q == Entry(n, j) then a else Ptr(d, l, q) {
      assert InodeOf(d', l, q.inumber) == InodeOf(d, l, q.inumber);
      assert Unshared(d, l, Indirect(n), Indirect(q.inumber));
      if q.Entry? { PointerSet(Data(d, l, ind), j, a, q.j); }
    }
    OkAfterNaming(d, d', l, Entry(n, j), a);
  }

  // ---- free blocks

  ghost function FreeSet(d: Disk, l: Layout): set<int> {
    set k | 1 <= k < l.dataBlocks && !Marked(d, l, k)
  }

  /** How many blocks may still be allocated. */
  ghost function Free(d: Disk, l: Layout): nat {
    |FreeSet(d, l)|
  }

  /** No block is left to allocate. */
  ghost predicate Full(d: Disk, l: Layout) {
    forall a :: 0 < a < l.dataBlocks ==> Marked(d, l, a)
  }

  lemma FullIsNoneFree(d: Disk, l: Layout)
    ensures Full(d, l) <==> Free(d, l) == 0
  {
    if Free(d, l) == 0 {
      forall a | 0 < a < l.dataBlocks ensures Marked(d, l, a) { assert a !in FreeSet(d, l); }
    } else {
      var a :| a in FreeSet(d, l);
    }
  }

  /** At most k blocks get allocated. */
  ghost predicate Takes(d: Disk, d': Disk, l: Layout, k: nat) {
    Free(d', l) + k >= Free(d, l)
  }

  /** How many data blocks there is room for in file n, which may yet need an indirect block. */
  ghost function Room(d: Disk, l: Layout, n: nat): int {
    Free(d, l) - if InodeOf(d, l, n).indirect == 0 then 1 else 0
  }

  /** File n takes up at most k blocks more. */
  ghost predicate Spends(d: Disk, d': Disk, l: Layout, n: nat, k: nat) {
    Room(d', l, n) + k >= Room(d, l, n)
  }

  lemma TakeOne(d: Disk, l: Layout, a: nat)
    requires LayoutOk(l) && 0 < a < l.dataBlocks && a < BITS_PER_BLOCK && !Marked(d, l, a)
    ensures Free(Mark(d, l, a), l) == Free(d, l) - 1
  {
    MarkEffect(d, l, a);
    assert FreeSet(d, l) == FreeSet(Mark(d, l, a), l) + {a};
  }

  /** How many blocks a write of block i of file n has to allocate. */
  ghost function Missing(d: Disk, l: Layout, n: nat, i: nat): nat
    requires n < Inodes(l) && i < MAX_FILE_BLOCKS
  {
    if Ptr(d, l, FileRef(n, i)) != 0 then 0 else if i < DIRECT_POINTERS || InodeOf(d, l, n).indirect != 0 then 1 else 2
  }

  /** There is room for a write of block i of file n. */
  ghost predicate HasSpace(d: Disk, l: Layout, n: nat, i: nat)
    requires n < Inodes(l) && i < MAX_FILE_BLOCKS
  {
    Missing(d, l, n, i) <= Free(d, l)
  }

  /** A new indirect block brings what is missing for a block under it from two blocks to one. */
  lemma IndirectSpace(d: Disk, d': Disk, l: Layout, n: nat, i: nat)
    requires Ok(d, l) && n < Inodes(l) && DIRECT_POINTERS <= i < MAX_FILE_BLOCKS && InodeOf(d, l, n).indirect == 0
    requires InodeOf(d', l, n).indirect != 0 && Data(d', l, InodeOf(d', l, n).indirect) == ZeroBlock()
    requires Free(d', l) == Free(d, l) - 1
    ensures HasSpace(d', l, n, i) <==> HasSpace(d, l, n, i)
    ensures Missing(d, l, n, i) == 2 && Missing(d', l, n, i) == 1
  {
    ZeroPointer(i - DIRECT_POINTERS);
  }

  lemma TakeNone(d: Disk, d': Disk, l: Layout)
    requires forall k {:trigger Marked(d', l, k)} :: Marked(d', l, k) <==> Marked(d, l, k)
    ensures Free(d', l) == Free(d, l)
  {
    assert FreeSet(d', l) == FreeSet(d, l);
  }

  // ---- allocation and naming together, as a write performs them

  /** x names the blocks that inode n names on the disk. */
  ghost predicate Current(d: Disk, l: Layout, n: nat, x: Inode) {
    n < Inodes(l) && x.direct == InodeOf(d, l, n).direct && x.indirect == InodeOf(d, l, n).indirect
    && x.inuse == InodeOf(d, l, n).inuse
  }

  /** All inodes but n are as before. */
  ghost predicate OtherInodes(d: Disk, d': Disk, l: Layout, n: nat) {
    forall m: nat {:trigger InodeOf(d', l, m)} :: m < Inodes(l) && m != n ==> InodeOf(d', l, m) == InodeOf(d, l, m)
  }

  /** All blocks of all files are as before, but for block i of file n. */
  ghost predicate OtherBlocks(d: Disk, d': Disk, l: Layout, n: nat, i: int) {
    forall m: nat, j: nat {:trigger File(d', l, m, j)} ::
      m < Inodes(l) && j < MAX_FILE_BLOCKS && !(m == n && j == i) ==>
      File(d', l, m, j) == File(d, l, m, j)
  }

  /** Inodes other than n, blocks other than block i of file n, and the superblock are as before. */
  ghost predicate Undisturbed(d: Disk, d': Disk, l: Layout, n: nat, i: int) {
    OtherInodes(d, d', l, n) && OtherBlocks(d, d', l, n, i) && Blk(d', 0) == Blk(d, 0)
  }

  lemma SameNamesSameInodes(d: Disk, d': Disk, l: Layout, n: nat)
    requires forall m: nat {:trigger InodeOf(d', l, m)} :: m < Inodes(l) ==> InodeOf(d', l, m) == InodeOf(d, l, m)
    ensures OtherInodes(d, d', l, n)
  {
  }

  /** Naming a block that no one named changes what one file block names, and no other block. */
  lemma NamedElsewhere(d: Disk, d': Disk, l: Layout, n: nat, i: nat, a: word, ind: int)
    requires Ok(d, l) && n < Inodes(l) && i < MAX_FILE_BLOCKS && Names(d, d', l, FileRef(n, i), a)
    requires forall k {:trigger Data(d', l, k)} :: 0 <= k < l.dataBlocks && k != ind ==> Data(d', l, k) == Data(d, l, k)
    requires ind == -1 || (ind == Ptr(d, l, Indirect(n)) && ind != 0)
    ensures OtherBlocks(d, d', l, n, i)
  {
    forall m: nat, j: nat | m < Inodes(l) && j < MAX_FILE_BLOCKS && !(m == n && j == i)
      ensures File(d', l, m, j) == File(d, l, m, j) {
      assert RefOk(d, l, FileRef(m, j)) && InRange(l, FileRef(m, j)) && InRange(l, Indirect(n));
      assert Unshared(d, l, Indirect(n), FileRef(m, j));
      assert Ptr(d', l, FileRef(m, j)) == Ptr(d, l, FileRef(m, j));
    }
  }

  lemma DirectStep(d: Disk, l: Layout, n: nat, x: Inode, k: nat, a: word)
    requires Ok(d, l) && Current(d, l, n, x) && k < DIRECT_POINTERS
    requires 0 < a < l.dataBlocks && a < BITS_PER_BLOCK && !Marked(d, l, a)
    ensures var x' := x.(direct := x.direct[k := a]);
            var d' := SaveInode(Mark(d, l, a), l, n, x');
            && Ok(d', l) && Current(d', l, n, x') && Undisturbed(d, d', l, n, k) && Ptr(d', l, Direct(n, k)) == a
            && Free(d', l) == Free(d, l) - 1
  {
    var d1 := Mark(d, l, a);
    var x' := x.(direct := x.direct[k := a]);
    var d2 := SaveInode(d1, l, n, x');
    UnmarkedIsUnnamed(d, l, a);
    MarkEffect(d, l, a);
    MarkOk(d, l, a);
    assert InodeOf(d1, l, n) == InodeOf(d, l, n);
    AttachDirectOk(d1, l, n, x', k, a);
    SaveInodeEffect(d1, l, n, x');
    NamedElsewhere(d, d2, l, n, k, a, -1);
    TakeOne(d, l, a);
    TakeNone(d1, d2, l);
  }

  /** Giving a file its indirect block leaves every file block as it was. */
  lemma IndirectStep(d: Disk, l: Layout, n: nat, x: Inode, a: word)
    requires Ok(d, l) && Current(d, l, n, x) && x.indirect == 0
    requires 0 < a < l.dataBlocks && a < BITS_PER_BLOCK && !Marked(d, l, a)
    ensures var x' := x.(indirect := a);
            var d' := WriteData(SaveInode(Mark(d, l, a), l, n, x'), l, a, ZeroBlock());
            && Ok(d', l) && Current(d', l, n, x') && Undisturbed(d, d', l, n, -1) && Data(d', l, a) == ZeroBlock()
            && Free(d', l) == Free(d, l) - 1
  {
    var d1 := Mark(d, l, a);
    var x' := x.(indirect := a);
    var d2 := SaveInode(d1, l, n, x');
    var d3 := WriteData(d2, l, a, ZeroBlock());
    UnmarkedIsUnnamed(d, l, a);
    MarkEffect(d, l, a);
    MarkOk(d, l, a);
    assert InodeOf(d1, l, n) == InodeOf(d, l, n);
    AttachIndirectOk(d1, l, n, x', a);
    SaveInodeEffect(d1, l, n, x');
    WriteDataEffect(d2, l, a, ZeroBlock());
    SameFiles(d, d1, l);
    TakeOne(d, l, a);
    TakeNone(d1, d2, l);
    TakeNone(d2, d3, l);
  }

  lemma EntryStep(d: Disk, l: Layout, n: nat, x: Inode, j: nat, a: word)
    requires Ok(d, l) && Current(d, l, n, x) && x.indirect != 0 && j < POINTERS_PER_BLOCK
    requires 0 < a < l.dataBlocks && a < BITS_PER_BLOCK && !Marked(d, l, a)
    ensures var d' := WriteData(Mark(d, l, a), l, x.indirect, SetPointer(Data(d, l, x.indirect), j, a));
            && Ok(d', l) && Current(d', l, n, x) && Undisturbed(d, d', l, n, DIRECT_POINTERS + j)
            && Ptr(d', l, Entry(n, j)) == a && Free(d', l) == Free(d, l) - 1
  {
    var d1 := Mark(d, l, a);
    UnmarkedIsUnnamed(d, l, a);
    MarkEffect(d, l, a);
    MarkOk(d, l, a);
    assert InodeOf(d1, l, n) == InodeOf(d, l, n);
    assert RefOk(d, l, Indirect(n));
    assert Data(d1, l, x.indirect) == Data(d, l, x.indirect);
    AttachEntryOk(d1, l, n, j, a);
    var d' := WriteData(d1, l, x.indirect, SetPointer(Data(d1, l, x.indirect), j, a));
    WriteDataEffect(d1, l, x.indirect, SetPointer(Data(d1, l, x.indirect), j, a));
    assert Names(d, d', l, FileRef(n, DIRECT_POINTERS + j), a);
    NamedElsewhere(d, d', l, n, DIRECT_POINTERS + j, a, x.indirect);
    TakeOne(d, l, a);
    TakeNone(d1, d', l);
  }

  /** Writing into the block that a file names. */
  lemma WriteStep(d: Disk, l: Layout, n: nat, x: Inode, i: nat, b: block)
    requires Ok(d, l) && Current(d, l, n, x) && i < MAX_FILE_BLOCKS && Ptr(d, l, FileRef(n, i)) != 0
    ensures var a := Ptr(d, l, FileRef(n, i));
            var d' := WriteData(d, l, a, b);
            && a < l.dataBlocks && Ok(d', l) && Current(d', l, n, x) && Undisturbed(d, d', l, n, i)
               && File(d', l, n, i) == b
            && Free(d', l) == Free(d, l)
  {
    var a := Ptr(d, l, FileRef(n, i));
    assert RefOk(d, l, FileRef(n, i));
    WriteFileOk(d, l, n, i, b);
    WriteDataEffect(d, l, a, b);
    var d' := WriteData(d, l, a, b);
    SameNamesSameInodes(d, d', l, n);
    assert InodeOf(d', l, n) == InodeOf(d, l, n);
    TakeNone(d, d', l);
  }

  lemma UndisturbedTwice(d: Disk, d1: Disk, d2: Disk, l: Layout, n: nat, i: int, j: int)
    requires Undisturbed(d, d1, l, n, j) && Undisturbed(d1, d2, l, n, i) && (j == -1 || j == i)
    ensures Undisturbed(d, d2, l, n, i)
  {
    forall m: nat | m < Inodes(l) && m != n ensures InodeOf(d2, l, m) == InodeOf(d, l, m) {
      assert InodeOf(d1, l, m) == InodeOf(d, l, m);
    }
    forall m: nat, k: nat | m < Inodes(l) && k < MAX_FILE_BLOCKS && !(m == n && k == i)
      ensures File(d2, l, m, k) == File(d, l, m, k) {
      assert File(d1, l, m, k) == File(d, l, m, k);
    }
  }

  /** All pointers that lead to a file's block are pointers to data blocks. */
  lemma ReadableRef(d: Disk, l: Layout, n: nat, i: nat)
    requires Ok(d, l) && n < Inodes(l) && i < MAX_FILE_BLOCKS
    ensures Ptr(d, l, FileRef(n, i)) < l.dataBlocks && InodeOf(d, l, n).indirect < l.dataBlocks
  {
    assert RefOk(d, l, FileRef(n, i)) && RefOk(d, l, Indirect(n));
  }

  lemma NoIndirectNoBlock(d: Disk, l: Layout, n: nat, i: nat)
    requires Ok(d, l) && n < Inodes(l) && DIRECT_POINTERS <= i < MAX_FILE_BLOCKS && InodeOf(d, l, n).indirect == 0
    ensures File(d, l, n, i) == ZeroBlock()
  {
    ZeroPointer(i - DIRECT_POINTERS);
  }

  lemma SaveStep(d: Disk, l: Layout, n: nat, x: Inode)
    requires Ok(d, l) && Current(d, l, n, x)
    ensures var d' := SaveInode(d, l, n, x);
            && Ok(d', l) && Current(d', l, n, x) && Undisturbed(d, d', l, n, -1) && InodeOf(d', l, n) == x
            && Spends(d, d', l, n, 0)
  {
    ResaveOk(d, l, n, x);
    SaveInodeEffect(d, l, n, x);
    TakeNone(d, SaveInode(d, l, n, x), l);
  }

  /** The inodes and blocks of all files but n, and the superblock, are as before. */
  ghost predicate OtherFiles(d: Disk, d': Disk, l: Layout, n: nat) {
    OtherInodes(d, d', l, n) && Blk(d', 0) == Blk(d, 0)
    && forall m: nat, j: nat {:trigger File(d', l, m, j)} :: m < Inodes(l) && j < MAX_FILE_BLOCKS && m != n ==>
         File(d', l, m, j) == File(d, l, m, j)
  }

  /** Inodes in use stay in use. */
  ghost predicate StillInUse(d: Disk, d': Disk, l: Layout) {
    forall m: nat {:trigger InodeOf(d', l, m)} ::
      m < Inodes(l) && InodeOf(d, l, m).inuse != 0 ==> InodeOf(d', l, m).inuse != 0
  }

  lemma InUseAfter(d: Disk, d': Disk, l: Layout, n: nat)
    requires OtherInodes(d, d', l, n) && InodeOf(d', l, n).inuse == InodeOf(d, l, n).inuse
    ensures StillInUse(d, d', l)
  {
  }

  lemma SaveAgain(d: Disk, l: Layout, n: nat)
    requires n < Inodes(l)
    ensures l.inodeStart + n / INODES_PER_BLOCK in d ==> SaveInode(d, l, n, InodeOf(d, l, n)) == d
  {
    InodeResave(Blk(d, l.inodeStart + n / INODES_PER_BLOCK), n % INODES_PER_BLOCK);
  }

  const EMPTY_INODE := Inode(1, 0, [0, 0, 0, 0, 0, 0], 0)

  /** Inode n, which was not in use, is an empty file now; no other file changes. */
  ghost predicate Emptied(d: Disk, d': Disk, l: Layout, n: nat) {
    && n < Inodes(l) && InodeOf(d, l, n).inuse == 0 && InodeOf(d', l, n) == Inode(1, 0, [0, 0, 0, 0, 0, 0], 0)
    && OtherFiles(d, d', l, n) && StillInUse(d, d', l) && Free(d', l) == Free(d, l)
    && (forall j: nat :: j < MAX_FILE_BLOCKS ==> File(d', l, n, j) == ZeroBlock())
    && (forall q {:trigger Ptr(d', l, q)} :: InRange(l, q) && q.inumber != n ==> Ptr(d', l, q) == Ptr(d, l, q))
  }

  lemma EmptyStep(d: Disk, l: Layout, n: nat, x: Inode)
    requires Ok(d, l) && n < Inodes(l) && InodeOf(d, l, n).inuse == 0
    ensures var d' := SaveInode(SaveInode(d, l, n, x), l, n, EMPTY_INODE);
            Ok(d', l) && Emptied(d, d', l, n)
  {
    var d1 := SaveInode(d, l, n, x);
    var d' := SaveInode(d1, l, n, EMPTY_INODE);
    SaveInodeEffect(d, l, n, x);
    SaveInodeEffect(d1, l, n, EMPTY_INODE);
    TakeNone(d, d1, l);
    TakeNone(d1, d', l);
    assert forall m: nat {:trigger InodeOf(d', l, m)} ::
             m < Inodes(l) && m != n ==> InodeOf(d1, l, m) == InodeOf(d, l, m);
    forall q | InRange(l, q) ensures Ptr(d', l, q) == if q.inumber == n then 0 else Ptr(d, l, q) {
      EmptiedPointer(d, d1, d', l, n, q);
    }
    forall q ensures RefOk(d', l, q) { assert RefOk(d, l, q); }
    forall q, q' ensures Unshared(d', l, q, q') { assert Unshared(d, l, q, q'); }
    forall m: nat, j: nat | m < Inodes(l) && j < MAX_FILE_BLOCKS
      ensures File(d', l, m, j) == if m == n then ZeroBlock() else File(d, l, m, j) {
      assert InRange(l, FileRef(m, j)) && RefOk(d, l, FileRef(m, j));
    }
  }

  lemma EmptiedPointer(d: Disk, d1: Disk, d': Disk, l: Layout, n: nat, q: Ref)
    requires Ok(d, l) && InRange(l, q)
    requires InodeOf(d', l, q.inumber) == if q.inumber == n then EMPTY_INODE else InodeOf(d, l, q.inumber)
    requires forall k {:trigger Data(d', l, k)} :: 0 <= k < l.dataBlocks ==> Data(d', l, k) == Data(d, l, k)
    ensures Ptr(d', l, q) == if q.inumber == n then 0 else Ptr(d, l, q)
  {
    assert RefOk(d, l, Indirect(q.inumber));
    if q.inumber == n && q.Entry? { ZeroPointer(q.j); }
  }
}
