/** What the file system keeps in its blocks: little-endian words, records at fixed offsets. */
module Codec {
  import opened Words
  import opened Blocks

  /** The bytes of record j in a block of records of size z. */
  function Slot(b: block, z: nat, j: nat): (s: seq<byte>)
    requires z * j + z <= BLOCK_SIZE
    ensures |s| == z
  {
    b[z * j..z * j + z]
  }

  function PutSlot(b: block, z: nat, j: nat, bytes: seq<byte>): (b': block)
    requires z * j + z <= BLOCK_SIZE && |bytes| == z
  {
    b[..z * j] + bytes + b[z * j + z..]
  }

  /** Storing a record changes that record alone. */
  lemma SlotPut(b: block, z: nat, j: nat, bytes: seq<byte>, k: nat)
    requires z * j + z <= BLOCK_SIZE && z * k + z <= BLOCK_SIZE && |bytes| == z
    ensures Slot(PutSlot(b, z, j, bytes), z, k) == if k == j then bytes else Slot(b, z, k)
  {
    var b' := PutSlot(b, z, j, bytes);
    if k < j {
      MulMonotone(k, j, z);
      assert b'[z * k..z * k + z] == b[z * k..z * k + z];
    } else if j < k {
      MulMonotone(j, k, z);
      assert b'[z * k..z * k + z] == b[z * k..z * k + z];
    } else {
      assert b'[z * j..z * j + z] == bytes;
    }
  }

  lemma PutSame(b: block, z: nat, j: nat)
    requires z * j + z <= BLOCK_SIZE
    ensures PutSlot(b, z, j, Slot(b, z, j)) == b
  {
  }

  function EncodeWord(w: word): (s: seq<byte>)
    ensures |s| == 4
  {
    [w % 256, w / 256 % 256, w / 256 / 256 % 256, w / 256 / 256 / 256]
  }

  function DecodeWord(s: seq<byte>): word
    requires |s| == 4
  {
    var a: int, b: int, c: int, d: int := s[0], s[1], s[2], s[3];
    a + 256 * (b + 256 * (c + 256 * d))
  }

  /** The word whose four bytes start at a place, the least significant first. */
  function WordAt(s: seq<byte>, at: nat): int
    requires at + 4 <= |s|
  {
    var a: int, b: int, c: int, d: int := s[at], s[at + 1], s[at + 2], s[at + 3];
    a + 0x100 * b + 0x1_0000 * c + 0x100_0000 * d
  }

  lemma {:induction false} WordsAt(s: seq<byte>, n: nat, i: nat)
    requires |s| == 4 * n && i < n
    ensures DecodeWords(s, n)[i] == WordAt(s, 4 * i)
  {
    if i > 0 { WordsAt(s[4..], n - 1, i - 1); }
  }

  /** What is in a record is in its block, so much further on. */
  lemma SlotAt(b: block, z: nat, j: nat, at: nat, place: nat)
    requires z * j + z <= 4096 && at + 4 <= z && place == z * j + at
    ensures WordAt(Slot(b, z, j), at) == WordAt(b, place)
  {
  }

  lemma WordRoundTrip(w: word)
    ensures DecodeWord(EncodeWord(w)) == w
  {
  }

  function EncodeWords(ws: seq<word>): (s: seq<byte>)
    ensures |s| == 4 * |ws|
  {
    if ws == [] then [] else EncodeWord(ws[0]) + EncodeWords(ws[1..])
  }

  function DecodeWords(s: seq<byte>, n: nat): (ws: seq<word>)
    requires |s| == 4 * n
    ensures |ws| == n
  {
    if n == 0 then [] else [DecodeWord(s[..4])] + DecodeWords(s[4..], n - 1)
  }

  lemma {:induction false} WordsRoundTrip(ws: seq<word>)
    ensures DecodeWords(EncodeWords(ws), |ws|) == ws
  {
    if ws != [] {
      var s := EncodeWords(ws);
      assert s[..4] == EncodeWord(ws[0]) && s[4..] == EncodeWords(ws[1..]);
      WordRoundTrip(ws[0]);
      WordsRoundTrip(ws[1..]);
    }
  }

  lemma {:induction false} ZeroWords(s: seq<byte>, n: nat)
    requires |s| == 4 * n && forall i :: 0 <= i < |s| ==> s[i] == 0
    ensures forall i :: 0 <= i < n ==> DecodeWords(s, n)[i] == 0
  {
    if n > 0 { ZeroWords(s[4..], n - 1); }
  }

  // ---- inodes: 36 bytes, 113 to a block

  const DIRECT_POINTERS: nat := 6
  const INODE_SIZE: nat := 36
  const INODES_PER_BLOCK: nat := 113
  const POINTERS_PER_BLOCK: nat := 1024

  type pointers = s: seq<word> | |s| == DIRECT_POINTERS witness [0, 0, 0, 0, 0, 0]

  datatype Inode = Inode(inuse: word, size: word, direct: pointers, indirect: word)

  const ZERO_INODE := Inode(0, 0, [0, 0, 0, 0, 0, 0], 0)

  function EncodeInode(n: Inode): (s: seq<byte>)
    ensures |s| == INODE_SIZE
  {
    EncodeWords([n.inuse, n.size] + n.direct + [n.indirect])
  }

  function DecodeInode(s: seq<byte>): Inode
    requires |s| == INODE_SIZE
  {
    var ws := DecodeWords(s, 9);
    Inode(ws[0], ws[1], ws[2..8], ws[8])
  }

  lemma InodeRoundTrip(n: Inode)
    ensures DecodeInode(EncodeInode(n)) == n
  {
    var ws := [n.inuse, n.size] + n.direct + [n.indirect];
    WordsRoundTrip(ws);
    assert ws[2..8] == n.direct;
  }

  lemma ZeroIsZeroInode(s: seq<byte>)
    requires |s| == INODE_SIZE && forall i :: 0 <= i < |s| ==> s[i] == 0
    ensures DecodeInode(s) == ZERO_INODE
  {
    ZeroWords(s, 9);
    assert DecodeWords(s, 9)[2..8] == [0, 0, 0, 0, 0, 0];
  }

  /** Every 36-byte record decodes and encodes back to itself. */
  lemma {:induction false} DecodeEncodeWords(s: seq<byte>, n: nat)
    requires |s| == 4 * n
    ensures EncodeWords(DecodeWords(s, n)) == s
  {
    if n > 0 {
      var ws := DecodeWords(s, n);
      assert ws[1..] == DecodeWords(s[4..], n - 1);
      DecodeEncodeWords(s[4..], n - 1);
      DecodeEncodeWord(s[..4]);
      assert s == s[..4] + s[4..];
    }
  }

  lemma DecodeEncodeWord(s: seq<byte>)
    requires |s| == 4
    ensures EncodeWord(DecodeWord(s)) == s
  {
    var a: int, b: int, c: int, d: int := s[0], s[1], s[2], s[3];
    var w: int := DecodeWord(s);
    assert w / 256 == b + 256 * (c + 256 * d) && w % 256 == a;
    assert w / 256 / 256 == c + 256 * d && w / 256 % 256 == b;
    assert w / 256 / 256 / 256 == d && w / 256 / 256 % 256 == c;
  }

  lemma DecodeEncodeInode(s: seq<byte>)
    requires |s| == INODE_SIZE
    ensures EncodeInode(DecodeInode(s)) == s
  {
    var ws := DecodeWords(s, 9);
    DecodeEncodeWords(s, 9);
    assert [ws[0], ws[1]] + ws[2..8] + [ws[8]] == ws;
  }

  // ---- pointers in an indirect block

  function PointerAt(b: block, j: nat): word
    requires j < POINTERS_PER_BLOCK
  {
    DecodeWord(Slot(b, 4, j))
  }

  function SetPointer(b: block, j: nat, w: word): block
    requires j < POINTERS_PER_BLOCK
  {
    PutSlot(b, 4, j, EncodeWord(w))
  }

  lemma PointerSet(b: block, j: nat, w: word, k: nat)
    requires j < POINTERS_PER_BLOCK && k < POINTERS_PER_BLOCK
    ensures PointerAt(SetPointer(b, j, w), k) == if k == j then w else PointerAt(b, k)
  {
    WordRoundTrip(w);
    SlotPut(b, 4, j, EncodeWord(w), k);
  }

  lemma ZeroPointer(j: nat)
    requires j < POINTERS_PER_BLOCK
    ensures PointerAt(ZeroBlock(), j) == 0
  {
  }

  // ---- inodes in an inode block

  function InodeIn(b: block, j: nat): Inode
    requires j < INODES_PER_BLOCK
  {
    DecodeInode(Slot(b, INODE_SIZE, j))
  }

  function SetInode(b: block, j: nat, n: Inode): block
    requires j < INODES_PER_BLOCK
  {
    PutSlot(b, INODE_SIZE, j, EncodeInode(n))
  }

  lemma InodeSet(b: block, j: nat, n: Inode, k: nat)
    requires j < INODES_PER_BLOCK && k < INODES_PER_BLOCK
    ensures InodeIn(SetInode(b, j, n), k) == if k == j then n else InodeIn(b, k)
  {
    InodeRoundTrip(n);
    SlotPut(b, INODE_SIZE, j, EncodeInode(n), k);
  }

  lemma InodeResave(b: block, j: nat)
    requires j < INODES_PER_BLOCK
    ensures SetInode(b, j, InodeIn(b, j)) == b
  {
    DecodeEncodeInode(Slot(b, INODE_SIZE, j));
    PutSame(b, INODE_SIZE, j);
  }

  /** Inode j of a block is nine words from byte 36 * j on. */
  lemma InodeBytes(b: block, j: nat)
    requires j < 113
    ensures var x := InodeIn(b, j);
            && x.inuse == WordAt(b, 36 * j) && x.size == WordAt(b, 36 * j + 4) && x.indirect == WordAt(b, 36 * j + 32)
            && (forall k :: 0 <= k < 6 ==> x.direct[k] == WordAt(b, 36 * j + 8 + 4 * k))
  {
    var s := Slot(b, INODE_SIZE, j);
    forall i: nat | i < 9 ensures DecodeWords(s, 9)[i] == WordAt(b, 36 * j + 4 * i) {
      WordsAt(s, 9, i);
      SlotAt(b, INODE_SIZE, j, 4 * i, 36 * j + 4 * i);
    }
  }

  /** Pointer j of an indirect block is the word at byte 4 * j. */
  lemma PointerBytes(b: block, j: nat)
    requires j < 1024
    ensures PointerAt(b, j) == WordAt(b, 4 * j)
  {
    SlotAt(b, 4, j, 0, 4 * j);
  }

  // ---- directory items: 32 bytes, 128 to a block

  const ITEM_SIZE: nat := 32
  const ITEMS_PER_BLOCK: nat := 128
  const NAME_MAX: nat := 26
  const ITEM_BLANK: byte := 0
  const ITEM_FILE: byte := 1
  const ITEM_DIR: byte := 2

  /** A 32-byte item; only the first nameLength bytes of the name field are the name. */
  datatype Item = Item(inumber: word, kind: byte, nameLength: byte, field: seq<byte>)

  function DecodeItem(s: seq<byte>): (r: Item)
    requires |s| == ITEM_SIZE
    ensures |r.field| == NAME_MAX
  {
    Item(DecodeWord(s[..4]), s[4], s[5], s[6..])
  }

  function EncodeItem(r: Item): (s: seq<byte>)
    requires |r.field| == NAME_MAX
    ensures |s| == ITEM_SIZE
  {
    EncodeWord(r.inumber) + [r.kind, r.nameLength] + r.field
  }

  lemma ItemRoundTrip(r: Item)
    requires |r.field| == NAME_MAX
    ensures DecodeItem(EncodeItem(r)) == r
  {
    WordRoundTrip(r.inumber);
    var s := EncodeItem(r);
    assert s[..4] == EncodeWord(r.inumber) && s[6..] == r.field;
  }

  function ItemIn(b: block, j: nat): (r: Item)
    requires j < ITEMS_PER_BLOCK
    ensures |r.field| == NAME_MAX
  {
    DecodeItem(Slot(b, ITEM_SIZE, j))
  }

  function SetItem(b: block, j: nat, r: Item): block
    requires j < ITEMS_PER_BLOCK && |r.field| == NAME_MAX
  {
    PutSlot(b, ITEM_SIZE, j, EncodeItem(r))
  }

  lemma ItemSet(b: block, j: nat, r: Item, k: nat)
    requires j < ITEMS_PER_BLOCK && k < ITEMS_PER_BLOCK && |r.field| == NAME_MAX
    ensures ItemIn(SetItem(b, j, r), k) == if k == j then r else ItemIn(b, k)
  {
    ItemRoundTrip(r);
    SlotPut(b, ITEM_SIZE, j, EncodeItem(r), k);
  }

  /** Item j of a block starts at byte 32 * j, with the inode number, the kind (0 for a blank item,
      1 for a file, 2 for a directory), the length of the name and 26 bytes for it. */
  lemma ItemBytes(b: block, j: nat)
    requires j < 128
    ensures var e := ItemIn(b, j);
            && e.inumber == WordAt(b, 32 * j) && e.kind == b[32 * j + 4] && e.nameLength == b[32 * j + 5]
            && e.field == b[32 * j + 6..32 * j + 32]
    ensures ITEM_BLANK == 0 && ITEM_FILE == 1 && ITEM_DIR == 2
  {
    var s := Slot(b, ITEM_SIZE, j);
    SlotAt(b, ITEM_SIZE, j, 0, 32 * j);
    assert s[6..] == b[32 * j + 6..32 * j + 32];
  }

  lemma ZeroItem(j: nat)
    requires j < ITEMS_PER_BLOCK
    ensures ItemIn(ZeroBlock(), j).kind == ITEM_BLANK
  {
  }
}
