/** Directories: a directory is a sequence of 32-byte items, and means a map from names to
    inode numbers and kinds. */
module Directory {
  import opened Words
  import opened Blocks
  import opened Codec
  import opened DiskState

  type Name = seq<byte>

  const DOT: Name := [46]

  function NameOf(e: Item): Name {
    if e.nameLength <= |e.field| then e.field[..e.nameLength] else e.field
  }

  predicate Is(e: Item, name: Name) {
    e.kind != ITEM_BLANK && NameOf(e) == name
  }

  /** The map that the items stand for. */
  ghost function Entries(items: seq<Item>): map<Name, (word, byte)> {
    if items == [] then map[]
    else
      var e := items[|items| - 1];
      var m := Entries(items[..|items| - 1]);
      if e.kind == ITEM_BLANK then m else m[NameOf(e) := (e.inumber, e.kind)]
  }

  ghost predicate UniqueNames(items: seq<Item>) {
    forall s, t :: 0 <= s < t < |items| && items[s].kind != ITEM_BLANK && items[t].kind != ITEM_BLANK ==>
      NameOf(items[s]) != NameOf(items[t])
  }

  ghost predicate Absent(items: seq<Item>, n: nat, name: Name) {
    forall s :: 0 <= s < n && s < |items| ==> !Is(items[s], name)
  }

  lemma {:induction false} AbsentFromEntries(items: seq<Item>, name: Name)
    ensures Absent(items, |items|, name) <==> name !in Entries(items)
  {
    if items != [] {
      var n := |items| - 1;
      AbsentFromEntries(items[..n], name);
      assert Absent(items, |items|, name) <==> Absent(items[..n], n, name) && !Is(items[n], name);
    }
  }

  lemma {:induction false} EntryAt(items: seq<Item>, s: nat)
    requires UniqueNames(items) && s < |items| && items[s].kind != ITEM_BLANK
    ensures NameOf(items[s]) in Entries(items)
    ensures Entries(items)[NameOf(items[s])] == (items[s].inumber, items[s].kind)
  {
    var n := |items| - 1;
    if s < n { EntryAt(items[..n], s); }
  }

  /** Filling a blank slot with a new name adds that name to the map and changes no other. */
  lemma {:induction false} EntriesSet(items: seq<Item>, s: nat, e: Item)
    requires s < |items| && items[s].kind == ITEM_BLANK && e.kind != ITEM_BLANK && NameOf(e) !in Entries(items)
    ensures Entries(items[s := e]) == Entries(items)[NameOf(e) := (e.inumber, e.kind)]
  {
    var n := |items| - 1;
    var items' := items[s := e];
    AbsentFromEntries(items, NameOf(e));
    AbsentFromEntries(items[..n], NameOf(e));
    if s == n {
      assert items'[..n] == items[..n];
    } else {
      assert items'[..n] == items[..n][s := e];
      EntriesSet(items[..n], s, e);
    }
  }

  lemma {:induction false} EntriesBlank(items: seq<Item>, more: seq<Item>)
    requires forall t :: 0 <= t < |more| ==> more[t].kind == ITEM_BLANK
    ensures Entries(items + more) == Entries(items)
  {
    if more == [] {
      assert items + more == items;
    } else {
      var n := |more| - 1;
      assert (items + more)[..|items + more| - 1] == items + more[..n];
      EntriesBlank(items, more[..n]);
    }
  }

  // ---- directories on a disk

  /** The blocks of a directory of so many bytes. */
  function BlocksFor(size: nat): (n: nat)
    ensures size <= 4096 * n < size + 4096
  {
    size / BLOCK_SIZE + if size % BLOCK_SIZE != 0 then 1 else 0
  }

  ghost function ItemOf(d: Disk, l: Layout, n: nat, s: nat): (e: Item)
    requires n < Inodes(l) && s < MAX_FILE_BLOCKS * ITEMS_PER_BLOCK
    ensures |e.field| == NAME_MAX
  {
    ItemIn(File(d, l, n, s / ITEMS_PER_BLOCK), s % ITEMS_PER_BLOCK)
  }

  /** Item s of a directory is 32 bytes of its block s / 128; its name is as many bytes of the name
      field as the length says. */
  lemma ItemPlace(d: Disk, l: Layout, n: nat, s: nat)
    requires n < Inodes(l) && s < 1030 * 128
    ensures var b, at, e := File(d, l, n, s / 128), 32 * (s % 128), ItemOf(d, l, n, s);
            && e.inumber == WordAt(b, at) && e.kind == b[at + 4] && e.nameLength == b[at + 5]
            && (e.nameLength <= 26 ==> NameOf(e) == b[at + 6..at + 6 + e.nameLength])
  {
    ItemBytes(File(d, l, n, s / 128), s % 128);
  }

  /** The items in the first blocks of file n. */
  ghost function Listing(d: Disk, l: Layout, n: nat, blocks: nat): (items: seq<Item>)
    requires n < Inodes(l) && blocks <= MAX_FILE_BLOCKS
    ensures |items| == blocks * ITEMS_PER_BLOCK
  {
    seq(blocks * ITEMS_PER_BLOCK, s requires 0 <= s < blocks * ITEMS_PER_BLOCK => ItemOf(d, l, n, s))
  }

  /** An item names an inode in use. */
  ghost predicate Fits(d: Disk, l: Layout, e: Item) {
    e.kind != ITEM_BLANK ==>
      |e.field| == NAME_MAX && e.nameLength <= NAME_MAX && e.inumber < Inodes(l) && InodeOf(d, l, e.inumber).inuse != 0
  }

  ghost predicate AllFit(d: Disk, l: Layout, items: seq<Item>) {
    forall s :: 0 <= s < |items| ==> Fits(d, l, items[s])
  }

  ghost predicate BlankFrom(items: seq<Item>, size: nat) {
    forall s :: 0 <= s < |items| && s * ITEM_SIZE >= size ==> items[s].kind == ITEM_BLANK
  }

  /** File n is a directory: names are unique, items past the size are blank. */
  ghost predicate DirOk(d: Disk, l: Layout, n: nat, size: nat) {
    && n < Inodes(l) && size % ITEM_SIZE == 0 && size <= MAX_FILE_BLOCKS * BLOCK_SIZE
    && ListingOk(d, l, Listing(d, l, n, BlocksFor(size)), size)
  }

  ghost predicate ListingOk(d: Disk, l: Layout, items: seq<Item>, size: nat) {
    UniqueNames(items) && AllFit(d, l, items) && BlankFrom(items, size)
  }

  /** What directory n means. */
  ghost function DirMap(d: Disk, l: Layout, n: nat, size: nat): map<Name, (word, byte)>
    requires n < Inodes(l) && size <= MAX_FILE_BLOCKS * BLOCK_SIZE
  {
    Entries(Listing(d, l, n, BlocksFor(size)))
  }

  lemma StillFit(d: Disk, d': Disk, l: Layout, items: seq<Item>)
    requires AllFit(d, l, items) && StillInUse(d, d', l)
    ensures AllFit(d', l, items)
  {
    forall s | 0 <= s < |items| ensures Fits(d', l, items[s]) {
      if items[s].kind != ITEM_BLANK { assert InodeOf(d', l, items[s].inumber).inuse != 0; }
    }
  }

  lemma SlotNumber(i: nat, j: nat)
    requires j < ITEMS_PER_BLOCK
    ensures (i * ITEMS_PER_BLOCK + j) / ITEMS_PER_BLOCK == i && (i * ITEMS_PER_BLOCK + j) % ITEMS_PER_BLOCK == j
  {
  }

  lemma ListingSame(d: Disk, d': Disk, l: Layout, n: nat, blocks: nat, i: int)
    requires n < Inodes(l) && blocks <= MAX_FILE_BLOCKS && OtherBlocks(d, d', l, n, i)
    requires i < 0 || i >= blocks || File(d', l, n, i) == File(d, l, n, i)
    ensures Listing(d', l, n, blocks) == Listing(d, l, n, blocks)
  {
    forall s: nat | s < blocks * ITEMS_PER_BLOCK ensures ItemOf(d', l, n, s) == ItemOf(d, l, n, s) {
      assert File(d', l, n, s / ITEMS_PER_BLOCK) == File(d, l, n, s / ITEMS_PER_BLOCK);
    }
  }

  /** Writing item j of block i changes that item of the listing. */
  lemma ListingSet(d: Disk, d': Disk, l: Layout, n: nat, blocks: nat, i: nat, j: nat, e: Item)
    requires n < Inodes(l) && i < blocks <= MAX_FILE_BLOCKS && j < ITEMS_PER_BLOCK && |e.field| == NAME_MAX
    requires OtherBlocks(d, d', l, n, i) && File(d', l, n, i) == SetItem(File(d, l, n, i), j, e)
    ensures Listing(d', l, n, blocks) == Listing(d, l, n, blocks)[i * ITEMS_PER_BLOCK + j := e]
  {
    SlotNumber(i, j);
    forall s: nat | s < blocks * ITEMS_PER_BLOCK
      ensures ItemOf(d', l, n, s) == if s == i * ITEMS_PER_BLOCK + j then e else ItemOf(d, l, n, s) {
      ItemSet(File(d, l, n, i), j, e, s % ITEMS_PER_BLOCK);
      if s / ITEMS_PER_BLOCK != i { assert File(d', l, n, s / ITEMS_PER_BLOCK) == File(d, l, n, s / ITEMS_PER_BLOCK); }
    }
  }

  ghost function ItemsIn(b: block): (items: seq<Item>)
    ensures |items| == ITEMS_PER_BLOCK
  {
    seq(ITEMS_PER_BLOCK, j requires 0 <= j < ITEMS_PER_BLOCK => ItemIn(b, j))
  }

  lemma ListingGrow(d: Disk, d': Disk, l: Layout, n: nat, i: nat)
    requires n < Inodes(l) && i < MAX_FILE_BLOCKS && OtherBlocks(d, d', l, n, i)
    ensures Listing(d', l, n, i + 1) == Listing(d, l, n, i) + ItemsIn(File(d', l, n, i))
  {
    var more := ItemsIn(File(d', l, n, i));
    forall s: nat | s < (i + 1) * ITEMS_PER_BLOCK
      ensures ItemOf(d', l, n, s) == (Listing(d, l, n, i) + more)[s] {
      if s < i * ITEMS_PER_BLOCK {
        assert File(d', l, n, s / ITEMS_PER_BLOCK) == File(d, l, n, s / ITEMS_PER_BLOCK);
      } else {
        SlotNumber(i, s - i * ITEMS_PER_BLOCK);
      }
    }
  }

  // ---- adding an entry

  /** Item e with a new name, kind and inode number; the tail of the name field keeps what it had. */
  function NewItem(e: Item, name: Name, kind: byte, inumber: word): (e': Item)
    requires |e.field| == NAME_MAX && |name| <= NAME_MAX
    ensures |e'.field| == NAME_MAX && NameOf(e') == name
  {
    Item(inumber, kind, |name|, name + e.field[|name|..])
  }

  /** The size of a directory once the slot is filled. */
  function SizeWith(size: nat, s: nat): nat {
    if (s + 1) * ITEM_SIZE > size then (s + 1) * ITEM_SIZE else size
  }

  lemma SameBlocksFor(size: nat, s: nat)
    requires s < BlocksFor(size) * ITEMS_PER_BLOCK
    ensures BlocksFor(SizeWith(size, s)) == BlocksFor(size) && SizeWith(size, s) <= BlocksFor(size) * BLOCK_SIZE
    ensures size % ITEM_SIZE == 0 ==> SizeWith(size, s) % ITEM_SIZE == 0
  {
    hide BlocksFor;
    var n, size' := BlocksFor(size), SizeWith(size, s);
    assert size' <= 4096 * n < size' + 4096;
    assert 4096 * (BlocksFor(size') - n) < 4096 && 4096 * (n - BlocksFor(size')) < 4096;
  }

  lemma SizeGrown(size: nat, blocks: nat)
    requires size == blocks * BLOCK_SIZE && blocks < MAX_FILE_BLOCKS
    ensures BlocksFor(size + ITEM_SIZE) == blocks + 1
    ensures (size + ITEM_SIZE) % ITEM_SIZE == 0 && size + ITEM_SIZE <= MAX_FILE_BLOCKS * BLOCK_SIZE
  {
    assert size + ITEM_SIZE == ITEM_SIZE * (blocks * 128 + 1);
  }

  /** What an entry needs to go into directory n. */
  ghost predicate CanAdd(d: Disk, l: Layout, n: nat, size: nat, name: Name, kind: byte, inumber: word) {
    && DirOk(d, l, n, size) && size < MAX_FILE_BLOCKS * BLOCK_SIZE
    && |name| <= NAME_MAX && kind != ITEM_BLANK && name !in DirMap(d, l, n, size)
    && inumber < Inodes(l) && InodeOf(d, l, inumber).inuse != 0
  }

  lemma DirOkIf(d: Disk, l: Layout, n: nat, size: nat, blocks: nat, items: seq<Item>)
    requires n < Inodes(l) && size % ITEM_SIZE == 0 && size <= MAX_FILE_BLOCKS * BLOCK_SIZE
    requires BlocksFor(size) == blocks
    requires Listing(d, l, n, blocks) == items
    requires ListingOk(d, l, items, size)
    ensures DirOk(d, l, n, size) && DirMap(d, l, n, size) == Entries(items)
  {
  }

  lemma FilledOk(d: Disk, l: Layout, items: seq<Item>, s: nat, e: Item, size: nat)
    requires ListingOk(d, l, items, size) && s < |items| && items[s].kind == ITEM_BLANK
    requires e.kind != ITEM_BLANK && Fits(d, l, e) && NameOf(e) !in Entries(items)
    ensures ListingOk(d, l, items[s := e], SizeWith(size, s))
  {
    AbsentFromEntries(items, NameOf(e));
  }

  lemma GrownOk(d: Disk, l: Layout, items: seq<Item>, blanks: seq<Item>, size: nat, size': nat)
    requires ListingOk(d, l, items, size) && |items| * ITEM_SIZE == size <= size'
    requires forall j :: 0 <= j < |blanks| ==> blanks[j].kind == ITEM_BLANK
    ensures ListingOk(d, l, items + blanks, size) && ListingOk(d, l, items + blanks, size')
  {
  }

  lemma NewItemFits(d: Disk, d': Disk, l: Layout, e: Item)
    requires e.nameLength <= NAME_MAX == |e.field| && e.inumber < Inodes(l) && InodeOf(d, l, e.inumber).inuse != 0
    requires StillInUse(d, d', l)
    ensures Fits(d', l, e)
  {
    assert InodeOf(d', l, e.inumber).inuse != 0;
  }

  /** A free slot of an existing block is filled. */
  lemma AddStep(d: Disk, d': Disk, l: Layout, n: nat, size: nat, i: nat, j: nat, e: Item)
    requires CanAdd(d, l, n, size, NameOf(e), e.kind, e.inumber) && StillInUse(d, d', l)
             && e.nameLength <= NAME_MAX == |e.field|
    requires i < BlocksFor(size) && j < ITEMS_PER_BLOCK && OtherBlocks(d, d', l, n, i)
    requires ItemIn(File(d, l, n, i), j).kind == ITEM_BLANK && File(d', l, n, i) == SetItem(File(d, l, n, i), j, e)
    ensures var size' := SizeWith(size, i * ITEMS_PER_BLOCK + j);
            && DirOk(d', l, n, size')
            && DirMap(d', l, n, size') == DirMap(d, l, n, size)[NameOf(e) := (e.inumber, e.kind)]
  {
    var s := i * ITEMS_PER_BLOCK + j;
    var blocks := BlocksFor(size);
    var items := Listing(d, l, n, blocks);
    SlotNumber(i, j);
    assert items[s] == ItemIn(File(d, l, n, i), j);
    SameBlocksFor(size, s);
    ListingSet(d, d', l, n, blocks, i, j, e);
    StillFit(d, d', l, items);
    NewItemFits(d, d', l, e);
    EntriesSet(items, s, e);
    FilledOk(d', l, items, s, e, size);
    DirOkIf(d', l, n, SizeWith(size, s), blocks, items[s := e]);
  }

  /** The block could not be written: the directory means what it meant. */
  lemma AddFailedStep(d: Disk, d': Disk, l: Layout, n: nat, size: nat, i: nat, j: nat)
    requires DirOk(d, l, n, size) && StillInUse(d, d', l) && i < BlocksFor(size) && j < ITEMS_PER_BLOCK
    requires OtherBlocks(d, d', l, n, i) && File(d', l, n, i) == File(d, l, n, i)
    ensures var size' := SizeWith(size, i * ITEMS_PER_BLOCK + j);
            DirOk(d', l, n, size') && DirMap(d', l, n, size') == DirMap(d, l, n, size)
  {
    SlotNumber(i, j);
    SameBlocksFor(size, i * ITEMS_PER_BLOCK + j);
    ListingSame(d, d', l, n, BlocksFor(size), i);
    StillFit(d, d', l, Listing(d, l, n, BlocksFor(size)));
    DirOkIf(d', l, n, SizeWith(size, i * ITEMS_PER_BLOCK + j), BlocksFor(size), Listing(d, l, n, BlocksFor(size)));
  }

  ghost predicate Used(items: seq<Item>, s: nat) {
    s < |items| && items[s].kind != ITEM_BLANK
  }

  /** The first n items are not blank. */
  ghost predicate UsedTo(items: seq<Item>, n: nat) {
    forall s: nat {:trigger Used(items, s)} :: s < n ==> Used(items, s)
  }

  /** A directory without a blank item fills its blocks. */
  lemma FullDirectory(items: seq<Item>, size: nat)
    requires |items| == BlocksFor(size) * ITEMS_PER_BLOCK && size % ITEM_SIZE == 0
    requires UsedTo(items, |items|) && BlankFrom(items, size)
    ensures size == BlocksFor(size) * BLOCK_SIZE
  {
    assert size / ITEM_SIZE < |items| ==> Used(items, size / ITEM_SIZE);
  }

  lemma GrownListing(d: Disk, d': Disk, l: Layout, n: nat, i: nat, size: nat)
    requires n < Inodes(l) && i < MAX_FILE_BLOCKS && ListingOk(d, l, Listing(d, l, n, i), size)
             && size == i * BLOCK_SIZE
    requires StillInUse(d, d', l) && OtherBlocks(d, d', l, n, i) && File(d', l, n, i) == ZeroBlock()
    ensures ListingOk(d', l, Listing(d', l, n, i + 1), size + ITEM_SIZE)
    ensures Entries(Listing(d', l, n, i + 1)) == Entries(Listing(d, l, n, i))
  {
    var items := Listing(d, l, n, i);
    ListingGrow(d, d', l, n, i);
    BlankBlock();
    EntriesBlank(items, ItemsIn(ZeroBlock()));
    StillFit(d, d', l, items);
    GrownOk(d', l, items, ItemsIn(ZeroBlock()), size, size + ITEM_SIZE);
  }

  lemma GrownListingWith(d: Disk, d': Disk, l: Layout, n: nat, i: nat, size: nat, e: Item)
    requires n < Inodes(l) && i < MAX_FILE_BLOCKS && ListingOk(d, l, Listing(d, l, n, i), size)
             && size == i * BLOCK_SIZE
    requires StillInUse(d, d', l) && OtherBlocks(d, d', l, n, i) && e.kind != ITEM_BLANK
             && e.nameLength <= NAME_MAX == |e.field|
    requires e.inumber < Inodes(l) && InodeOf(d, l, e.inumber).inuse != 0 && NameOf(e) !in Entries(Listing(d, l, n, i))
    requires File(d', l, n, i) == SetItem(ZeroBlock(), 0, e)
    ensures ListingOk(d', l, Listing(d', l, n, i + 1), size + ITEM_SIZE)
    ensures Entries(Listing(d', l, n, i + 1)) == Entries(Listing(d, l, n, i))[NameOf(e) := (e.inumber, e.kind)]
  {
    var items := Listing(d, l, n, i);
    var blanks := ItemsIn(ZeroBlock());
    ListingGrow(d, d', l, n, i);
    BlankBlock();
    EntriesBlank(items, blanks);
    StillFit(d, d', l, items);
    NewItemFits(d, d', l, e);
    GrownOk(d', l, items, blanks, size, size + ITEM_SIZE);
    FirstItem(e);
    assert items + blanks[0 := e] == (items + blanks)[|items| := e];
    EntriesSet(items + blanks, |items|, e);
    FilledOk(d', l, items + blanks, |items|, e, size + ITEM_SIZE);
  }

  /** A new block goes behind a directory without a blank item, with the entry in it. */
  lemma GrowStep(d: Disk, d': Disk, l: Layout, n: nat, size: nat, i: nat, e: Item)
    requires CanAdd(d, l, n, size, NameOf(e), e.kind, e.inumber) && StillInUse(d, d', l)
             && e.nameLength <= NAME_MAX == |e.field|
    requires i == BlocksFor(size) && size == i * BLOCK_SIZE && i < MAX_FILE_BLOCKS && OtherBlocks(d, d', l, n, i)
    requires File(d', l, n, i) == SetItem(ZeroBlock(), 0, e)
    ensures DirOk(d', l, n, size + ITEM_SIZE)
    ensures DirMap(d', l, n, size + ITEM_SIZE) == DirMap(d, l, n, size)[NameOf(e) := (e.inumber, e.kind)]
  {
    GrownListingWith(d, d', l, n, i, size, e);
    SizeGrown(size, i);
    DirOkIf(d', l, n, size + ITEM_SIZE, i + 1, Listing(d', l, n, i + 1));
  }

  lemma GrownDir(d: Disk, d': Disk, l: Layout, n: nat, size: nat, size': nat, i: nat, i': nat)
    requires n < Inodes(l) && i == BlocksFor(size) && i' == BlocksFor(size')
             && size <= size' <= MAX_FILE_BLOCKS * BLOCK_SIZE
    requires size' % ITEM_SIZE == 0 && ListingOk(d', l, Listing(d', l, n, i'), size')
    requires Entries(Listing(d', l, n, i')) == Entries(Listing(d, l, n, i))
    ensures DirOk(d', l, n, size') && DirMap(d', l, n, size') == DirMap(d, l, n, size)
  {
    DirOkIf(d', l, n, size', i', Listing(d', l, n, i'));
  }

  /** When the new block cannot be written, the directory still means what it meant. */
  lemma GrowFailedStep(d: Disk, d': Disk, l: Layout, n: nat, size: nat, i: nat)
    requires DirOk(d, l, n, size) && StillInUse(d, d', l)
    requires i == BlocksFor(size) && size == i * BLOCK_SIZE && i < MAX_FILE_BLOCKS && OtherBlocks(d, d', l, n, i)
    requires File(d', l, n, i) == ZeroBlock()
    ensures DirOk(d', l, n, size + ITEM_SIZE)
    ensures DirMap(d', l, n, size + ITEM_SIZE) == DirMap(d, l, n, size)
  {
    GrownListing(d, d', l, n, i, size);
    SizeGrown(size, i);
    GrownDir(d, d', l, n, size, size + ITEM_SIZE, i, i + 1);
  }

  lemma BlankBlock()
    ensures forall j :: 0 <= j < ITEMS_PER_BLOCK ==> ItemsIn(ZeroBlock())[j].kind == ITEM_BLANK
  {
    forall j: nat | j < ITEMS_PER_BLOCK ensures ItemIn(ZeroBlock(), j).kind == ITEM_BLANK { ZeroItem(j); }
  }

  lemma FirstItem(e: Item)
    requires |e.field| == NAME_MAX
    ensures ItemsIn(SetItem(ZeroBlock(), 0, e)) == ItemsIn(ZeroBlock())[0 := e]
  {
    forall j: nat | j < ITEMS_PER_BLOCK
      ensures ItemIn(SetItem(ZeroBlock(), 0, e), j) == if j == 0 then e else ItemIn(ZeroBlock(), j) {
      ItemSet(ZeroBlock(), 0, e, j);
    }
  }

  /** The blocks of file n are as before. */
  ghost predicate OtherBlocksOf(d: Disk, d': Disk, l: Layout, n: nat) {
    forall j: nat {:trigger File(d', l, n, j)} ::
      n < Inodes(l) && j < MAX_FILE_BLOCKS ==> File(d', l, n, j) == File(d, l, n, j)
  }

  /** A directory means the same as long as its blocks stay the same and inodes stay in use. */
  lemma DirKeptBlocks(d: Disk, d': Disk, l: Layout, n: nat, size: nat)
    requires DirOk(d, l, n, size) && StillInUse(d, d', l) && OtherBlocksOf(d, d', l, n)
    ensures DirOk(d', l, n, size) && DirMap(d', l, n, size) == DirMap(d, l, n, size)
  {
    var blocks := BlocksFor(size);
    forall s: nat | s < blocks * ITEMS_PER_BLOCK ensures ItemOf(d', l, n, s) == ItemOf(d, l, n, s) {
      assert File(d', l, n, s / ITEMS_PER_BLOCK) == File(d, l, n, s / ITEMS_PER_BLOCK);
    }
    assert Listing(d', l, n, blocks) == Listing(d, l, n, blocks);
    StillFit(d, d', l, Listing(d, l, n, blocks));
  }

  lemma DirKept(d: Disk, d': Disk, l: Layout, n: nat, size: nat, m: nat, i: int)
    requires DirOk(d, l, n, size) && StillInUse(d, d', l) && OtherBlocks(d, d', l, m, i)
    requires m != n || i < 0
    ensures DirOk(d', l, n, size) && DirMap(d', l, n, size) == DirMap(d, l, n, size)
  {
    assert OtherBlocksOf(d, d', l, n);
    DirKeptBlocks(d, d', l, n, size);
  }

  /** None of the first k items of a block is blank. */
  ghost predicate NoBlank(b: block, k: nat) {
    forall j {:trigger ItemIn(b, j)} :: 0 <= j < k && j < ITEMS_PER_BLOCK ==> ItemIn(b, j).kind != ITEM_BLANK
  }

  /** The first block from block i on with a blank item, or else the number of blocks: where a new
      entry goes. */
  ghost function EntryBlock(d: Disk, l: Layout, n: nat, i: nat, blocks: nat): (k: nat)
    requires n < Inodes(l) && i <= blocks <= MAX_FILE_BLOCKS
    ensures i <= k <= blocks
    ensures forall j: nat {:trigger File(d, l, n, j)} :: i <= j < k ==> NoBlank(File(d, l, n, j), ITEMS_PER_BLOCK)
    ensures k < blocks ==> !NoBlank(File(d, l, n, k), ITEMS_PER_BLOCK)
    decreases blocks - i
  {
    if i == blocks || !NoBlank(File(d, l, n, i), ITEMS_PER_BLOCK) then i else EntryBlock(d, l, n, i + 1, blocks)
  }

  /** The first blank item of a block from item j on, or 128. */
  ghost function BlankItem(b: block, j: nat): (k: nat)
    requires j <= ITEMS_PER_BLOCK
    ensures j <= k <= ITEMS_PER_BLOCK && (k < ITEMS_PER_BLOCK ==> ItemIn(b, k).kind == ITEM_BLANK)
    ensures forall x {:trigger ItemIn(b, x)} :: j <= x < k ==> ItemIn(b, x).kind != ITEM_BLANK
    decreases ITEMS_PER_BLOCK - j
  {
    if j == ITEMS_PER_BLOCK || ItemIn(b, j).kind == ITEM_BLANK then j else BlankItem(b, j + 1)
  }

  /** The item that a new entry goes to: the first blank one, or else the first behind all blocks. */
  ghost function EntrySlot(d: Disk, l: Layout, n: nat, size: nat): nat
    requires n < Inodes(l) && size <= MAX_FILE_BLOCKS * BLOCK_SIZE
  {
    var k := EntryBlock(d, l, n, 0, BlocksFor(size));
    k * ITEMS_PER_BLOCK + if k < BlocksFor(size) then BlankItem(File(d, l, n, k), 0) else 0
  }

  lemma SlotIs(d: Disk, l: Layout, n: nat, size: nat, i: nat, j: nat)
    requires n < Inodes(l) && size <= MAX_FILE_BLOCKS * BLOCK_SIZE && i == EntryBlock(d, l, n, 0, BlocksFor(size))
    requires i < BlocksFor(size) && j < ITEMS_PER_BLOCK && ItemIn(File(d, l, n, i), j).kind == ITEM_BLANK
    requires NoBlank(File(d, l, n, i), j)
    ensures EntrySlot(d, l, n, size) == i * ITEMS_PER_BLOCK + j
  {
    assert ItemIn(File(d, l, n, i), BlankItem(File(d, l, n, i), 0)).kind == ITEM_BLANK;
  }

  /** There is room for a new entry in directory n: for a write of the block that it goes to. */
  ghost predicate EntrySpace(d: Disk, l: Layout, n: nat, size: nat)
    requires n < Inodes(l) && size <= MAX_FILE_BLOCKS * BLOCK_SIZE
  {
    var k := EntryBlock(d, l, n, 0, BlocksFor(size));
    k < MAX_FILE_BLOCKS && HasSpace(d, l, n, k)
  }

  /** The blocks before block i have no blank item. */
  lemma UsedBlocks(d: Disk, l: Layout, n: nat, blocks: nat, i: nat)
    requires n < Inodes(l) && i <= blocks <= MAX_FILE_BLOCKS
    requires forall j: nat {:trigger File(d, l, n, j)} :: j < i ==> NoBlank(File(d, l, n, j), ITEMS_PER_BLOCK)
    ensures UsedTo(Listing(d, l, n, blocks), i * ITEMS_PER_BLOCK)
  {
    var items := Listing(d, l, n, blocks);
    forall s: nat | s < i * ITEMS_PER_BLOCK ensures Used(items, s) {
      var j := s / ITEMS_PER_BLOCK;
      SlotNumber(j, s % ITEMS_PER_BLOCK);
      assert NoBlank(File(d, l, n, j), ITEMS_PER_BLOCK)
             && ItemIn(File(d, l, n, j), s % ITEMS_PER_BLOCK).kind != ITEM_BLANK;
    }
  }

  /** Two free blocks are always room enough for one entry. */
  lemma TwoAreEnough(d: Disk, l: Layout, n: nat, size: nat)
    requires DirOk(d, l, n, size) && size < MAX_FILE_BLOCKS * BLOCK_SIZE && Free(d, l) >= 2
    ensures EntrySpace(d, l, n, size)
  {
    var blocks := BlocksFor(size);
    var k := EntryBlock(d, l, n, 0, blocks);
    if k == blocks {
      UsedBlocks(d, l, n, blocks, blocks);
      FullDirectory(Listing(d, l, n, blocks), size);
    }
  }

  /** The entry is in the directory exactly when there was room for it; otherwise the directory
      means what it meant. Its size takes in the item of the entry either way. */
  ghost predicate AddDone(d: Disk, d': Disk, l: Layout, n: nat, size: nat, size': nat, name: Name, kind: byte,
                          inumber: word)
    requires n < Inodes(l) && size <= MAX_FILE_BLOCKS * BLOCK_SIZE
  {
    && DirOk(d', l, n, size') && OtherFiles(d, d', l, n) && StillInUse(d, d', l)
    && size' == SizeWith(size, EntrySlot(d, l, n, size))
    && DirMap(d', l, n, size') == if EntrySpace(d, l, n, size) then DirMap(d, l, n, size)[name := (inumber, kind)]
         else DirMap(d, l, n, size)
  }

  lemma FillStep(d: Disk, d': Disk, l: Layout, n: nat, size: nat, i: nat, j: nat, e: Item, stored: bool)
    requires CanAdd(d, l, n, size, NameOf(e), e.kind, e.inumber) && e.nameLength <= NAME_MAX == |e.field|
    requires i < BlocksFor(size) && j < ITEMS_PER_BLOCK && ItemIn(File(d, l, n, i), j).kind == ITEM_BLANK
    requires Undisturbed(d, d', l, n, i) && StillInUse(d, d', l)
    requires i == EntryBlock(d, l, n, 0, BlocksFor(size)) && stored == HasSpace(d, l, n, i)
    requires stored ==> File(d', l, n, i) == SetItem(File(d, l, n, i), j, e)
    requires !stored ==> File(d', l, n, i) == File(d, l, n, i)
    requires NoBlank(File(d, l, n, i), j)
    ensures AddDone(d, d', l, n, size, SizeWith(size, i * ITEMS_PER_BLOCK + j), NameOf(e), e.kind, e.inumber)
  {
    SlotIs(d, l, n, size, i, j);
    if stored { AddStep(d, d', l, n, size, i, j, e); } else { AddFailedStep(d, d', l, n, size, i, j); }
  }

  lemma AppendStep(d: Disk, d': Disk, l: Layout, n: nat, size: nat, i: nat, e: Item, stored: bool)
    requires CanAdd(d, l, n, size, NameOf(e), e.kind, e.inumber) && e.nameLength <= NAME_MAX == |e.field|
    requires i == BlocksFor(size) && size == i * BLOCK_SIZE && i < MAX_FILE_BLOCKS
    requires Undisturbed(d, d', l, n, i) && StillInUse(d, d', l)
    requires i == EntryBlock(d, l, n, 0, BlocksFor(size)) && stored == HasSpace(d, l, n, i)
    requires stored ==> File(d', l, n, i) == SetItem(ZeroBlock(), 0, e)
    requires !stored ==> File(d', l, n, i) == ZeroBlock()
    ensures AddDone(d, d', l, n, size, size + ITEM_SIZE, NameOf(e), e.kind, e.inumber)
  {
    if stored { GrowStep(d, d', l, n, size, i, e); } else { GrowFailedStep(d, d', l, n, size, i); }
  }

  /** Saving the directory's inode afterwards. */
  lemma SavedAfterAdd(d: Disk, d1: Disk, d2: Disk, l: Layout, n: nat, size: nat, size': nat, name: Name, kind: byte,
                      inumber: word, x: Inode)
    requires n < Inodes(l) && size <= MAX_FILE_BLOCKS * BLOCK_SIZE && LayoutOk(l)
    requires AddDone(d, d1, l, n, size, size', name, kind, inumber)
    requires d2 == SaveInode(d1, l, n, x) && Undisturbed(d1, d2, l, n, -1) && StillInUse(d1, d2, l)
    ensures AddDone(d, d2, l, n, size, size', name, kind, inumber)
  {
    DirKept(d1, d2, l, n, size', n, -1);
    OtherFilesTwice(d, d1, d2, l, n, -1);
  }

  lemma OtherFilesTwice(d: Disk, d1: Disk, d2: Disk, l: Layout, n: nat, i: int)
    requires OtherFiles(d, d1, l, n) && StillInUse(d, d1, l) && Undisturbed(d1, d2, l, n, i) && StillInUse(d1, d2, l)
    ensures OtherFiles(d, d2, l, n) && StillInUse(d, d2, l)
  {
    forall m: nat | m < Inodes(l)
      ensures (InodeOf(d, l, m).inuse != 0 ==> InodeOf(d2, l, m).inuse != 0)
              && (m != n ==> InodeOf(d2, l, m) == InodeOf(d, l, m)) {
      assert InodeOf(d, l, m).inuse != 0 ==> InodeOf(d1, l, m).inuse != 0;
      assert m != n ==> InodeOf(d1, l, m) == InodeOf(d, l, m);
    }
    forall m: nat, j: nat | m < Inodes(l) && j < MAX_FILE_BLOCKS && m != n
      ensures File(d2, l, m, j) == File(d, l, m, j) {
      assert File(d1, l, m, j) == File(d, l, m, j);
    }
  }

  /** A new, empty file has been made under a name that the directory did not have, and the name is
      in the directory exactly when there was room for it. */
  ghost predicate Created(d: Disk, d': Disk, l: Layout, n: nat, size: nat, size': nat, name: Name, kind: byte,
                          inumber: word)
    requires n < Inodes(l) && size <= MAX_FILE_BLOCKS * BLOCK_SIZE
  {
    && inumber < Inodes(l) && InodeOf(d, l, inumber).inuse == 0
       && InodeOf(d', l, inumber) == Inode(1, 0, [0, 0, 0, 0, 0, 0], 0)
    && (forall j: nat {:trigger File(d', l, inumber, j)} ::
          j < MAX_FILE_BLOCKS ==> File(d', l, inumber, j) == ZeroBlock())
    && DirOk(d', l, n, size') && StillInUse(d, d', l) && OthersKept(d, d', l, n, inumber)
    && size' == SizeWith(size, EntrySlot(d, l, n, size))
    && DirMap(d', l, n, size') == if EntrySpace(d, l, n, size) then DirMap(d, l, n, size)[name := (inumber, kind)]
         else DirMap(d, l, n, size)
  }

  /** All inodes and files but two, and the superblock, are as before. */
  ghost predicate OthersKept(d: Disk, d': Disk, l: Layout, n: nat, n': nat) {
    && Blk(d', 0) == Blk(d, 0)
    && (forall m: nat {:trigger InodeOf(d', l, m)} ::
          m < Inodes(l) && m != n && m != n' ==> InodeOf(d', l, m) == InodeOf(d, l, m))
    && (forall m: nat, j: nat {:trigger File(d', l, m, j)} ::
          m < Inodes(l) && j < MAX_FILE_BLOCKS && m != n && m != n' ==>
          File(d', l, m, j) == File(d, l, m, j))
  }

  lemma CanAddToEmptied(d: Disk, d1: Disk, l: Layout, n: nat, size: nat, name: Name, kind: byte, inumber: word)
    requires DirOk(d, l, n, size) && size < MAX_FILE_BLOCKS * BLOCK_SIZE && Emptied(d, d1, l, inumber)
             && InodeOf(d, l, n).inuse != 0
    requires |name| <= NAME_MAX && kind != ITEM_BLANK && name !in DirMap(d, l, n, size)
    ensures CanAdd(d1, l, n, size, name, kind, inumber) && DirMap(d1, l, n, size) == DirMap(d, l, n, size)
    ensures EntrySpace(d1, l, n, size) == EntrySpace(d, l, n, size)
    ensures EntrySlot(d1, l, n, size) == EntrySlot(d, l, n, size)
  {
    assert OtherBlocksOf(d, d1, l, n);
    DirKeptBlocks(d, d1, l, n, size);
    SameEntryBlock(d, d1, l, n, 0, BlocksFor(size));
    SameMissing(d, d1, l, n, EntryBlock(d, l, n, 0, BlocksFor(size)), inumber);
    var k := EntryBlock(d, l, n, 0, BlocksFor(size));
    assert k < BlocksFor(size) ==> File(d1, l, n, k) == File(d, l, n, k);
  }

  lemma {:induction false} SameEntryBlock(d: Disk, d1: Disk, l: Layout, n: nat, i: nat, blocks: nat)
    requires n < Inodes(l) && i <= blocks <= MAX_FILE_BLOCKS && OtherBlocksOf(d, d1, l, n)
    ensures EntryBlock(d1, l, n, i, blocks) == EntryBlock(d, l, n, i, blocks)
    decreases blocks - i
  {
    if i < blocks {
      assert File(d1, l, n, i) == File(d, l, n, i);
      SameEntryBlock(d, d1, l, n, i + 1, blocks);
    }
  }

  lemma SameMissing(d: Disk, d1: Disk, l: Layout, n: nat, i: nat, inumber: nat)
    requires n < Inodes(l) && Emptied(d, d1, l, inumber) && n != inumber
    ensures i < MAX_FILE_BLOCKS ==> HasSpace(d1, l, n, i) == HasSpace(d, l, n, i)
  {
    if i < MAX_FILE_BLOCKS {
      assert InRange(l, FileRef(n, i)) && Ptr(d1, l, FileRef(n, i)) == Ptr(d, l, FileRef(n, i));
      assert InodeOf(d1, l, n) == InodeOf(d, l, n);
    }
  }

  lemma CreatedStep(d: Disk, d1: Disk, d2: Disk, l: Layout, n: nat, size: nat, size': nat, name: Name, kind: byte,
                    inumber: word)
    requires n < Inodes(l) && size <= MAX_FILE_BLOCKS * BLOCK_SIZE && n != inumber && inumber < Inodes(l)
    requires Emptied(d, d1, l, inumber) && AddDone(d1, d2, l, n, size, size', name, kind, inumber)
    requires DirMap(d1, l, n, size) == DirMap(d, l, n, size) && EntrySpace(d1, l, n, size) == EntrySpace(d, l, n, size)
    requires EntrySlot(d1, l, n, size) == EntrySlot(d, l, n, size)
    ensures Created(d, d2, l, n, size, size', name, kind, inumber)
  {
    forall m: nat | m < Inodes(l) && InodeOf(d, l, m).inuse != 0 ensures InodeOf(d2, l, m).inuse != 0 {
      assert InodeOf(d1, l, m).inuse != 0;
    }
    assert InodeOf(d2, l, inumber) == InodeOf(d1, l, inumber);
    forall j: nat | j < MAX_FILE_BLOCKS ensures File(d2, l, inumber, j) == ZeroBlock() {
      assert File(d2, l, inumber, j) == File(d1, l, inumber, j);
    }
    forall m: nat | m < Inodes(l) && m != n && m != inumber ensures InodeOf(d2, l, m) == InodeOf(d, l, m) {
      assert InodeOf(d2, l, m) == InodeOf(d1, l, m);
    }
    forall m: nat, j: nat | m < Inodes(l) && j < MAX_FILE_BLOCKS && m != n && m != inumber
      ensures File(d2, l, m, j) == File(d, l, m, j) {
      assert File(d2, l, m, j) == File(d1, l, m, j);
    }
  }
}
