/** Runs over several open files of a volume: blocks of files behave like cells of a table, and
    directories like maps. */
module FileRuns {
  import opened Words
  import opened Blocks
  import opened Codec
  import opened DiskState
  import opened DiskFs
  import opened Directory
  import opened Dirents

  /** A block of one of the open files is written or read. */
  datatype Op = WriteOp(f: nat, i: nat, b: block) | ReadOp(f: nat, i: nat)

  /** Block i of file n after a run: what was written there last, or what was there before. */
  ghost function Plain(d: Disk, l: Layout, numbers: seq<nat>, ops: seq<Op>, done: seq<bool>, n: nat, i: nat): block
    requires n < Inodes(l) && i < MAX_FILE_BLOCKS && |done| == |ops|
  {
    if ops == [] then File(d, l, n, i)
    else
      var k := |ops| - 1;
      var op := ops[k];
      if op.WriteOp? && done[k] && op.f < |numbers| && numbers[op.f] == n && op.i == i then op.b
      else Plain(d, l, numbers, ops[..k], done[..k], n, i)
  }

  /** The files are open, on the same volume, each on an inode of its own. */
  ghost predicate Open(v: Volume, files: seq<Dirent>)
    reads v, v.cache, files
  {
    && v.Valid()
    && (forall k :: 0 <= k < |files| ==> files[k].volume == v && files[k].Valid())
    && (forall j, k :: 0 <= j < k < |files| ==> files[j] != files[k] && files[j].inumber != files[k].inumber)
  }

  /** Every block of every file is what the plain table says. */
  ghost predicate Agrees(d: Disk, d': Disk, l: Layout, numbers: seq<nat>, ops: seq<Op>, done: seq<bool>)
    requires |done| == |ops|
  {
    forall n: nat, i: nat {:trigger File(d', l, n, i)} :: n < Inodes(l) && i < MAX_FILE_BLOCKS ==>
      File(d', l, n, i) == Plain(d, l, numbers, ops, done, n, i)
  }

  /** Only writes failed, and if one did, the volume is full. */
  ghost predicate FailsWhenFull(d: Disk, l: Layout, ops: seq<Op>, done: seq<bool>) {
    forall k :: 0 <= k < |ops| && k < |done| && !done[k] ==> ops[k].WriteOp? && Full(d, l)
  }

  lemma FailsMore(d: Disk, d': Disk, l: Layout, ops: seq<Op>, done: seq<bool>, op: Op, ok: bool)
    requires |done| == |ops| && FailsWhenFull(d, l, ops, done)
    requires Free(d', l) <= Free(d, l) && (!ok ==> op.WriteOp? && Full(d', l))
    ensures FailsWhenFull(d', l, ops + [op], done + [ok])
  {
    FullIsNoneFree(d, l);
    FullIsNoneFree(d', l);
  }

  lemma AgreesAtFirst(d: Disk, l: Layout, numbers: seq<nat>)
    ensures FailsWhenFull(d, l, [], []) && Agrees(d, d, l, numbers, [], []) && AllReadsRight(d, l, numbers, [], [], [])
  {
  }

  lemma AgreesMore(d: Disk, d1: Disk, d2: Disk, l: Layout, numbers: seq<nat>, ops: seq<Op>, done: seq<bool>, op: Op,
                   ok: bool)
    requires |done| == |ops| && Agrees(d, d1, l, numbers, ops, done)
    requires op.f < |numbers| && numbers[op.f] < Inodes(l) && op.i < MAX_FILE_BLOCKS
    requires op.ReadOp? || !ok ==> forall n: nat, i: nat {:trigger File(d2, l, n, i)} ::
               n < Inodes(l) && i < MAX_FILE_BLOCKS ==> File(d2, l, n, i) == File(d1, l, n, i)
    requires op.WriteOp? && ok ==>
               OtherBlocks(d1, d2, l, numbers[op.f], op.i) && File(d2, l, numbers[op.f], op.i) == op.b
    ensures Agrees(d, d2, l, numbers, ops + [op], done + [ok])
  {
    assert (ops + [op])[..|ops|] == ops && (done + [ok])[..|ops|] == done;
    forall n: nat, i: nat | n < Inodes(l) && i < MAX_FILE_BLOCKS
      ensures File(d2, l, n, i) == Plain(d, l, numbers, ops + [op], done + [ok], n, i) {
      assert File(d1, l, n, i) == Plain(d, l, numbers, ops, done, n, i);
    }
  }

  /** The k-th call, if it was a read, returned what the plain table held at that moment. */
  ghost predicate ReadRight(d: Disk, l: Layout, numbers: seq<nat>, ops: seq<Op>, done: seq<bool>, data: seq<block>,
                            k: int) {
    0 <= k < |ops| && k < |done| && k < |data| && ops[k].ReadOp? ==>
      && ops[k].f < |numbers| && numbers[ops[k].f] < Inodes(l) && ops[k].i < MAX_FILE_BLOCKS
      && data[k] == Plain(d, l, numbers, ops[..k], done[..k], numbers[ops[k].f], ops[k].i)
  }

  ghost predicate AllReadsRight(d: Disk, l: Layout, numbers: seq<nat>, ops: seq<Op>, done: seq<bool>, data: seq<block>)
  {
    forall k {:trigger ReadRight(d, l, numbers, ops, done, data, k)} :: ReadRight(d, l, numbers, ops, done, data, k)
  }

  lemma ReadsMore(d: Disk, d1: Disk, l: Layout, numbers: seq<nat>, ops: seq<Op>, done: seq<bool>, data: seq<block>,
                  op: Op, ok: bool, b: block)
    requires |done| == |data| == |ops| && Agrees(d, d1, l, numbers, ops, done)
             && AllReadsRight(d, l, numbers, ops, done, data)
    requires op.ReadOp? ==>
               op.f < |numbers| && numbers[op.f] < Inodes(l) && op.i < MAX_FILE_BLOCKS
               && b == File(d1, l, numbers[op.f], op.i)
    ensures AllReadsRight(d, l, numbers, ops + [op], done + [ok], data + [b])
  {
    var ops', done', data' := ops + [op], done + [ok], data + [b];
    forall k ensures ReadRight(d, l, numbers, ops', done', data', k) {
      if 0 <= k < |ops| {
        assert ReadRight(d, l, numbers, ops, done, data, k);
        assert ops'[..k] == ops[..k] && done'[..k] == done[..k];
      } else if k == |ops| {
        assert ops'[..k] == ops && done'[..k] == done;
      }
    }
  }

  lemma OneMore<T>(s: seq<T>, k: nat)
    requires k < |s|
    ensures s[..k + 1] == s[..k] + [s[k]]
  {
  }

  /** Any run of block writes and reads over open files: a read returns what was written there last,
      no write disturbs another block, and the volume stays well formed. A write fails only on a
      full volume. */
  method Run(v: Volume, files: seq<Dirent>, ops: seq<Op>)
    returns (done: seq<bool>, data: seq<block>, ghost numbers: seq<nat>)
    requires Open(v, files) && forall k :: 0 <= k < |ops| ==> ops[k].f < |files| && ops[k].i < MAX_FILE_BLOCKS
    modifies v`image, v.cache, files
    ensures Open(v, files) && |done| == |data| == |ops| && |numbers| == |files|
    ensures forall k :: 0 <= k < |files| ==> numbers[k] == files[k].inumber < Inodes(v.disk)
    ensures FailsWhenFull(v.image, v.disk, ops, done)
    ensures Agrees(old(v.image), v.image, v.disk, numbers, ops, done)
            && AllReadsRight(old(v.image), v.disk, numbers, ops, done, data)
  {
    hide Full, Free, HasSpace, DiskState.Ok, SameBlocks, Agrees, AllReadsRight, FailsWhenFull;
    ghost var before := v.image;
    numbers := seq(|files|, k requires 0 <= k < |files| => files[k].inumber);
    done, data := [], [];
    AgreesAtFirst(before, v.disk, numbers);
    var k := 0;
    ghost var past: seq<Op> := [];
    while k < |ops|
      invariant k <= |ops| && Open(v, files) && past == ops[..k] && |done| == |data| == |past|
      invariant |numbers| == |files| && forall j :: 0 <= j < |files| ==> numbers[j] == files[j].inumber < Inodes(v.disk)
      invariant FailsWhenFull(v.image, v.disk, past, done)
      invariant Agrees(before, v.image, v.disk, numbers, past, done)
                && AllReadsRight(before, v.disk, numbers, past, done, data)
    {
      ghost var middle := v.image;
      var ok, b := Step(v, files, ops[k]);
      FailsMore(middle, v.image, v.disk, past, done, ops[k], ok);
      AgreesMore(before, middle, v.image, v.disk, numbers, past, done, ops[k], ok);
      ReadsMore(before, middle, v.disk, numbers, past, done, data, ops[k], ok, b);
      OneMore(ops, k);
      done, data, past := done + [ok], data + [b], past + [ops[k]];
      k := k + 1;
    }
    assert past == ops;
  }

  /** One write or read. */
  method Step(v: Volume, files: seq<Dirent>, op: Op) returns (ok: bool, b: block)
    requires Open(v, files) && op.f < |files| && op.i < MAX_FILE_BLOCKS
    modifies v`image, v.cache, files
    ensures Open(v, files) && files[op.f].inumber < Inodes(v.disk)
    ensures Free(v.image, v.disk) <= old(Free(v.image, v.disk)) && (op.ReadOp? ==> ok)
    ensures op.WriteOp? ==> ok == old(HasSpace(v.image, v.disk, files[op.f].inumber, op.i))
    ensures op.ReadOp? ==> v.image == old(v.image) && b == File(v.image, v.disk, files[op.f].inumber, op.i)
    ensures op.WriteOp? && ok ==>
              && OtherBlocks(old(v.image), v.image, v.disk, files[op.f].inumber, op.i)
              && File(v.image, v.disk, files[op.f].inumber, op.i) == op.b
    ensures op.WriteOp? && !ok ==>
              && Full(v.image, v.disk)
              && forall n: nat, i: nat {:trigger File(v.image, v.disk, n, i)} ::
                   n < Inodes(v.disk) && i < MAX_FILE_BLOCKS ==>
                   File(v.image, v.disk, n, i) == File(old(v.image), v.disk, n, i)
  {
    ok, b := true, ZeroBlock();
    var d := files[op.f];
    match op {
      case WriteOp(f, i, x) =>
        var r := d.WriteBlock(x, i);
        ok := r == BLOCK_SIZE;
        FullIsNoneFree(v.image, v.disk);
        forall k | 0 <= k < |files| ensures files[k].Valid() {
          if k != f {
            assert files[k] != d && files[k].inumber != d.inumber;
            assert InodeOf(v.image, v.disk, files[k].inumber) == InodeOf(old(v.image), v.disk, files[k].inumber);
          }
        }
      case ReadOp(f, i) =>
        var r;
        r, b := d.ReadBlock(i);
    }
  }

  /** What directory d means now. */
  ghost function MapOf(d: Dirent): map<Name, (word, byte)>
    requires d.Valid() && DirOk(d.volume.image, d.volume.disk, d.inumber, d.size)
    reads d, d.volume, d.volume.cache
  {
    DirMap(d.volume.image, d.volume.disk, d.inumber, d.size)
  }

  ghost predicate IsDirectory(d: Dirent)
    reads d, d.volume, d.volume.cache
  {
    d.Valid() && DirOk(d.volume.image, d.volume.disk, d.inumber, d.size)
    && InodeOf(d.volume.image, d.volume.disk, 0).inuse != 0
  }

  /** One creation, with space for it. */
  method CreateOne(d: Dirent, name: Name, kind: byte) returns (ok: bool, ghost n: nat)
    requires IsDirectory(d) && d.size < MAX_FILE_BLOCKS * BLOCK_SIZE && kind != ITEM_BLANK
    requires Free(d.volume.image, d.volume.disk) >= 2
    modifies d`disk, d`size, d.volume`image, d.volume.cache
    ensures IsDirectory(d) && Takes(old(d.volume.image), d.volume.image, d.volume.disk, 2)
    ensures StillInUse(old(d.volume.image), d.volume.image, d.volume.disk)
    ensures ok <==> |name| <= NAME_MAX && name !in old(MapOf(d)) && !NoInode(old(d.volume.image), d.volume.disk)
    ensures !ok ==> MapOf(d) == old(MapOf(d)) && d.volume.image == old(d.volume.image)
    ensures ok ==>
              n < WORD && InodeOf(old(d.volume.image), d.volume.disk, n).inuse == 0
              && MapOf(d) == old(MapOf(d))[name := (n, kind)]
  {
    hide DirOk;
    TwoAreEnough(d.volume.image, d.volume.disk, d.inumber, d.size);
    var t := d.Create(name, kind);
    ok, n := t != null, 0;
    if ok {
      n := t.inumber;
      assert InodeOf(d.volume.image, d.volume.disk, 0).inuse != 0;
    }
  }

  /** The names of a directory stand for inodes in use. */
  ghost predicate AllInUse(d: Disk, l: Layout, m: map<Name, (word, byte)>) {
    forall name {:trigger m[name]} :: name in m ==> m[name].0 < Inodes(l) && InodeOf(d, l, m[name].0).inuse != 0
  }

  lemma NamesInUse(d: Disk, l: Layout, n: nat, size: nat)
    requires DirOk(d, l, n, size)
    ensures AllInUse(d, l, DirMap(d, l, n, size))
  {
    var items := Listing(d, l, n, BlocksFor(size));
    forall name | name in Entries(items)
      ensures Entries(items)[name].0 < Inodes(l) && InodeOf(d, l, Entries(items)[name].0).inuse != 0 {
      AbsentFromEntries(items, name);
      var s: nat :| s < |items| && Is(items[s], name);
      EntryAt(items, s);
      assert Fits(d, l, items[s]);
    }
  }

  /** A directory that meant before has been given the names, in this order, as new ones: each
      stands for an inode of its own that was not in use on the disk d. */
  ghost predicate Gained(d: Disk, l: Layout, before: map<Name, (word, byte)>, after: map<Name, (word, byte)>,
                         names: seq<Name>, kind: byte) {
    && (forall name :: name in after <==> name in before || name in names)
    && (forall name :: name in before ==> name in after && after[name] == before[name])
    && (forall k :: 0 <= k < |names| ==> names[k] !in before && NewEntry(d, l, after, names[k], kind))
    && (forall j, k :: 0 <= j < k < |names| ==> names[j] != names[k] && Differ(after, names[j], names[k]))
  }

  ghost predicate NewEntry(d: Disk, l: Layout, after: map<Name, (word, byte)>, name: Name, kind: byte) {
    name in after && after[name].1 == kind && InodeOf(d, l, after[name].0).inuse == 0
  }

  ghost predicate Differ(after: map<Name, (word, byte)>, x: Name, y: Name) {
    x in after && y in after ==> after[x].0 != after[y].0
  }

  lemma GainedMore(d: Disk, d1: Disk, l: Layout, before: map<Name, (word, byte)>, after: map<Name, (word, byte)>,
                   names: seq<Name>, kind: byte, name: Name, n: word)
    requires Gained(d, l, before, after, names, kind) && name !in after && AllInUse(d1, l, after)
             && StillInUse(d, d1, l)
    requires n < Inodes(l) && InodeOf(d1, l, n).inuse == 0
    ensures Gained(d, l, before, after[name := (n, kind)], names + [name], kind)
  {
    hide InodeOf;
    var names', after' := names + [name], after[name := (n, kind)];
    assert InodeOf(d, l, n).inuse == 0;
    forall k | 0 <= k < |names'| ensures names'[k] !in before && NewEntry(d, l, after', names'[k], kind) {
      if k < |names| { assert names[k] in names && NewEntry(d, l, after, names[k], kind); }
    }
    forall j, k | 0 <= j < k < |names'| ensures names'[j] != names'[k] && Differ(after', names'[j], names'[k]) {
      assert names[j] in names && NewEntry(d, l, after, names[j], kind);
      if k < |names| {
        assert names[k] in names && NewEntry(d, l, after, names[k], kind);
        assert names[j] != names[k] && Differ(after, names[j], names[k]);
      } else {
        assert after[names[j]].0 != n;
      }
    }
  }

  /** A run of creations in a directory, up to the first that is refused: with space for them the
      directory means what it meant and the new names besides, on inodes of their own. */
  method CreateAll(d: Dirent, names: seq<Name>, kind: byte) returns (made: nat)
    requires IsDirectory(d) && kind != ITEM_BLANK && Free(d.volume.image, d.volume.disk) >= 2 * |names|
    modifies d`disk, d`size, d.volume`image, d.volume.cache
    ensures IsDirectory(d) && made <= |names|
    ensures Gained(old(d.volume.image), d.volume.disk, old(MapOf(d)), MapOf(d), names[..made], kind)
    ensures made < |names| ==>
              || |names[made]| > NAME_MAX || names[made] in MapOf(d) || NoInode(d.volume.image, d.volume.disk)
              || d.size == MAX_FILE_BLOCKS * BLOCK_SIZE
  {
    made := 0;
    ghost var before, disk0, meant, l := MapOf(d), d.volume.image, MapOf(d), d.volume.disk;
    while made < |names|
      invariant made <= |names| && IsDirectory(d) && Free(d.volume.image, l) + 2 * made >= Free(disk0, l)
      invariant StillInUse(disk0, d.volume.image, l)
      invariant meant == MapOf(d) && Gained(disk0, l, before, meant, names[..made], kind)
    {
      hide DirOk, Gained;
      if d.size >= MAX_FILE_BLOCKS * BLOCK_SIZE {
        AtMost(d.volume.image, l, d.inumber, d.size);
        return;
      }
      ghost var disk1 := d.volume.image;
      NamesInUse(disk1, l, d.inumber, d.size);
      var ok, n := CreateOne(d, names[made], kind);
      if !ok { return; }
      NamesInUse(d.volume.image, l, d.inumber, d.size);
      InUseTwice(disk0, disk1, d.volume.image, l);
      assert MapOf(d)[names[made]].0 < Inodes(l);
      GainedMore(disk0, disk1, l, before, meant, names[..made], kind, names[made], n);
      OneMore(names, made);
      meant := meant[names[made] := (n, kind)];
      made := made + 1;
    }
  }

  lemma AtMost(d: Disk, l: Layout, n: nat, size: nat)
    requires DirOk(d, l, n, size)
    ensures size <= MAX_FILE_BLOCKS * BLOCK_SIZE
  {
  }

  lemma InUseTwice(d: Disk, d1: Disk, d2: Disk, l: Layout)
    requires StillInUse(d, d1, l) && StillInUse(d1, d2, l)
    ensures StillInUse(d, d2, l)
  {
    forall m: nat | m < Inodes(l) && InodeOf(d, l, m).inuse != 0 ensures InodeOf(d2, l, m).inuse != 0 {
      assert InodeOf(d1, l, m).inuse != 0;
    }
  }
}
