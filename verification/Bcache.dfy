/** The block cache: at most 100 blocks in memory, most recently loaded first, written back
    when they are evicted or flushed. */
module Bcache {
  import opened Blocks

  const MAX_CACHE_SIZE: nat := 100
  const KERROR_OUT_OF_MEMORY := -18

  datatype Entry = Entry(key: Key, dirty: bool, data: block)

  /** What a device holds; a block nobody wrote reads as zeros. */
  function DiskAt(disk: map<Key, block>, k: Key): block {
    if k in disk then disk[k] else ZeroBlock()
  }

  predicate HasKey(cache: seq<Entry>, k: Key) {
    exists i :: 0 <= i < |cache| && cache[i].key == k
  }

  ghost predicate UniqueKeys(cache: seq<Entry>) {
    forall i, j :: 0 <= i < j < |cache| ==> cache[i].key != cache[j].key
  }

  /** The disk as its users see it: the cached block, or else the block of the device. */
  ghost function Logical(cache: seq<Entry>, disk: map<Key, block>, k: Key): block {
    if HasKey(cache, k) then
      var i :| 0 <= i < |cache| && cache[i].key == k; cache[i].data
    else DiskAt(disk, k)
  }

  /** A clean entry holds what the device holds. */
  ghost predicate CleanOnes(cache: seq<Entry>, disk: map<Key, block>) {
    forall i :: 0 <= i < |cache| && !cache[i].dirty ==> cache[i].data == DiskAt(disk, cache[i].key)
  }

  lemma LogicalAt(cache: seq<Entry>, disk: map<Key, block>, i: nat)
    requires UniqueKeys(cache) && i < |cache|
    ensures Logical(cache, disk, cache[i].key) == cache[i].data
  {
  }

  /** What an operation meets: the answer of the device on a miss, whether memory runs out, and
      what the dirty field of a new entry happens to hold. */
  datatype Condition = Condition(io: int, outOfMemory: bool, garbage: bool)

  /** A disk after consecutive blocks were written to a device. */
  ghost function Written(view: imap<Key, block>, device: int, data: seq<block>, offset: int): imap<Key, block> {
    if data == [] then view
    else Written(view, device, data[..|data| - 1], offset)[Key(device, offset + |data| - 1) := data[|data| - 1]]
  }

  lemma WrittenOneMore(view: imap<Key, block>, device: int, data: seq<block>, offset: int, i: nat)
    requires i < |data|
    ensures Written(view, device, data[..i + 1], offset)
              == Written(view, device, data[..i], offset)[Key(device, offset + i) := data[i]]
  {
    assert data[..i + 1][..i] == data[..i];
  }

  /** One call on the cache. */
  datatype Op =
    | ReadOp(key: Key, condition: Condition)
    | WriteOp(key: Key, data: block, condition: Condition)
    | FlushBlockOp(key: Key)
    | FlushDeviceOp(device: int)
    | FlushAllOp

  /** A plain disk with no cache in front of it, after a run of calls that returned results. */
  ghost function PlainDisk(view: imap<Key, block>, ops: seq<Op>, results: seq<int>): imap<Key, block>
    requires |results| == |ops|
  {
    if ops == [] then view
    else
      var n := |ops| - 1;
      var before := PlainDisk(view, ops[..n], results[..n]);
      if ops[n].WriteOp? && results[n] == 1 then before[ops[n].key := ops[n].data] else before
  }

  class Cache {
    var cache: seq<Entry>
    var disk: map<Key, block>
    var readHits: nat
    var readMisses: nat
    var writeHits: nat
    var writeMisses: nat
    var writebacks: nat

    ghost predicate Valid()
      reads this
    {
      UniqueKeys(cache) && CleanOnes(cache, disk) && |cache| <= MAX_CACHE_SIZE
    }

    ghost function View(): imap<Key, block>
      reads this
    {
      imap k: Key :: Logical(cache, disk, k)
    }

    constructor (disk: map<Key, block>)
      ensures Valid() && this.disk == disk && cache == []
    {
      this.disk := disk;
      cache := [];
      readHits, readMisses, writeHits, writeMisses, writebacks := 0, 0, 0, 0, 0;
    }

    /** bcache_entry_clean */
    method EntryClean(i: nat)
      requires i < |cache| && UniqueKeys(cache) && CleanOnes(cache, disk)
      modifies this`cache, this`disk, this`writebacks
      ensures UniqueKeys(cache) && CleanOnes(cache, disk)
      ensures cache == old(cache)[i := old(cache)[i].(dirty := false)]
      ensures View() == old(View())
      ensures forall k :: k != cache[i].key ==> DiskAt(disk, k) == old(DiskAt(disk, k))
    {
      var e := cache[i];
      CleanKeepsView(cache, disk, i);
      if e.dirty {
        disk := disk[e.key := e.data];
        cache := cache[i := e.(dirty := false)];
        writebacks := writebacks + 1;
      }
    }

    /** The entry that was loaded longest ago goes; it is written back if it is dirty. */
    method Evict()
      requires UniqueKeys(cache) && |cache| >= 2 && CleanOnes(cache[1..], disk)
      modifies this`cache, this`disk, this`writebacks
      ensures UniqueKeys(cache) && cache == old(cache)[..old(|cache|) - 1] && CleanOnes(cache[1..], disk)
      ensures View() == old(View()) && DiskAt(disk, cache[0].key) == old(DiskAt(disk, cache[0].key))
    {
      var e := cache[|cache| - 1];
      EvictKeepsView(cache, disk);
      cache := cache[..|cache| - 1];
      if e.dirty {
        disk := disk[e.key := e.data];
        writebacks := writebacks + 1;
      }
    }

    /** bcache_trim. The newest entry may not have been filled in yet. */
    method Trim()
      requires UniqueKeys(cache) && 1 <= |cache| <= MAX_CACHE_SIZE + 1 && CleanOnes(cache[1..], disk)
      modifies this`cache, this`disk, this`writebacks
      ensures cache == old(cache)[..if old(|cache|) > 100 then 100 else old(|cache|)]
      ensures UniqueKeys(cache) && CleanOnes(cache[1..], disk) && View() == old(View())
      ensures DiskAt(disk, cache[0].key) == old(DiskAt(disk, cache[0].key))
      ensures old(|cache|) <= 100 ==> disk == old(disk)
    {
      while |cache| > MAX_CACHE_SIZE
        invariant UniqueKeys(cache) && 1 <= |cache| <= MAX_CACHE_SIZE + 1 && CleanOnes(cache[1..], disk)
        invariant cache <= old(cache) && View() == old(View()) && (old(|cache|) > 100 ==> |cache| >= 100)
                  && DiskAt(disk, cache[0].key) == old(DiskAt(disk, cache[0].key))
        invariant old(|cache|) <= MAX_CACHE_SIZE ==> cache == old(cache) && disk == old(disk)
      {
        Evict();
      }
    }

    /** bcache_find: the position of the entry, or -1. */
    method Find(k: Key) returns (i: int)
      ensures -1 <= i < |cache|
      ensures i >= 0 ==> cache[i].key == k
      ensures i == -1 ==> !HasKey(cache, k)
    {
      i := 0;
      while i < |cache|
        invariant 0 <= i <= |cache| && forall j :: 0 <= j < i ==> cache[j].key != k
      {
        if cache[i].key == k { return; }
        i := i + 1;
      }
      i := -1;
    }

    /** bcache_find_or_create. A new entry starts with a zeroed page; its dirty field is whatever
        the memory held. When there is no memory for it, the result is -1. */
    method FindOrCreate(k: Key, outOfMemory: bool, garbage: bool) returns (i: int, hit: bool)
      requires Valid()
      modifies this`cache, this`disk, this`writebacks
      ensures hit == HasKey(old(cache), k) && (i == -1 <==> !hit && outOfMemory) && (i == -1 ==> unchanged(this))
      ensures hit ==> 0 <= i < |cache| && cache[i].key == k && unchanged(this)
      ensures !hit && i != -1 ==>
                && i == 0 && UniqueKeys(cache)
                && cache == [Entry(k, garbage, ZeroBlock())]
                   + old(cache)[..if old(|cache|) > 99 then 99 else old(|cache|)]
                && CleanOnes(cache[1..], disk) && old(View())[k] == DiskAt(disk, k)
                && forall k' :: k' != k ==> View()[k'] == old(View())[k']
    {
      i := Find(k);
      hit := i >= 0;
      if !hit {
        if outOfMemory { return; }
        CreateKeepsView(cache, disk, Entry(k, garbage, ZeroBlock()));
        cache := [Entry(k, garbage, ZeroBlock())] + cache;
        assert cache[1..] == old(cache);
        i := 0;
        Trim();
      }
    }

    /** bcache_read_block. io is what device_read answers on a miss. */
    method ReadBlock(k: Key, io: int, outOfMemory: bool, garbage: bool) returns (result: int, data: block)
      requires Valid()
      modifies this
      ensures Valid() && View() == old(View())
      ensures result > 0 ==> data == View()[k]
      ensures result == if HasKey(old(cache), k) then 1 else if outOfMemory then -18 else io
      ensures HasKey(cache, k) <==> result > 0
    {
      hide CleanOnes, Logical, DiskAt;
      data := ZeroBlock();
      var e, hit := FindOrCreate(k, outOfMemory, garbage);
      if e == -1 { return KERROR_OUT_OF_MEMORY, data; }
      if hit {
        readHits := readHits + 1;
        result := 1;
        LogicalAt(cache, disk, e);
      } else {
        readMisses := readMisses + 1;
        result := io;
        if io > 0 {
          Fill(k);
        } else {
          Drop(k);
        }
      }
      if result > 0 {
        data := cache[e].data;
      }
    }

    /** The newest entry, for block k, gets what the device holds. */
    method Fill(k: Key)
      requires UniqueKeys(cache) && 1 <= |cache| <= MAX_CACHE_SIZE && cache[0].key == k && CleanOnes(cache[1..], disk)
      modifies this`cache
      ensures Valid() && |cache| >= 1 && cache[0].key == k && cache[0].data == DiskAt(disk, k) == View()[k]
      ensures forall k' :: k' != k ==> View()[k'] == old(View())[k']
    {
      FillKeepsView(cache, disk, cache[0].(data := DiskAt(disk, k)));
      cache := cache[0 := cache[0].(data := DiskAt(disk, k))];
    }

    /** The newest entry, for block k, goes again. */
    method Drop(k: Key)
      requires UniqueKeys(cache) && 1 <= |cache| <= MAX_CACHE_SIZE && cache[0].key == k && CleanOnes(cache[1..], disk)
      modifies this`cache
      ensures Valid() && DiskAt(disk, k) == View()[k] && !HasKey(cache, k)
      ensures forall k' :: k' != k ==> View()[k'] == old(View())[k']
    {
      RemoveKeepsView(cache, disk);
      cache := cache[1..];
    }

    /** bcache_write_block */
    method WriteBlock(k: Key, data: block, outOfMemory: bool, garbage: bool) returns (result: int)
      requires Valid()
      modifies this
      ensures Valid()
      ensures result == if HasKey(old(cache), k) || !outOfMemory then 1 else -18
      ensures View() == if result == 1 then old(View())[k := data] else old(View())
    {
      var e, hit := FindOrCreate(k, outOfMemory, garbage);
      if e == -1 { return KERROR_OUT_OF_MEMORY; }
      if hit {
        writeHits := writeHits + 1;
      } else {
        writeMisses := writeMisses + 1;
      }
      Store(e, k, data);
      result := 1;
    }

    /** Entry e, for block k, gets new data and is dirty. */
    method Store(e: nat, k: Key, data: block)
      requires UniqueKeys(cache) && e < |cache| <= MAX_CACHE_SIZE && cache[e].key == k
      requires CleanOnes(cache[1..], disk) && (e == 0 || CleanOnes(cache, disk))
      modifies this`cache
      ensures Valid() && forall k' :: View()[k'] == if k' == k then data else old(View())[k']
    {
      ghost var cache' := cache[e := cache[e].(data := data, dirty := true)];
      StoreChangesView(cache, cache', disk, e, data);
      cache := cache[e := cache[e].(data := data, dirty := true)];
      assert cache == cache';
    }

    /** bcache_read: up to the first block that fails. Each block meets its own device and
        memory conditions. */
    method Read(device: int, blocks: nat, offset: int, conditions: seq<Condition>)
      returns (result: int, data: seq<block>)
      requires Valid() && blocks > 0 && |conditions| == blocks
      modifies this
      ensures Valid() && View() == old(View())
      ensures |data| <= blocks && forall i :: 0 <= i < |data| ==> data[i] == View()[Key(device, offset + i)]
      ensures if |data| > 0 then result == |data| else result < 1
      ensures |data| < blocks ==> conditions[|data|].io < 1 || conditions[|data|].outOfMemory
    {
      data := [];
      var i, r := 0, 0;
      while i < blocks
        invariant 0 <= i <= blocks && |data| == i && Valid() && View() == old(View())
        invariant forall j :: 0 <= j < i ==> data[j] == View()[Key(device, offset + j)]
      {
        var b;
        r, b := ReadBlock(Key(device, offset + i), conditions[i].io, conditions[i].outOfMemory, conditions[i].garbage);
        if r < 1 { break; }
        data := data + [b];
        i := i + 1;
      }
      result := if |data| > 0 then |data| else r;
    }

    /** bcache_write: up to the first block for which there is no memory. */
    method Write(device: int, data: seq<block>, offset: int, conditions: seq<Condition>) returns (result: int)
      requires Valid() && |data| > 0 && |conditions| == |data|
      modifies this
      ensures Valid() && result <= |data|
      ensures View() == Written(old(View()), device, data[..if result > 0 then result else 0], offset)
      ensures result < |data| ==> conditions[if result > 0 then result else 0].outOfMemory
    {
      var i, r := 0, 0;
      while i < |data|
        invariant 0 <= i <= |data| && Valid() && View() == Written(old(View()), device, data[..i], offset)
      {
        r := WriteBlock(Key(device, offset + i), data[i], conditions[i].outOfMemory, conditions[i].garbage);
        if r < 1 { break; }
        WrittenOneMore(old(View()), device, data, offset, i);
        i := i + 1;
      }
      result := if i > 0 then i else r;
    }

    /** bcache_flush_block */
    method FlushBlock(k: Key)
      requires Valid()
      modifies this
      ensures Valid() && View() == old(View())
      ensures forall k' :: DiskAt(disk, k') == if k' == k then View()[k] else old(DiskAt(disk, k'))
    {
      var e := Find(k);
      if e >= 0 {
        EntryClean(e);
        LogicalAt(cache, disk, e);
      }
    }

    /** bcache_flush_device */
    method FlushDevice(device: int)
      requires Valid()
      modifies this
      ensures Valid() && View() == old(View())
      ensures forall k: Key :: DiskAt(disk, k) == if k.device == device then View()[k] else old(DiskAt(disk, k))
    {
      var n := 0;
      while n < |cache|
        invariant 0 <= n <= |cache| && Valid() && View() == old(View()) && |cache| == old(|cache|)
        invariant forall k: Key :: k.device != device ==> DiskAt(disk, k) == old(DiskAt(disk, k))
        invariant forall i :: 0 <= i < n && cache[i].key.device == device ==> !cache[i].dirty
      {
        if cache[n].key.device == device {
          EntryClean(n);
        }
        n := n + 1;
      }
      FlushedDevice(cache, disk, device);
    }

    /** bcache_flush_all */
    method FlushAll()
      requires Valid()
      modifies this
      ensures Valid() && View() == old(View())
      ensures forall k :: DiskAt(disk, k) == View()[k]
    {
      var n := 0;
      while n < |cache|
        invariant 0 <= n <= |cache| && Valid() && View() == old(View()) && |cache| == old(|cache|)
        invariant forall i :: 0 <= i < n ==> !cache[i].dirty
      {
        EntryClean(n);
        n := n + 1;
      }
      forall k ensures DiskAt(disk, k) == View()[k] { FlushedDevice(cache, disk, k.device); }
    }

    method Perform(op: Op) returns (r: int, b: block)
      requires Valid()
      modifies this
      ensures Valid() && View() == if op.WriteOp? && r == 1 then old(View())[op.key := op.data] else old(View())
      ensures (op.ReadOp? && r > 0 ==> b == old(View())[op.key]) && Answered(op, r)
      ensures op.FlushAllOp? ==> forall k :: DiskAt(disk, k) == View()[k]
    {
      r, b := 0, ZeroBlock();
      match op {
        case ReadOp(k, c) => r, b := ReadBlock(k, c.io, c.outOfMemory, c.garbage);
        case WriteOp(k, d, c) => r := WriteBlock(k, d, c.outOfMemory, c.garbage);
        case FlushBlockOp(k) => FlushBlock(k);
        case FlushDeviceOp(device) => FlushDevice(device);
        case FlushAllOp => FlushAll();
      }
    }

    /** Any run of calls: users see a plain disk, whatever is evicted and written back when. A read
        that succeeds returns the block that the plain disk holds at that moment. */
    method Run(ops: seq<Op>) returns (results: seq<int>, data: seq<block>)
      requires Valid()
      modifies this
      ensures Valid() && |results| == |data| == |ops| && (forall k :: k in old(View()))
      ensures View() == PlainDisk(old(View()), ops, results) && AllReadsRight(old(View()), ops, results, data)
      ensures forall n :: 0 <= n < |ops| ==> Answered(ops[n], results[n])
      ensures ops != [] && ops[|ops| - 1].FlushAllOp? ==>
                forall k :: DiskAt(disk, k) == PlainDisk(old(View()), ops, results)[k]
    {
      results, data := [], [];
      var n := 0;
      ghost var view, past: seq<Op> := View(), [];
      while n < |ops|
        invariant 0 <= n <= |ops| && Valid() && past == ops[..n] && |results| == |data| == |past|
        invariant View() == PlainDisk(view, past, results) && AllReadsRight(view, past, results, data)
        invariant forall j :: 0 <= j < n ==> Answered(ops[j], results[j])
        invariant n > 0 && ops[n - 1].FlushAllOp? ==> forall k :: DiskAt(disk, k) == View()[k]
      {
        var r, b := Perform(ops[n]);
        CallMore(view, past, results, data, ops[n], r, b);
        results, data, past := results + [r], data + [b], past + [ops[n]];
        n := n + 1;
      }
      assert past == ops;
    }
  }

  /** A read or a write is refused only by the device or for want of memory. */
  predicate Answered(op: Op, r: int) {
    match op
    case ReadOp(_, c) => r == 1 || r == c.io || (r == -18 && c.outOfMemory)
    case WriteOp(_, _, c) => r == 1 || (r == -18 && c.outOfMemory)
    case _ => true
  }

  /** The n-th call, if it was a read that succeeded, returned what the plain disk held then. */
  ghost predicate ReadRight(view: imap<Key, block>, ops: seq<Op>, results: seq<int>, data: seq<block>, n: int) {
    0 <= n < |ops| && n < |results| && n < |data| && ops[n].ReadOp? && results[n] > 0 ==>
      && ops[n].key in PlainDisk(view, ops[..n], results[..n])
      && data[n] == PlainDisk(view, ops[..n], results[..n])[ops[n].key]
  }

  ghost predicate AllReadsRight(view: imap<Key, block>, ops: seq<Op>, results: seq<int>, data: seq<block>) {
    forall n {:trigger ReadRight(view, ops, results, data, n)} :: ReadRight(view, ops, results, data, n)
  }

  lemma CallMore(view: imap<Key, block>, ops: seq<Op>, results: seq<int>, data: seq<block>, op: Op, r: int, b: block)
    requires |results| == |data| == |ops| && AllReadsRight(view, ops, results, data)
    requires op.ReadOp? && r > 0 ==>
               op.key in PlainDisk(view, ops, results) && b == PlainDisk(view, ops, results)[op.key]
    ensures AllReadsRight(view, ops + [op], results + [r], data + [b])
    ensures PlainDisk(view, ops + [op], results + [r])
         == if op.WriteOp? && r == 1 then PlainDisk(view, ops, results)[op.key := op.data]
            else PlainDisk(view, ops, results)
  {
    var ops', results', data' := ops + [op], results + [r], data + [b];
    assert ops'[..|ops|] == ops && results'[..|ops|] == results;
    forall n ensures ReadRight(view, ops', results', data', n) {
      if 0 <= n < |ops| {
        assert ReadRight(view, ops, results, data, n);
        assert ops'[..n] == ops[..n] && results'[..n] == results[..n];
      }
    }
  }

  lemma SameKeys(cache: seq<Entry>, cache': seq<Entry>, k: Key)
    requires |cache'| == |cache| && forall j :: 0 <= j < |cache| ==> cache'[j].key == cache[j].key
    ensures HasKey(cache', k) <==> HasKey(cache, k)
  {
    if HasKey(cache, k) {
      var j :| 0 <= j < |cache| && cache[j].key == k;
      assert cache'[j].key == k;
    }
  }

  /** Writing an entry back changes nothing that a user could see. */
  lemma CleanKeepsView(cache: seq<Entry>, disk: map<Key, block>, i: nat)
    requires i < |cache| && UniqueKeys(cache)
    ensures var e := cache[i];
            forall k :: Logical(cache[i := e.(dirty := false)], disk[e.key := e.data], k) == Logical(cache, disk, k)
  {
    var e := cache[i];
    var cache', disk' := cache[i := e.(dirty := false)], disk[e.key := e.data];
    forall k ensures Logical(cache', disk', k) == Logical(cache, disk, k) {
      SameKeys(cache, cache', k);
      if HasKey(cache, k) {
        var j :| 0 <= j < |cache| && cache[j].key == k;
        LogicalAt(cache, disk, j);
        LogicalAt(cache', disk', j);
      }
    }
  }

  /** Neither does dropping the oldest entry, written back if it is dirty. */
  lemma EvictKeepsView(cache: seq<Entry>, disk: map<Key, block>)
    requires |cache| >= 2 && UniqueKeys(cache) && CleanOnes(cache[1..], disk)
    ensures var e := cache[|cache| - 1];
            var cache' := cache[..|cache| - 1];
            var disk' := if e.dirty then disk[e.key := e.data] else disk;
            && (forall k :: Logical(cache', disk', k) == Logical(cache, disk, k))
            && UniqueKeys(cache') && CleanOnes(cache'[1..], disk') && e.key != cache[0].key
  {
    var n := |cache| - 1;
    var e := cache[n];
    var cache' := cache[..n];
    var disk' := if e.dirty then disk[e.key := e.data] else disk;
    assert cache[1..][n - 1] == e;
    forall i | 0 <= i < |cache'| - 1 ensures cache'[1..][i] == cache[1..][i] && cache[1..][i].key != e.key {}
    forall k ensures Logical(cache', disk', k) == Logical(cache, disk, k) {
      if HasKey(cache', k) {
        var j :| 0 <= j < |cache'| && cache'[j].key == k;
        assert cache[j].key == k;
        LogicalAt(cache, disk, j);
        LogicalAt(cache', disk', j);
      } else if HasKey(cache, k) {
        LogicalAt(cache, disk, n);
      }
    }
  }

  /** A new entry changes the view of its own block only. */
  lemma CreateKeepsView(cache: seq<Entry>, disk: map<Key, block>, e: Entry)
    requires UniqueKeys(cache) && !HasKey(cache, e.key)
    ensures UniqueKeys([e] + cache)
    ensures forall k :: k != e.key ==> Logical([e] + cache, disk, k) == Logical(cache, disk, k)
    ensures Logical(cache, disk, e.key) == DiskAt(disk, e.key)
  {
    var cache' := [e] + cache;
    forall k | k != e.key ensures Logical(cache', disk, k) == Logical(cache, disk, k) {
      if HasKey(cache, k) {
        var j :| 0 <= j < |cache| && cache[j].key == k;
        assert cache'[j + 1].key == k;
        LogicalAt(cache, disk, j);
        LogicalAt(cache', disk, j + 1);
      }
    }
  }

  lemma FillKeepsView(cache: seq<Entry>, disk: map<Key, block>, e: Entry)
    requires UniqueKeys(cache) && |cache| >= 1 && e.key == cache[0].key
    ensures UniqueKeys(cache[0 := e]) && cache[0 := e][1..] == cache[1..]
    ensures forall k :: Logical(cache[0 := e], disk, k) == if k == e.key then e.data else Logical(cache, disk, k)
  {
    StoreChanges(cache, disk, 0, e);
  }

  lemma StoreChanges(cache: seq<Entry>, disk: map<Key, block>, i: nat, e: Entry)
    requires UniqueKeys(cache) && i < |cache| && e.key == cache[i].key
    ensures UniqueKeys(cache[i := e])
    ensures forall k {:trigger Logical(cache[i := e], disk, k)} ::
              Logical(cache[i := e], disk, k) == if k == e.key then e.data else Logical(cache, disk, k)
  {
    var cache' := cache[i := e];
    forall k ensures Logical(cache', disk, k) == if k == e.key then e.data else Logical(cache, disk, k) {
      SameKeys(cache, cache', k);
      if HasKey(cache, k) {
        var j :| 0 <= j < |cache| && cache[j].key == k;
        LogicalAt(cache, disk, j);
        LogicalAt(cache', disk, j);
      }
      LogicalAt(cache', disk, i);
    }
  }

  lemma StoreChangesView(cache: seq<Entry>, cache': seq<Entry>, disk: map<Key, block>, i: nat, data: block)
    requires UniqueKeys(cache) && i < |cache| && cache' == cache[i := cache[i].(data := data, dirty := true)]
    requires CleanOnes(cache[1..], disk) && (i == 0 || CleanOnes(cache, disk))
    ensures UniqueKeys(cache') && CleanOnes(cache', disk)
    ensures forall k {:trigger Logical(cache', disk, k)} ::
              Logical(cache', disk, k) == if k == cache[i].key then data else Logical(cache, disk, k)
  {
    var e := cache[i].(data := data, dirty := true);
    StoreChanges(cache, disk, i, e);
    forall j | 0 <= j < |cache| && j != i && !cache[j].dirty ensures cache[j].data == DiskAt(disk, cache[j].key) {
      if i == 0 { assert cache[1..][j - 1] == cache[j]; }
    }
  }

  lemma RemoveKeepsView(cache: seq<Entry>, disk: map<Key, block>)
    requires UniqueKeys(cache) && |cache| >= 1
    ensures UniqueKeys(cache[1..])
    ensures forall k ::
              Logical(cache[1..], disk, k) == if k == cache[0].key then DiskAt(disk, k) else Logical(cache, disk, k)
  {
    assert !HasKey(cache[1..], cache[0].key);
    assert cache == [cache[0]] + cache[1..];
    CreateKeepsView(cache[1..], disk, cache[0]);
  }

  lemma FlushedDevice(cache: seq<Entry>, disk: map<Key, block>, device: int)
    requires UniqueKeys(cache) && CleanOnes(cache, disk)
    requires forall i :: 0 <= i < |cache| && cache[i].key.device == device ==> !cache[i].dirty
    ensures forall k: Key :: k.device == device ==> DiskAt(disk, k) == Logical(cache, disk, k)
  {
    forall k: Key | k.device == device ensures DiskAt(disk, k) == Logical(cache, disk, k) {
      if HasKey(cache, k) {
        var j :| 0 <= j < |cache| && cache[j].key == k;
        LogicalAt(cache, disk, j);
      }
    }
  }
}
