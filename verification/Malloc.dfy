/** The user heap (dlmalloc) as this system builds it: 32-bit words, 8-byte alignment, no mmap,
    no footers, no locks, one segment with a fixed end. */
module Malloc {
  import opened Words
  import opened Memory
  import opened TreeIndex
  import opened Tries
  import Bits
  import Bins
  import Rings
  import opened BestFit
  import opened Tiling

  /** The chunk heads hold the sizes of the binned chunks. */
  ghost predicate SizesAgree(head: map<int, Head>, binned: map<int, word>) {
    forall x :: x in binned ==> x in head && head[x].size == binned[x]
  }

  lemma SizesAgreeWith(head: map<int, Head>, binned: map<int, word>, x: int, s: word)
    requires SizesAgree(head, binned) && x in head && head[x].size == s
    ensures SizesAgree(head, binned[x := s])
  {
  }

  /** align_offset(A) */
  function AlignOffset(a: nat): (offset: word)
    ensures offset < 8 && (a + offset) % 8 == 0
  {
    if a % 8 == 0 then 0 else 8 - a % 8
  }

  lemma AlignedEnds(p: nat, psize: nat, offset: nat)
    requires (p + psize) % 8 == 0 && (p + 8 + offset) % 8 == 0
    ensures (p + offset) % 8 == 0 && (psize - offset) % 8 == 0
  {
  }

  /** A segment of one top chunk. */
  ghost function NewHeap(base: int, size: word): (h: Heap)
    requires base > 0 && base % 8 == 0 && size % 8 == 0 && base + size < WORD
    ensures Tiling.Ok(h) && Placed(h, map[], 0, 0, {}) && Allocated(h) == map[] && OneTop(h, map[], 0)
    ensures h.head == map[base := Head(size, false, true)] && h.foot == map[] && h.top == base == h.base
            && h.end == base + size
    ensures Size(h, h.top) == size
  {
    Heap(map[base := Head(size, false, true)], map[], base, base + size, base, {base}, map[])
  }

  class MState {
    /** The head words of the chunks, and the feet of free chunks (the prev_foot field of the
        chunk behind), by address. */
    var head: map<int, Head>
    var prev_foot: map<int, int>
    var dv: int
    var dvsize: word
    var top: int
    var topsize: word
    /** The segment as the proofs see it. */
    ghost var heap: Heap
    /** The fields fd, bk, child, parent and index of the free chunks, by address, with the
        tree bins and the two binmaps. */
    var links: Bins.Links
    /** The bins as the proofs see them: the same links with the bookkeeping that orders them. */
    ghost var store: Bins.Store

    /** init_top and init_bins on psize bytes from p: the first aligned address on starts the one
        top chunk, and the bins are empty. The end is aligned, as it has to be for the size to
        leave room for the flags. */
    constructor (p: int, psize: word)
      requires p > Bins.SMALLBINS + 8 * Bins.NSMALLBINS && psize >= 8 && (p + psize) % 8 == 0 && p + psize < WORD
      ensures Valid({}) && Allocated(heap) == map[] && p <= heap.base < p + 8 && heap.end == p + psize
      ensures OneTop(heap, store.binned, dv)
    {
      var offset := AlignOffset(p + 8);
      AlignedEnds(p, psize, offset);
      var base, size := p + offset, psize - offset;
      head, prev_foot := map[base := Head(size, false, true)], map[];
      dv, dvsize, top, topsize := 0, 0, base, size;
      heap := NewHeap(base, size);
      new;
      hide Tiling.Ok, Placed, Allocated, NewHeap, OneTop;
      var fd, bk := map[], map[];
      for i := 0 to Bins.NSMALLBINS {
        var b := Bins.SmallbinAt(i);
        fd, bk := fd[b := b], bk[b := b];
      }
      links := Bins.Links(fd, bk, map[], map[], map[], map[], seq(NTREEBINS, _ => 0), 0, 0);
      store := Bins.EmptyStore(fd, bk);
      Bins.EmptyOk(fd, bk);
    }

    /** The bins are well formed, the links in memory are theirs, and the chunk heads agree on
        the sizes. */
    ghost predicate BinsOk()
      reads this
    {
      Bins.Ok(store) && links == Bins.LinksOf(store) && SizesAgree(head, store.binned)
    }

    function ChunkSize(x: int): word
      reads this
    {
      HeadAt(head, x).size
    }

    /** insert_small_chunk */
    method InsertSmallChunk(p: int, s: word)
      requires BinsOk() && Bins.Fresh(store, p, s) && Bins.IsSmall(s) && p in head && head[p].size == s
      modifies this`links, this`store
      ensures BinsOk() && store.binned == old(store.binned)[p := s]
    {
      SizesAgreeWith(head, store.binned, p, s);
      ghost var store1 := Bins.InsertSmallStep(store, p, s);
      var l := links;
      var i := Bins.SmallIndex(s);
      var b := Bins.SmallbinAt(i);
      var f := b;
      if !Bits.Has(l.smallmap, i) {
        l := l.(smallmap := Bits.With(l.smallmap, i));
      } else {
        f := At(l.fd, b);
      }
      l := l.(fd := l.fd[b := p]);
      l := l.(bk := l.bk[f := p]);
      l := l.(fd := l.fd[p := f]);
      l := l.(bk := l.bk[p := b]);
      links, store := l, store1;
    }

    /** unlink_small_chunk */
    method UnlinkSmallChunk(p: int, s: word)
      requires BinsOk() && p in store.binned && store.binned[p] == s && Bins.IsSmall(s)
      modifies this`links, this`store
      ensures BinsOk() && store.binned == old(store.binned) - {p}
    {
      ghost var store1 := Bins.RemoveSmallStep(store, p);
      var l := links;
      var f := At(l.fd, p);
      var b := At(l.bk, p);
      var i := Bins.SmallIndex(s);
      if b == f {
        l := l.(smallmap := Bits.Without(l.smallmap, i));
      } else {
        l := l.(bk := l.bk[f := b]);
        l := l.(fd := l.fd[b := f]);
      }
      links, store := l, store1;
    }

    // insert_large_chunk, in its three cases

    method PlantChunk(x: int, s: word, i: nat)
      requires BinsOk() && Bins.Fresh(store, x, s) && !Bins.IsSmall(s) && x in head && head[x].size == s
      requires i == Index(s) && i < NTREEBINS && links.treebins[i] == 0
      modifies this`links, this`store
      ensures BinsOk() && store.binned == old(store.binned)[x := s]
    {
      SizesAgreeWith(head, store.binned, x, s);
      ghost var store1 := Bins.PlantStep(store, x, s, i);
      var l := links;
      l := l.(index := l.index[x := i], child0 := l.child0[x := 0], child1 := l.child1[x := 0]);
      l := l.(treemap := Bits.With(l.treemap, i));
      l := l.(treebins := l.treebins[i := x]);
      l := l.(parent := l.parent[x := BinHeader(i)]);
      l := l.(fd := l.fd[x := x], bk := l.bk[x := x]);
      links, store := l, store1;
    }

    method GraftChunk(t: int, bit: nat, x: int, s: word, i: nat)
      requires BinsOk() && Bins.Fresh(store, x, s) && !Bins.IsSmall(s) && x in head && head[x].size == s
      requires i == Index(s) && WalkEnd(t, bit, s, i) && store.trie.size[t] != s
      modifies this`links, this`store
      ensures BinsOk() && store.binned == old(store.binned)[x := s]
    {
      SizesAgreeWith(head, store.binned, x, s);
      ghost var store1 := Bins.GraftStep(store, t, x, s, bit);
      var l := links;
      l := l.(index := l.index[x := i], child0 := l.child0[x := 0], child1 := l.child1[x := 0]);
      if bit == 0 {
        l := l.(child0 := l.child0[t := x]);
      } else {
        l := l.(child1 := l.child1[t := x]);
      }
      l := l.(parent := l.parent[x := TreeNode(t)]);
      l := l.(fd := l.fd[x := x], bk := l.bk[x := x]);
      links, store := l, store1;
    }

    method ChainChunk(t: int, x: int, s: word, i: nat)
      requires BinsOk() && Bins.Fresh(store, x, s) && !Bins.IsSmall(s) && x in head && head[x].size == s
      requires i == Index(s) && t in store.trie.size && store.trie.size[t] == s
      modifies this`links, this`store
      ensures BinsOk() && store.binned == old(store.binned)[x := s]
    {
      SizesAgreeWith(head, store.binned, x, s);
      ghost var store1 := Bins.ChainStep(store, t, x, s, i);
      var l := links;
      l := l.(index := l.index[x := i], child0 := l.child0[x := 0], child1 := l.child1[x := 0]);
      var f := At(l.fd, t);
      l := l.(fd := l.fd[t := x], bk := l.bk[f := x]);
      l := l.(fd := l.fd[x := f]);
      l := l.(bk := l.bk[x := t]);
      l := l.(parent := l.parent[x := NoParent]);
      links, store := l, store1;
    }

    /** t is the last node on the path of s: it has size s, or no child where s goes on. */
    ghost predicate WalkEnd(t: int, bit: nat, s: word, i: nat)
      reads this
    {
      && t in store.trie.size && NodeOk(store.trie, t) && store.trie.bin[t] == i && OnPath(store.trie, t, s)
      && (forall y :: y in store.trie.size && store.trie.size[y] == s ==> Below(store.trie, t, y))
      && (store.trie.size[t] != s ==> bit == Slot(store.trie, t, s) && Kid(store.trie, t, bit) == 0)
    }

    /** The walk of insert_large_chunk down the trie. */
    method WalkDown(s: word, i: nat) returns (t: int, bit: nat)
      requires BinsOk() && s >= MIN_LARGE_SIZE && i == Index(s) && i < NTREEBINS && links.treebins[i] != 0
      ensures WalkEnd(t, bit, s, i)
    {
      hide LeftShift, Prefix, ParentOk, KidOk;
      t, bit := links.treebins[i], 0;
      var k := Shl(s, LeftShift(i));
      StartOfWalk(store.trie, s);
      while true
        invariant t in store.trie.size && NodeOk(store.trie, t) && store.trie.bin[t] == i
        invariant OnPath(store.trie, t, s) && k == Shl(s, Pos(store.trie, t))
        invariant forall y :: y in store.trie.size && store.trie.size[y] == s ==> Below(store.trie, t, y)
        decreases 32 - Pos(store.trie, t)
      {
        if ChunkSize(t) == s { return; }
        StepOfWalk(store.trie, t, s);
        bit := TopBit(k);
        k := Shl1(k);
        var c := Child(links.child0, links.child1, t, bit);
        if c == 0 { return; }
        t := c;
      }
    }

    method InsertLargeChunk(x: int, s: word)
      requires BinsOk() && Bins.Fresh(store, x, s) && !Bins.IsSmall(s) && x in head && head[x].size == s
      modifies this`links, this`store
      ensures BinsOk() && store.binned == old(store.binned)[x := s]
    {
      var i := Index(s);
      IndexRange(s);
      if !Bits.Has(links.treemap, i) {
        PlantChunk(x, s, i);
      } else {
        var t, bit := WalkDown(s, i);
        if ChunkSize(t) != s {
          GraftChunk(t, bit, x, s, i);
        } else {
          ChainChunk(t, x, s, i);
        }
      }
    }

    // unlink_large_chunk, in its two halves

    /** The rightmost leaf below x, which has kids, and the place it hangs in. */
    method FindLeaf(x: int) returns (r: int, p: int, bit: nat)
      requires BinsOk() && x in store.trie.size && NodeOk(store.trie, x)
      requires Kid(store.trie, x, 0) != 0 || Kid(store.trie, x, 1) != 0
      ensures r in store.trie.size && NodeOk(store.trie, r) && Below(store.trie, x, r) && r != x
      ensures Kid(store.trie, r, 0) == 0 && Kid(store.trie, r, 1) == 0
      ensures p in store.trie.size && bit <= 1 && Kid(store.trie, p, bit) == r
    {
      var l := links;
      p, bit := x, 1;
      r := At(l.child1, x);
      if r == 0 {
        bit := 0;
        r := At(l.child0, x);
      }
      KidBelow(store.trie, x, x, bit);
      while true
        invariant r in store.trie.size && NodeOk(store.trie, r) && Below(store.trie, x, r)
        invariant store.trie.depth[r] > store.trie.depth[x]
        invariant p in store.trie.size && bit <= 1 && Kid(store.trie, p, bit) == r
        decreases 32 - Pos(store.trie, r)
      {
        var cbit := 1;
        var c := At(l.child1, r);
        if c == 0 {
          cbit := 0;
          c := At(l.child0, r);
        }
        if c == 0 { return; }
        KidBelow(store.trie, x, r, cbit);
        p, bit, r := r, cbit, c;
      }
    }

    /** r, when it is not 0, takes over the place and the kids of x. */
    method PlaceInTree(l0: Bins.Links, x: int, r: int, i: nat) returns (l: Bins.Links)
      requires i < |l0.treebins| && i < 32
      requires match Bins.ParentAt(l0.parent, x)
               case NoParent => false
               case BinHeader(j) => j == i && l0.treebins[i] == x
               case TreeNode(p) => l0.treebins[i] != x
      ensures l == Bins.Placed(l0, x, r)
    {
      l := l0;
      var xp := Bins.ParentAt(l.parent, x);
      if x == l.treebins[i] {
        l := l.(treebins := l.treebins[i := r]);
        if r == 0 {
          l := l.(treemap := Bits.Without(l.treemap, i));
        }
      } else if At(l.child0, xp.node) == x {
        l := l.(child0 := l.child0[xp.node := r]);
      } else {
        l := l.(child1 := l.child1[xp.node := r]);
      }
      if r != 0 {
        l := l.(parent := l.parent[r := xp]);
        var c0 := At(l.child0, x);
        if c0 != 0 {
          l := l.(child0 := l.child0[r := c0], parent := l.parent[c0 := TreeNode(r)]);
        }
        var c1 := At(l.child1, x);
        if c1 != 0 {
          l := l.(child1 := l.child1[r := c1], parent := l.parent[c1 := TreeNode(r)]);
        }
      }
    }

    method UnlinkLargeChunk(x: int)
      requires BinsOk() && x in store.binned && !Bins.IsSmall(store.binned[x])
      modifies this`links, this`store
      ensures BinsOk() && store.binned == old(store.binned) - {x}
    {
      var l := links;
      var xp := Bins.ParentAt(l.parent, x);
      var i := if x in l.index then l.index[x] else 0;
      var r: int;
      ghost var store1: Bins.Store;
      Bins.PlaceOfChunk(store, x);
      if At(l.bk, x) != x {
        var f := At(l.fd, x);
        r := At(l.bk, x);
        if x in store.trie.size {
          store1 := Bins.PromoteStep(store, x);
        } else {
          store1 := Bins.UnchainStep(store, x);
        }
        l := l.(bk := l.bk[f := r]);
        l := l.(fd := l.fd[r := f]);
      } else if At(l.child1, x) != 0 || At(l.child0, x) != 0 {
        var p, bit;
        r, p, bit := FindLeaf(x);
        store1 := Bins.MoveLeafStep(store, x, r, p, bit);
        if bit == 0 {
          l := l.(child0 := l.child0[p := 0]);
        } else {
          l := l.(child1 := l.child1[p := 0]);
        }
      } else {
        r := 0;
        store1 := Bins.UprootStep(store, x);
      }
      if xp != NoParent {
        l := PlaceInTree(l, x, r, i);
      }
      links, store := l, store1;
    }

    // the searches of tmalloc_large and tmalloc_small

    /** The walk along the bits of nb in its own bin. */
    method WalkForFit(nb: word) returns (v: int, rsize: word, t: int)
      requires BinsOk() && nb >= MIN_LARGE_SIZE
      ensures Candidate(store.trie, nb, v, rsize)
      ensures Index(nb) < NTREEBINS && Covered(store.trie, nb, v, 0, t)
      ensures v != 0 ==> v in store.trie.size && NodeOk(store.trie, v) && store.trie.bin[v] == Index(nb)
      ensures t != 0 ==> t in store.trie.size && NodeOk(store.trie, t) && store.trie.bin[t] == Index(nb)
      ensures t != 0 ==> (v != 0 && rsize == 0) || AllFit(store.trie, nb, t)
    {
      var idx := Index(nb);
      v, rsize := 0, Sub(0, nb);
      StartOfFit(store.trie, nb);
      t := links.treebins[idx];
      if t == 0 { return; }
      var sizebits := Shl(nb, LeftShift(idx));
      var rst := 0;
      while true
        invariant Walking(store.trie, nb, v, rsize, t, rst, sizebits)
        decreases 32 - Pos(store.trie, t)
      {
        var trem := Sub(ChunkSize(t), nb);
        Improve(store.trie, nb, v, rsize, t, rst, sizebits);
        if trem < rsize {
          v, rsize := t, trem;
          if rsize == 0 { return; }
        }
        WalkOn(store.trie, nb, v, rsize, t, rst, sizebits);
        var rt := At(links.child1, t);
        t := Child(links.child0, links.child1, t, TopBit(sizebits));
        if rt != 0 && rt != t { rst := rt; }
        if t == 0 {
          t := rst;
          return;
        }
        sizebits := Shl1(sizebits);
      }
    }

    /** The descent to the smallest node through leftmost children. */
    method Leftmost(nb: word, v0: int, rsize0: word, t0: int) returns (v: int, rsize: word)
      requires BinsOk() && nb > 0 && Candidate(store.trie, nb, v0, rsize0) && Remaining(store.trie, nb, v0, t0)
      requires t0 != 0 ==> t0 in store.trie.size && NodeOk(store.trie, t0)
      requires t0 != 0 ==> (v0 != 0 && rsize0 == 0) || AllFit(store.trie, nb, t0)
      ensures Candidate(store.trie, nb, v, rsize) && Remaining(store.trie, nb, v, 0)
    {
      v, rsize := v0, rsize0;
      var t := t0;
      while t != 0
        invariant Candidate(store.trie, nb, v, rsize) && Remaining(store.trie, nb, v, t)
        invariant t != 0 ==> t in store.trie.size && NodeOk(store.trie, t)
        invariant t != 0 ==> (v != 0 && rsize == 0) || AllFit(store.trie, nb, t)
        decreases t != 0, if t in store.trie.size && NodeOk(store.trie, t) then 32 - Pos(store.trie, t) else 0
      {
        var trem := Sub(ChunkSize(t), nb);
        TrialRemainder(store.trie, nb, v, rsize, t);
        if trem < rsize {
          v, rsize := t, trem;
        }
        LeftmostStep(store.trie, nb, v, t);
        t := if At(links.child0, t) != 0 then At(links.child0, t) else At(links.child1, t);
      }
    }

    /** The best fit for nb among the chunks of the tree bins, or none. */
    ghost predicate IsBestFit(nb: word, v: int, rsize: word)
      reads this
    {
      if v == 0 then
        rsize == Sub(0, nb) && forall y :: y in store.binned && !Bins.IsSmall(store.binned[y]) ==> store.binned[y] < nb
      else
        && v in store.binned && !Bins.IsSmall(store.binned[v]) && store.binned[v] >= nb && rsize == store.binned[v] - nb
        && forall y :: y in store.binned && !Bins.IsSmall(store.binned[y]) && store.binned[y] >= nb ==>
             store.binned[v] <= store.binned[y]
    }

    /** The search of tmalloc_large. */
    method SearchLarge(nb: word) returns (v: int, rsize: word)
      requires BinsOk() && nb >= MIN_LARGE_SIZE
      ensures IsBestFit(nb, v, rsize)
    {
      var t;
      v, rsize, t := WalkForFit(nb);
      if t == 0 && v == 0 {
        NextBin(store.trie, nb, links.treemap);
        var leftbits := Bits.And(Bits.LeftBits(Bits.Bit(Index(nb))), links.treemap);
        if leftbits != 0 {
          var leastbit := Bits.LeastBit(leftbits);
          var i := Bits.Ctz(leastbit);
          t := links.treebins[i];
        }
      } else {
        OwnBin(store.trie, nb, v, t);
      }
      v, rsize := Leftmost(nb, v, rsize, t);
      BestOfAll(store, nb, v);
    }

    /** The search of tmalloc_small: the smallest chunk of the first nonempty bin. */
    method SearchSmall(nb: word) returns (v: int, rsize: word)
      requires BinsOk() && 0 < nb < MIN_LARGE_SIZE && links.treemap != 0
      ensures v != 0 && IsBestFit(nb, v, rsize)
    {
      SmallStart(store.trie, nb, links.treemap);
      var leastbit := Bits.LeastBit(links.treemap);
      var i := Bits.Ctz(leastbit);
      v := links.treebins[i];
      rsize := Sub(ChunkSize(v), nb);
      var t := if At(links.child0, v) != 0 then At(links.child0, v) else At(links.child1, v);
      v, rsize := Leftmost(nb, v, rsize, t);
      BestOfAll(store, nb, v);
    }

    // ---- the chunks of the segment

    /** The whole invariant: the chunks tile the segment, and every free chunk is in exactly one
        place, in a bin, as dv or as top; only the chunks in loose are on their way. */
    ghost predicate Valid(loose: set<int>)
      reads this
    {
      && BinsOk() && Tiling.Ok(heap) && heap.head == head && heap.foot == prev_foot
      && heap.top == top && topsize == Size(heap, top) && heap.base > Bins.SMALLBINS + 8 * Bins.NSMALLBINS
      && Placed(heap, store.binned, dv, dvsize, loose)
    }

    method UnlinkChunk(p: int, s: word, ghost loose: set<int> := {})
      requires Valid(loose) && p in store.binned && store.binned[p] == s
      modifies this`links, this`store
      ensures Valid(loose + {p}) && Free(heap, p) && Size(heap, p) == s && store.binned == old(store.binned) - {p}
    {
      if Bins.IsSmall(s) {
        UnlinkSmallChunk(p, s);
      } else {
        UnlinkLargeChunk(p);
      }
    }

    method InsertChunk(p: int, s: word)
      requires Valid({p}) && Free(heap, p) && Size(heap, p) == s
      modifies this`links, this`store
      ensures Valid({}) && store.binned == old(store.binned)[p := s]
    {
      FreeIsFresh(heap, store, dv, dvsize, p);
      if Bins.IsSmall(s) {
        InsertSmallChunk(p, s);
      } else {
        InsertLargeChunk(p, s);
      }
    }

    method ReplaceDv(p: int, s: word)
      requires Valid({p}) && Free(heap, p) && Size(heap, p) == s && Bins.IsSmall(dvsize)
      modifies this`links, this`store, this`dv, this`dvsize
      ensures Valid({}) && dv == p && dvsize == s
      ensures store.binned == if old(dvsize) == 0 then old(store.binned) else old(store.binned)[old(dv) := old(dvsize)]
    {
      var dvs := dvsize;
      if dvs != 0 {
        DvIsFresh(heap, store, dv, dvsize, p);
        InsertSmallChunk(dv, dvs);
      }
      assert ChunkOk(heap, p);
      dv, dvsize := p, s;
    }

    /** The chunk p taken as a whole. */
    method TakeWhole(p: int, s: word)
      requires Valid({p}) && Free(heap, p) && Size(heap, p) == s
      modifies this`head, this`heap
      ensures Valid({}) && p > 0 && Allocated(heap) == old(Allocated(heap))[p := s]
    {
      ghost var heap1 := OccupyStep(heap, store.binned, dv, dvsize, p);
      var n := p + s;
      head := head[p := Head(s, true, true)][n := HeadAt(head, n).(pinuse := true)];
      heap := heap1;
    }

    /** The front of p taken, the rest a new free chunk. */
    method TakeFront(p: int, nb: word) returns (r: int, rsize: word)
      requires Valid({p}) && CanCarve(heap, p, nb)
      modifies this`head, this`prev_foot, this`heap
      ensures r == p + nb && rsize == old(Size(heap, p)) - nb
      ensures Valid({r}) && Free(heap, r) && Size(heap, r) == rsize
      ensures p > 0 && Allocated(heap) == old(Allocated(heap))[p := nb]
    {
      ghost var heap1 := CarveStep(heap, store.binned, dv, dvsize, p, nb);
      rsize := ChunkSize(p) - nb;
      r := p + nb;
      head := head[p := Head(nb, true, true)][r := Head(rsize, false, true)];
      prev_foot := prev_foot[r + rsize := rsize];
      heap := heap1;
    }

    // ---- malloc

    /** mem, if not 0, is a chunk that nobody held, at least nb and less than nb + 16 bytes large,
        and otherwise the held chunks are those of before. */
    ghost predicate Granted(before: map<int, word>, mem: int, nb: word)
      reads this
    {
      var p := mem - 8;
      p > 0 && p !in before && p in Allocated(heap) && nb <= Allocated(heap)[p] < nb + MIN_CHUNK_SIZE
      && Allocated(heap) == before[p := Allocated(heap)[p]]
    }

    /** unlink_first_small_chunk, and the chunk it takes. */
    method FirstOfSmallBin(i: nat) returns (p: int)
      requires Valid({}) && i < Bins.NSMALLBINS && Bits.Has(links.smallmap, i)
      modifies this`links, this`store
      ensures p in old(store.binned) && old(store.binned)[p] == 8 * i
      ensures Valid({p}) && Free(heap, p) && Size(heap, p) == 8 * i && store.binned == old(store.binned) - {p}
    {
      Bins.FirstInSmallBin(store, i);
      var l := links;
      var b := Bins.SmallbinAt(i);
      p := At(l.fd, b);
      ghost var store1 := Bins.RemoveSmallStep(store, p);
      var f := At(l.fd, p);
      if b == f {
        l := l.(smallmap := Bits.Without(l.smallmap, i));
      } else {
        l := l.(bk := l.bk[f := b]);
        l := l.(fd := l.fd[b := f]);
      }
      links, store := l, store1;
    }

    /** A remainderless fit from a small bin. */
    method MallocFromSmallBin(nb: word, i: nat) returns (mem: int)
      requires Valid({}) && i < Bins.NSMALLBINS && Bits.Has(links.smallmap, i) && nb <= 8 * i < nb + MIN_CHUNK_SIZE
      requires NoneFrom(store.binned, nb, 8 * i)
      modifies this`links, this`store, this`head, this`heap
      ensures Valid({}) && Granted(old(Allocated(heap)), mem, nb)
              && Picked(old(store.binned), old(dv), old(dvsize), old(top), old(topsize), mem - 8, nb)
              && LeftOver(old(store.binned), old(dv), old(dvsize), old(top), mem - 8, nb, store.binned, dv, dvsize, top)
    {
      var p := FirstOfSmallBin(i);
      TakeWhole(p, 8 * i);
      mem := p + 8;
    }

    /** A larger small chunk is split, and its rest becomes dv. */
    method MallocSplitSmall(nb: word, i: nat) returns (mem: int)
      requires Valid({}) && i < Bins.NSMALLBINS && Bits.Has(links.smallmap, i) && nb + MIN_CHUNK_SIZE <= 8 * i
      requires nb % 8 == 0 && nb >= MIN_CHUNK_SIZE && dvsize < nb && Bins.IsSmall(dvsize)
               && NoneFrom(store.binned, nb, 8 * i)
      modifies this
      ensures Valid({}) && Granted(old(Allocated(heap)), mem, nb)
              && Picked(old(store.binned), old(dv), old(dvsize), old(top), old(topsize), mem - 8, nb)
              && LeftOver(old(store.binned), old(dv), old(dvsize), old(top), mem - 8, nb, store.binned, dv, dvsize, top)
      ensures dv == mem - 8 + nb && dvsize == 8 * i - nb
    {
      hide Bins.Ok, Tiling.Ok;
      var p := FirstOfSmallBin(i);
      var r, rsize := TakeFront(p, nb);
      ReplaceDv(r, rsize);
      mem := p + 8;
    }

    /** tmalloc_small: the smallest chunk of the tree bins, its rest becomes dv. */
    method TmallocSmall(nb: word) returns (mem: int)
      requires Valid({}) && links.treemap != 0 && nb % 8 == 0 && MIN_CHUNK_SIZE <= nb < MIN_LARGE_SIZE && dvsize < nb
               && Bins.IsSmall(dvsize)
      requires NoneFrom(store.binned, nb, MIN_LARGE_SIZE)
      modifies this
      ensures Valid({}) && Granted(old(Allocated(heap)), mem, nb)
              && Picked(old(store.binned), old(dv), old(dvsize), old(top), old(topsize), mem - 8, nb)
              && LeftOver(old(store.binned), old(dv), old(dvsize), old(top), mem - 8, nb, store.binned, dv, dvsize, top)
      ensures mem - 8 in old(store.binned)
      ensures RestToDv(old(store.binned)[mem - 8], nb, mem - 8, old(dv), old(dvsize))
    {
      var v, rsize := SearchSmall(nb);
      mem := SplitToDv(v, nb, rsize);
    }

    /** What is left of a chunk p of size s becomes dv, if it is large enough to be a chunk. */
    ghost predicate RestToDv(s: word, nb: word, p: int, dv0: int, dvsize0: word)
      reads this
    {
      if s < nb + MIN_CHUNK_SIZE then dv == dv0 && dvsize == dvsize0 else dv == p + nb && dvsize == s - nb
    }

    method SplitToDv(v: int, nb: word, rsize: word) returns (mem: int)
      requires Valid({}) && nb % 8 == 0 && nb >= MIN_CHUNK_SIZE && Bins.IsSmall(dvsize)
      requires v in store.binned && store.binned[v] == nb + rsize
      modifies this
      ensures Valid({}) && Granted(old(Allocated(heap)), mem, nb) && mem == v + 8
      ensures RestToDv(nb + rsize, nb, v, old(dv), old(dvsize)) && top == old(top)
      ensures store.binned == if rsize >= 16 && old(dvsize) != 0
                              then (old(store.binned) - {v})[old(dv) := old(dvsize)] else old(store.binned) - {v}
    {
      hide Bins.Ok, Tiling.Ok;
      UnlinkChunk(v, rsize + nb);
      if rsize < MIN_CHUNK_SIZE {
        TakeWhole(v, rsize + nb);
      } else {
        var r, rest := TakeFront(v, nb);
        ReplaceDv(r, rest);
      }
      mem := v + 8;
    }

    /** The chunk v of the tree bins unlinked and split, or used whole when the rest is too small. */
    method SplitLarge(v: int, nb: word, rsize: word) returns (mem: int)
      requires Valid({}) && nb % 8 == 0 && nb >= MIN_LARGE_SIZE
      requires v in store.binned && store.binned[v] == nb + rsize
      modifies this
      ensures Valid({}) && Granted(old(Allocated(heap)), mem, nb) && mem == v + 8
      ensures top == old(top) && dv == old(dv) && dvsize == old(dvsize)
      ensures store.binned == if rsize < 16 then old(store.binned) - {v} else (old(store.binned) - {v})[v + nb := rsize]
    {
      hide Bins.Ok, Tiling.Ok;
      UnlinkChunk(v, rsize + nb);
      if rsize < MIN_CHUNK_SIZE {
        TakeWhole(v, rsize + nb);
      } else {
        var r, rest := TakeFront(v, nb);
        InsertChunk(r, rest);
      }
      mem := v + 8;
    }

    /** tmalloc_large: the best fit in the tree bins, unless dv is at least as good a fit. */
    method TmallocLarge(nb: word) returns (mem: int)
      requires Valid({}) && nb % 8 == 0 && nb >= MIN_LARGE_SIZE
      modifies this
      ensures Valid({})
      ensures mem != 0 ==>
                Granted(old(Allocated(heap)), mem, nb)
                && Picked(old(store.binned), old(dv), old(dvsize), old(top), old(topsize), mem - 8, nb)
                && LeftOver(old(store.binned), old(dv), old(dvsize), old(top), mem - 8, nb, store.binned, dv, dvsize,
                            top)
      ensures mem == 0 ==> unchanged(this) && NotBinned(store.binned, dvsize, nb)
    {
      hide Bins.Ok, Tiling.Ok, Tiling.Allocated;
      var v, rsize := SearchLarge(nb);
      if v != 0 && rsize < Sub(dvsize, nb) {
        mem := SplitLarge(v, nb, rsize);
      } else {
        mem := 0;
        NothingBetter(store, nb, v, dvsize);
      }
    }

    method MallocFromDv(nb: word) returns (mem: int)
      requires Valid({}) && nb % 8 == 0 && MIN_CHUNK_SIZE <= nb <= dvsize
      modifies this
      ensures Valid({}) && Granted(old(Allocated(heap)), mem, nb) && mem == old(dv) + 8 && store == old(store)
              && top == old(top)
      ensures RestToDv(old(dvsize), nb, old(dv), 0, 0)
    {
      var rsize := dvsize - nb;
      var p := dv;
      if rsize >= MIN_CHUNK_SIZE {
        dv, dvsize := 0, 0;
        var r, rest := TakeFront(p, nb);
        dv, dvsize := r, rest;
      } else {
        var dvs := dvsize;
        dvsize := 0;
        dv := 0;
        TakeWhole(p, dvs);
      }
      mem := p + 8;
    }

    method MallocFromTop(nb: word) returns (mem: int)
      requires Valid({}) && nb % 8 == 0 && MIN_CHUNK_SIZE <= nb < topsize
      modifies this
      ensures Valid({}) && Granted(old(Allocated(heap)), mem, nb) && mem == old(top) + 8 && top == old(top) + nb
      ensures store == old(store) && dv == old(dv) && dvsize == old(dvsize)
    {
      ghost var heap1 := CarveTopStep(heap, store.binned, dv, dvsize, nb);
      var rsize := topsize - nb;
      var p := top;
      var r := p + nb;
      topsize := rsize;
      top := r;
      head := head[r := Head(rsize, false, true)][p := Head(nb, true, true)];
      heap := heap1;
      mem := p + 8;
    }

    /** The next nonempty small bin serves the request, or else the tree bins. */
    method MallocNextSmall(nb: word, idx: nat, smallbits: word) returns (mem: int)
      requires Valid({}) && nb % 8 == 0 && MIN_CHUNK_SIZE <= nb < MIN_LARGE_SIZE && dvsize < nb
      requires idx == Bins.SmallIndex(nb) && smallbits == Bits.Shr(links.smallmap, idx)
      requires !Bits.Has(links.smallmap, idx) && !Bits.Has(links.smallmap, idx + 1)
      modifies this
      ensures Valid({})
      ensures mem != 0 ==>
                Granted(old(Allocated(heap)), mem, nb)
                && Picked(old(store.binned), old(dv), old(dvsize), old(top), old(topsize), mem - 8, nb)
                && LeftOver(old(store.binned), old(dv), old(dvsize), old(top), mem - 8, nb, store.binned, dv, dvsize,
                            top)
      ensures mem == 0 ==> unchanged(this) && NotBinned(store.binned, dvsize, nb)
    {
      hide Tiling.Ok, Placed, Tiling.Allocated, Picked, LeftOver;
      if smallbits != 0 {
        Bits.NextSmallBit(links.smallmap, idx);
        var leftbits := Bits.And(Shl(smallbits, idx), Bits.LeftBits(Bits.Bit(idx)));
        var leastbit := Bits.LeastBit(leftbits);
        var i := Bits.Ctz(leastbit);
        BeyondNext(links.smallmap, idx, i);
        LeastSmall(store, nb, i);
        mem := MallocSplitSmall(nb, i);
      } else if links.treemap != 0 {
        Bits.NoSmallBit(links.smallmap, idx);
        LeastSmall(store, nb, Bins.NSMALLBINS);
        mem := TmallocSmall(nb);
      } else {
        mem := 0;
        EmptyBins(store, nb);
      }
    }

    /** The small-request part of dlmalloc, without dv and top. */
    method MallocSmall(nb: word) returns (mem: int)
      requires Valid({}) && nb % 8 == 0 && MIN_CHUNK_SIZE <= nb < MIN_LARGE_SIZE
      modifies this
      ensures Valid({})
      ensures mem != 0 ==>
                Granted(old(Allocated(heap)), mem, nb)
                && Picked(old(store.binned), old(dv), old(dvsize), old(top), old(topsize), mem - 8, nb)
                && LeftOver(old(store.binned), old(dv), old(dvsize), old(top), mem - 8, nb, store.binned, dv, dvsize,
                            top)
      ensures mem == 0 ==> unchanged(this) && NotBinned(store.binned, dvsize, nb)
    {
      hide Tiling.Ok, Placed, Tiling.Allocated, Picked, LeftOver;
      mem := 0;
      var idx := Bins.SmallIndex(nb);
      var smallbits := Bits.Shr(links.smallmap, idx);
      Bits.TwoSmallBits(links.smallmap, idx);
      if Bits.And(smallbits, 3) != 0 {
        idx := idx + Bits.And(Bits.Not(smallbits), 1);
        MarkedBinInRange(links.smallmap, idx);
        LeastSmall(store, nb, idx);
        mem := MallocFromSmallBin(nb, idx);
      } else if nb > dvsize {
        mem := MallocNextSmall(nb, idx, smallbits);
      } else {
        NoRemainderless(store, nb, idx);
      }
    }

    /** The large-request part of dlmalloc, without dv and top. */
    method MallocLarge(nb: word) returns (mem: int)
      requires Valid({}) && nb % 8 == 0 && nb >= MIN_LARGE_SIZE
      modifies this
      ensures Valid({})
      ensures mem != 0 ==>
                Granted(old(Allocated(heap)), mem, nb)
                && Picked(old(store.binned), old(dv), old(dvsize), old(top), old(topsize), mem - 8, nb)
                && LeftOver(old(store.binned), old(dv), old(dvsize), old(top), mem - 8, nb, store.binned, dv, dvsize,
                            top)
      ensures mem == 0 ==> unchanged(this) && NotBinned(store.binned, dvsize, nb)
    {
      if links.treemap != 0 {
        mem := TmallocLarge(nb);
      } else {
        mem := 0;
        EmptyTrees(store, nb);
      }
    }

    /** What dlmalloc does when the bins do not serve the request: dv, or else the top. */
    method MallocRest(nb: word) returns (mem: int)
      requires Valid({}) && MIN_CHUNK_SIZE <= nb && (nb % 8 == 0 || nb == WORD - 1)
               && NotBinned(store.binned, dvsize, nb)
      modifies this
      ensures Valid({})
      ensures mem != 0 ==>
                Granted(old(Allocated(heap)), mem, nb)
                && Picked(old(store.binned), old(dv), old(dvsize), old(top), old(topsize), mem - 8, nb)
                && LeftOver(old(store.binned), old(dv), old(dvsize), old(top), mem - 8, nb, store.binned, dv, dvsize,
                            top)
      ensures mem == 0 ==>
                unchanged(this) && NothingFits(heap, nb)
    {
      mem := 0;
      SizesFit(heap);
      NotAmongBinned(heap, store.binned, dv, dvsize);
      if nb <= dvsize {
        mem := MallocFromDv(nb);
      } else if nb < topsize {
        mem := MallocFromTop(nb);
      }
    }

    /** dlmalloc. Asking the system for more memory is left out: the result is 0 exactly when the
        request is within 64 bytes of the size of the address space, or no chunk of the segment serves
        it. */
    method Malloc(bytes: word) returns (mem: int)
      requires Valid({})
      modifies this
      ensures Valid({})
      ensures mem != 0 ==>
                && Need(bytes) < WORD && Granted(old(Allocated(heap)), mem, Need(bytes))
                && Picked(old(store.binned), old(dv), old(dvsize), old(top), old(topsize), mem - 8, Need(bytes))
                && LeftOver(old(store.binned), old(dv), old(dvsize), old(top), mem - 8, Need(bytes), store.binned, dv,
                            dvsize, top)
      ensures mem == 0 <==> bytes >= 0xFFFF_FFC0 || NothingFits(old(heap), Need(bytes))
      ensures mem == 0 ==> unchanged(this)
    {
      hide Tiling.Ok, Placed, Tiling.Allocated, Picked, LeftOver, NothingFits;
      mem := 0;
      var nb: word;
      ghost var heap0, binned0, dv0, dvsize0 := heap, store.binned, dv, dvsize;
      if bytes < MAX_REQUEST { RequestSizes(bytes); }
      if bytes <= MAX_SMALL_REQUEST {
        nb := if bytes < MIN_REQUEST then MIN_CHUNK_SIZE else PadRequest(bytes);
        mem := MallocSmall(nb);
      } else if bytes >= MAX_REQUEST {
        nb := WORD - 1;
        TooLarge(heap, store.binned, dv, dvsize);
      } else {
        nb := PadRequest(bytes);
        mem := MallocLarge(nb);
      }
      if mem == 0 {
        mem := MallocRest(nb);
      }
      if mem != 0 { PickedFits(heap0, binned0, dv0, dvsize0, mem - 8, nb); }
    }

    // ---- free

    /** Consolidate backward: a free chunk before p is taken out of its bin, unless it is dv.
        q is where the joined chunk starts. */
    method MergeBack(p: int, size: word) returns (q: int, psize: word)
      requires Valid({}) && p in Allocated(heap) && size == Allocated(heap)[p]
      modifies this`links, this`store
      ensures q == Front(heap, p) && psize == Next(heap, p) - q && Valid(FrontLoose(heap, p, dv, dvsize))
      ensures store.binned == old(store.binned) - {q}
    {
      FrontOf(heap, p);
      SpanFits(heap, p);
      q, psize := p, size;
      if !HeadAt(head, p).pinuse {
        var prevsize := At(prev_foot, p);
        q := p - prevsize;
        psize := psize + prevsize;
        if q != dv {
          UnlinkChunk(q, prevsize);
        }
      }
    }

    /** The chunk behind is in use: set_free_with_pinuse. */
    method FreeBeforeUsed(ghost p: int, q: int, psize: word, next: int)
      requires p in Allocated(heap) && Valid(FrontLoose(heap, p, dv, dvsize)) && InUse(heap, next)
      requires q == Front(heap, p) && next == Next(heap, p) && psize == next - q
      modifies this
      ensures Valid({}) && Allocated(heap) == old(Allocated(heap)) - {p}
      ensures GivenBack(old(heap), p, old(store.binned), old(dv), old(dvsize), store.binned, dv, dvsize, top)
    {
      hide Tiling.Ok, Placed, Tiling.Allocated, Bins.Ok;
      Around(heap, store.binned, dv, dvsize, p, FrontLoose(heap, p, dv, dvsize));
      ghost var heap1 := FreeUsedStep(heap, store.binned, dv, dvsize, p);
      head := head[next := HeadAt(head, next).(pinuse := false)][q := Head(psize, false, true)];
      prev_foot := prev_foot[next := psize];
      heap := heap1;
      if q == dv {
        dvsize := psize;
      } else {
        InsertChunk(q, psize);
      }
    }

    /** The chunk behind is the top. */
    method FreeBeforeTop(ghost p: int, q: int, psize: word)
      requires p in Allocated(heap) && Valid(FrontLoose(heap, p, dv, dvsize)) && Next(heap, p) == heap.top
      requires q == Front(heap, p) && psize == Next(heap, p) - q
      modifies this
      ensures Valid({}) && Allocated(heap) == old(Allocated(heap)) - {p}
      ensures GivenBack(old(heap), p, old(store.binned), old(dv), old(dvsize), store.binned, dv, dvsize, top)
    {
      hide Tiling.Ok, Placed, Tiling.Allocated, Bins.Ok;
      Around(heap, store.binned, dv, dvsize, p, FrontLoose(heap, p, dv, dvsize));
      ghost var heap1 := FreeTopStep(heap, store.binned, dv, dvsize, p);
      var tsize := topsize + psize;
      topsize, top, head := tsize, q, head[q := Head(tsize, false, true)];
      heap := heap1;
      if q == dv {
        dv, dvsize := 0, 0;
      }
    }

    /** The chunk behind is dv: dv grows to the front. */
    method FreeBeforeDv(ghost p: int, q: int, psize: word, next: int)
      requires p in Allocated(heap) && Valid(FrontLoose(heap, p, dv, dvsize)) && next == Next(heap, p) == dv
               && Free(heap, dv)
      requires q == Front(heap, p) && psize == next - q
      modifies this
      ensures Valid({}) && Allocated(heap) == old(Allocated(heap)) - {p}
      ensures GivenBack(old(heap), p, old(store.binned), old(dv), old(dvsize), store.binned, dv, dvsize, top)
    {
      hide Tiling.Ok, Placed, Tiling.Allocated, Bins.Ok;
      Around(heap, store.binned, dv, dvsize, p, FrontLoose(heap, p, dv, dvsize));
      ghost var heap1 := FreeDvStep(heap, store.binned, dv, dvsize, p);
      var dsize := dvsize + psize;
      dvsize, dv := dsize, q;
      head, prev_foot := head[q := Head(dsize, false, true)], prev_foot[q + dsize := dsize];
      heap := heap1;
    }

    /** The chunk behind is free and in a bin: it is taken out and joined. */
    method FreeBeforeBinned(ghost p: int, q: int, psize: word, next: int)
      requires p in Allocated(heap) && Valid(FrontLoose(heap, p, dv, dvsize)) && next == Next(heap, p)
               && next in store.binned
      requires q == Front(heap, p) && psize == next - q
      modifies this
      ensures Valid({}) && Allocated(heap) == old(Allocated(heap)) - {p}
      ensures GivenBack(old(heap), p, old(store.binned), old(dv), old(dvsize), store.binned, dv, dvsize, top)
    {
      hide Tiling.Ok, Placed, Tiling.Allocated, Bins.Ok, GivenBack, FrontLoose;
      ghost var heap0, binned0, dv0, dvsize0 := heap, store.binned, dv, dvsize;
      var nsize := ChunkSize(next);
      NextBinned(heap, store.binned, dv, dvsize, FrontLoose(heap, p, dv, dvsize), next);
      UnlinkChunk(next, nsize, FrontLoose(heap, p, dv, dvsize));
      JoinBoth(p, q, psize, next, nsize);
      GivenBackAlso(heap0, p, binned0, next, dv0, dvsize0, store.binned, dv, dvsize, top);
    }

    method JoinBoth(ghost p: int, q: int, psize: word, next: int, nsize: word)
      requires p in Allocated(heap) && Valid(FrontLoose(heap, p, dv, dvsize) + {next}) && next == Next(heap, p)
               && Free(heap, next)
      requires q == Front(heap, p) && psize == next - q && nsize == Size(heap, next) && (dvsize != 0 ==> next != dv)
      modifies this
      ensures Valid({}) && Allocated(heap) == old(Allocated(heap)) - {p}
      ensures GivenBack(old(heap), p, old(store.binned), old(dv), old(dvsize), store.binned, dv, dvsize, top)
    {
      hide Tiling.Ok, Placed, Tiling.Allocated, Bins.Ok;
      Around(heap, store.binned, dv, dvsize, p, FrontLoose(heap, p, dv, dvsize) + {next});
      ghost var heap1 := FreeBinnedStep(heap, store.binned, dv, dvsize, p);
      var size := psize + nsize;
      head, prev_foot := head[q := Head(size, false, true)], prev_foot[q + size := size];
      heap := heap1;
      if q == dv {
        dvsize := size;
      } else {
        InsertChunk(q, size);
      }
    }

    /** dispose_chunk; dlfree does the same from the place where it knows the size of its chunk. */
    method DisposeChunk(p: int, size: word)
      requires Valid({}) && p in Allocated(heap) && size == Allocated(heap)[p]
      modifies this
      ensures Valid({}) && Allocated(heap) == old(Allocated(heap)) - {p}
      ensures GivenBack(old(heap), p, old(store.binned), old(dv), old(dvsize), store.binned, dv, dvsize, top)
    {
      hide Placed, Bins.Ok, GivenBack, FrontLoose;
      ghost var heap0, binned0, dv0, dvsize0 := heap, store.binned, dv, dvsize;
      var next := p + size;
      FrontOf(heap, p);
      var q, psize := MergeBack(p, size);
      if HeadAt(head, next).cinuse {
        FreeBeforeUsed(p, q, psize, next);
      } else if next == top {
        FreeBeforeTop(p, q, psize);
      } else if next == dv {
        FreeBeforeDv(p, q, psize, next);
      } else {
        NextIsBinned(heap, store.binned, dv, dvsize, p);
        FreeBeforeBinned(p, q, psize, next);
      }
      GivenBackAlso(heap0, p, binned0, q, dv0, dvsize0, store.binned, dv, dvsize, top);
    }

    /** dlfree. Trimming the top back to the system is left out. */
    method FreeMem(mem: int)
      requires Valid({}) && (mem != 0 ==> mem - 8 in Allocated(heap))
      modifies this
      ensures Valid({})
      ensures mem == 0 ==> unchanged(this)
      ensures mem != 0 ==>
                && Allocated(heap) == old(Allocated(heap)) - {mem - 8}
                && GivenBack(old(heap), mem - 8, old(store.binned), old(dv), old(dvsize), store.binned, dv, dvsize, top)
    {
      if mem == 0 { return; }
      DisposeChunk(mem - 8, ChunkSize(mem - 8));
    }

    /** Any run of requests and releases. live is what the callers hold; a Release frees one of
        them. Every pointer in use is its own chunk, at least as large as was asked for it. */
    method Run(ops: seq<Op>) returns (live: seq<int>, asked: seq<int>)
      requires Valid({}) && Allocated(heap) == map[]
      modifies this
      ensures Valid({}) && Holds(heap, live, asked)
      ensures live == [] ==> OneTop(heap, store.binned, dv)
    {
      hide Tiling.Ok, Placed, Bins.Ok, Holds;
      live, asked := [], [];
      NothingHeldYet(heap);
      for k := 0 to |ops|
        invariant Valid({}) && Holds(heap, live, asked)
      {
        label Before:
        match ops[k]
        case Request(bytes) =>
          var mem := Malloc(bytes);
          if mem != 0 {
            HoldsAfterRequest(old@Before(heap), heap, live, asked, mem, bytes);
            live, asked := live + [mem], asked + [bytes];
          }
        case Release(i) =>
          if i < |live| {
            HeldChunk(heap, live, asked, i);
            FreeMem(live[i]);
            HoldsAfterRelease(old@Before(heap), heap, live, asked, i);
            live, asked := Without(live, i), Without(asked, i);
          }
      }
      if live == [] {
        NothingHeld(heap, asked);
        AllReleased(heap, store.binned, dv, dvsize);
      }
    }
  }

  /** Where the released chunk p has gone, joined with the free chunks around it: to the top if that
      is behind it; else to dv if dv is next to it; else to a bin. Nothing else has moved. */
  ghost predicate GivenBack(h: Heap, p: int, binned: map<int, word>, dv: int, dvsize: word, binned': map<int, word>,
                         dv': int, dvsize': word, top': int) {
    var q, n := Front(h, p), Next(h, p);
    var e := if InUse(h, n) then n else Next(h, n);
    var rest := binned - {q, n};
    if n == h.top then top' == q && binned' == rest && (if q == dv then dv' == dvsize' == 0
                                                        else dv' == dv && dvsize' == dvsize)
    else
      && top' == h.top
      && if q == dv || n == dv then binned' == rest && dv' == q && dvsize' == e - q
         else dv' == dv && dvsize' == dvsize && q < e && e - q < WORD && binned' == rest[q := e - q]
  }

  /** Neither the front of p nor what is behind it is in a bin, unless that is behind it and free. */
  lemma Around(h: Heap, binned: map<int, word>, dv: int, dvsize: word, p: int, loose: set<int>)
    requires Tiling.Ok(h) && p in Allocated(h) && Placed(h, binned, dv, dvsize, loose)
    requires FrontLoose(h, p, dv, dvsize) <= loose
    ensures Front(h, p) !in binned && h.top !in binned && (dvsize != 0 ==> dv !in binned && dv != h.top)
    ensures InUse(h, Next(h, p)) ==> Next(h, p) != h.top && Next(h, p) !in binned && Next(h, p) != dv
    ensures 0 < Front(h, p) < Next(h, p) && (dvsize == 0 ==> dv == 0)
    ensures (Next(h, p) in loose || InUse(h, Next(h, p)) || Next(h, p) == h.top
             || (dvsize != 0 && Next(h, p) == dv)) ==>
              binned - {Front(h, p), Next(h, p)} == binned
  {
    FrontOf(h, p);
    SpanFits(h, p);
    assert ChunkOk(h, h.top) && ChunkOk(h, p);
  }

  lemma NextBinned(h: Heap, binned: map<int, word>, dv: int, dvsize: word, loose: set<int>, x: int)
    requires Placed(h, binned, dv, dvsize, loose) && x in binned
    ensures Free(h, x) && Size(h, x) == binned[x] && (dvsize != 0 ==> x != dv)
  {
  }

  /** One of the neighbours has left its bin before. */
  lemma GivenBackAlso(h: Heap, p: int, binned: map<int, word>, x: int, dv: int, dvsize: word,
                      binned': map<int, word>, dv': int, dvsize': word, top': int)
    requires GivenBack(h, p, binned - {x}, dv, dvsize, binned', dv', dvsize', top')
             && (x == Front(h, p) || x == Next(h, p))
    ensures GivenBack(h, p, binned, dv, dvsize, binned', dv', dvsize', top')
  {
    assert binned - {x} - {Front(h, p), Next(h, p)} == binned - {Front(h, p), Next(h, p)};
  }

  datatype Op = Request(bytes: word) | Release(which: nat)

  /** The live pointers are exactly the chunks in use, each once, and each serves its request. */
  ghost predicate Holds(h: Heap, live: seq<int>, asked: seq<int>) {
    && |asked| == |live|
    && (forall i, j :: 0 <= i < j < |live| ==> live[i] != live[j])
    && (forall i :: 0 <= i < |live| ==> HeldAt(h, live[i], asked[i]))
    && (forall x :: x in Allocated(h) ==> x + 8 in live)
  }

  /** A pointer to a chunk in use with room for the request. */
  ghost predicate HeldAt(h: Heap, mem: int, bytes: int) {
    mem != 0 && mem - 8 in Allocated(h) && Allocated(h)[mem - 8] >= bytes + 4
  }

  lemma {:induction false} HoldsAfterRequest(h: Heap, h': Heap, live: seq<int>, asked: seq<int>, mem: int, bytes: word)
    requires Holds(h, live, asked) && Tiling.Ok(h')
    requires mem > 8 && mem - 8 !in Allocated(h) && mem - 8 in Allocated(h')
    requires Allocated(h') == Allocated(h)[mem - 8 := Allocated(h')[mem - 8]]
             && Allocated(h')[mem - 8] >= Need(bytes)
    ensures Holds(h', live + [mem], asked + [bytes])
  {
    forall x | x in Allocated(h') ensures x + 8 in live + [mem] {
      if x != mem - 8 { assert x + 8 in live; }
    }
  }

  function Without<T>(s: seq<T>, i: nat): seq<T>
    requires i < |s|
  {
    s[..i] + s[i + 1..]
  }

  lemma WithoutAt<T>(s: seq<T>, i: nat)
    requires i < |s|
    ensures |Without(s, i)| == |s| - 1
    ensures forall k :: 0 <= k < |s| - 1 ==> Without(s, i)[k] == s[if k < i then k else k + 1]
  {
  }

  lemma {:induction false} HoldsAfterRelease(h: Heap, h': Heap, live: seq<int>, asked: seq<int>, i: nat)
    requires Holds(h, live, asked) && i < |live| && Allocated(h') == Allocated(h) - {live[i] - 8}
    ensures Holds(h', Without(live, i), Without(asked, i))
  {
    WithoutAt(live, i);
    WithoutAt(asked, i);
    forall k | 0 <= k < |live| - 1 ensures HeldAt(h', Without(live, i)[k], Without(asked, i)[k]) {
      var j := if k < i then k else k + 1;
      assert live[j] != live[i] && HeldAt(h, live[j], asked[j]);
    }
    forall x | x in Allocated(h') ensures x + 8 in Without(live, i) { StillHeld(h, live, asked, i, x); }
  }

  lemma {:induction false} StillHeld(h: Heap, live: seq<int>, asked: seq<int>, i: nat, x: int)
    requires Holds(h, live, asked) && i < |live| && x in Allocated(h) && x != live[i] - 8
    ensures x + 8 in Without(live, i)
  {
    WithoutAt(live, i);
    var k :| 0 <= k < |live| && live[k] == x + 8;
    assert Without(live, i)[if k < i then k else k - 1] == x + 8;
  }

  /** Callers' payloads, from mem to the next chunk's size word, never overlap. */
  lemma {:induction false} PayloadsDisjoint(h: Heap, live: seq<int>, asked: seq<int>, i: nat, j: nat)
    requires Tiling.Ok(h) && Holds(h, live, asked) && i < |live| && j < |live| && i != j
    ensures live[i] + asked[i] <= live[j] - 4 || live[j] + asked[j] <= live[i] - 4
    ensures h.base <= live[i] - 8 && live[i] + asked[i] - 4 <= h.top
  {
    var x, y := live[i] - 8, live[j] - 8;
    assert ChunkOk(h, x) && ChunkOk(h, y);
    Disjoint(h, x, h.top);
    if x < y { Disjoint(h, x, y); } else { Disjoint(h, y, x); }
  }

  /** The segment is one top chunk, the bins are empty and there is no dv. */
  ghost predicate OneTop(h: Heap, binned: map<int, word>, dv: int) {
    && h.chunks == {h.base} && h.top == h.base && Size(h, h.top) == h.end - h.base
    && binned == map[] && dv == 0
  }

  lemma NothingHeldYet(h: Heap)
    requires Allocated(h) == map[]
    ensures Holds(h, [], [])
  {
  }

  lemma HeldChunk(h: Heap, live: seq<int>, asked: seq<int>, i: nat)
    requires Holds(h, live, asked) && i < |live|
    ensures |asked| == |live| && live[i] != 0 && live[i] - 8 in Allocated(h)
  {
    assert HeldAt(h, live[i], asked[i]);
  }

  lemma NothingHeld(h: Heap, asked: seq<int>)
    requires Holds(h, [], asked)
    ensures Allocated(h) == map[]
  {
    forall x ensures x !in Allocated(h) {}
  }

  /** Once everything is released, the segment is one top chunk again, with empty bins and no dv. */
  lemma AllReleased(h: Heap, binned: map<int, word>, dv: int, dvsize: word)
    requires Tiling.Ok(h) && Placed(h, binned, dv, dvsize, {}) && Allocated(h) == map[]
    ensures OneTop(h, binned, dv)
  {
    assert ChunkOk(h, h.base);
    forall x | x in h.chunks ensures !InUse(h, x) { assert x in h.chunks && InUse(h, x) ==> x in Allocated(h); }
    assert ChunkOk(h, Next(h, h.base));
    forall x | x in h.chunks ensures x == h.base { assert ChunkOk(h, x); }
    forall x ensures x !in binned {}
  }

  /** The free chunk before p once it left its bin. */
  ghost function FrontLoose(h: Heap, p: int, dv: int, dvsize: word): set<int> {
    var q := Front(h, p);
    if q == p || (dvsize != 0 && q == dv) then {} else {q}
  }

  lemma SpanFits(h: Heap, p: int)
    requires Tiling.Ok(h) && p in Allocated(h)
    ensures 0 <= Next(h, p) - Front(h, p) < WORD
    ensures Front(h, p) != p ==> At(h.foot, p) == Size(h, Front(h, p)) == p - Front(h, p)
    ensures Front(h, p) > 0
  {
    FrontOf(h, p);
    assert ChunkOk(h, h.top);
  }

  /** A free chunk behind p that is neither top nor dv is in a bin; it is not the front. */
  lemma NextIsBinned(h: Heap, binned: map<int, word>, dv: int, dvsize: word, p: int)
    requires Tiling.Ok(h) && p in Allocated(h) && Placed(h, binned, dv, dvsize, FrontLoose(h, p, dv, dvsize))
    requires !InUse(h, Next(h, p)) && Next(h, p) != h.top && Next(h, p) != dv
    ensures Next(h, p) in binned
  {
    FrontOf(h, p);
  }

  lemma FreeUsedStep(h: Heap, binned: map<int, word>, dv: int, dvsize: word, p: int) returns (h': Heap)
    requires Tiling.Ok(h) && p in Allocated(h) && InUse(h, Next(h, p))
    requires Placed(h, binned, dv, dvsize, FrontLoose(h, p, dv, dvsize)) && SizesAgree(h.head, binned)
    ensures var q, n := Front(h, p), Next(h, p);
            var s := Span(q, n);
            && s == n - q && Tiling.Ok(h') && SizesAgree(h'.head, binned) && Free(h', q) && Size(h', q) == s
            && h'.head == h.head[n := HeadAt(h.head, n).(pinuse := false)][q := Head(s, false, true)]
            && h'.foot == h.foot[n := s] && h'.top == h.top && h'.base == h.base && Size(h', h.top) == Size(h, h.top)
            && (if q == dv then Placed(h', binned, dv, s, {}) else Placed(h', binned, dv, dvsize, {q}))
    ensures Allocated(h') == Allocated(h) - {p}
  {
    FrontOf(h, p);
    assert ChunkOk(h, Next(h, p)) && ChunkOk(h, h.top);
    h' := ReleaseBeforeUsed(h, p);
    StillBinned(h, h', binned, p);
  }

  lemma FreeBinnedStep(h: Heap, binned: map<int, word>, dv: int, dvsize: word, p: int) returns (h': Heap)
    requires Tiling.Ok(h) && p in Allocated(h) && Free(h, Next(h, p)) && (dvsize != 0 ==> Next(h, p) != dv)
    requires Placed(h, binned, dv, dvsize, FrontLoose(h, p, dv, dvsize) + {Next(h, p)}) && SizesAgree(h.head, binned)
    ensures var q, e := Front(h, p), Next(h, Next(h, p));
            var s := Span(q, e);
            && s == e - q && Tiling.Ok(h') && SizesAgree(h'.head, binned) && Free(h', q) && Size(h', q) == s
            && h'.head == h.head[q := Head(s, false, true)]
            && h'.foot == h.foot[e := s] && h'.top == h.top && h'.base == h.base && Size(h', h.top) == Size(h, h.top)
            && (if q == dv then Placed(h', binned, dv, s, {}) else Placed(h', binned, dv, dvsize, {q}))
    ensures Allocated(h') == Allocated(h) - {p}
  {
    FrontOf(h, p);
    h' := ReleaseBeforeFree(h, p);
    StillBinned(h, h', binned, p);
  }

  lemma FreeDvStep(h: Heap, binned: map<int, word>, dv: int, dvsize: word, p: int) returns (h': Heap)
    requires Tiling.Ok(h) && p in Allocated(h) && Next(h, p) == dv && Free(h, dv)
    requires Placed(h, binned, dv, dvsize, FrontLoose(h, p, dv, dvsize)) && SizesAgree(h.head, binned)
    ensures var q, e := Front(h, p), Next(h, dv);
            var s := Span(q, e);
            && s == e - q && e == dv + dvsize && Tiling.Ok(h') && SizesAgree(h'.head, binned)
            && h'.head == h.head[q := Head(s, false, true)]
            && h'.foot == h.foot[e := s] && h'.top == h.top && h'.base == h.base && Size(h', h.top) == Size(h, h.top)
            && Placed(h', binned, q, s, {})
    ensures Allocated(h') == Allocated(h) - {p}
  {
    FrontOf(h, p);
    assert ChunkOk(h, dv);
    h' := ReleaseBeforeFree(h, p);
    StillBinned(h, h', binned, p);
  }

  lemma FreeTopStep(h: Heap, binned: map<int, word>, dv: int, dvsize: word, p: int) returns (h': Heap)
    requires Tiling.Ok(h) && p in Allocated(h) && Next(h, p) == h.top
    requires Placed(h, binned, dv, dvsize, FrontLoose(h, p, dv, dvsize)) && SizesAgree(h.head, binned)
    ensures var q := Front(h, p);
            var s := Span(q, h.end);
            && s == h.end - q && s == Size(h, h.top) + (h.top - q) && Tiling.Ok(h') && SizesAgree(h'.head, binned)
            && h'.head == h.head[q := Head(s, false, true)] && h'.foot == h.foot
            && h'.top == q && h'.base == h.base && Size(h', q) == s
            && (if q == dv then Placed(h', binned, 0, 0, {}) else Placed(h', binned, dv, dvsize, {}))
    ensures Allocated(h') == Allocated(h) - {p}
  {
    FrontOf(h, p);
    assert ChunkOk(h, h.top);
    h' := ReleaseBeforeTop(h, p);
    StillBinned(h, h', binned, p);
  }

  const MIN_REQUEST: word := 11
  const MAX_SMALL_REQUEST: word := 244
  const MAX_REQUEST: word := 0xFFFF_FFC0

  /** pad_request(req) */
  function PadRequest(req: word): word
    requires req < MAX_REQUEST
  {
    (req + 11) / 8 * 8
  }

  /** The size of chunk that a request needs: the least multiple of 8 that is at least 16 and leaves
      room for one word beside the payload. */
  function Need(bytes: nat): (nb: nat)
    ensures nb % 8 == 0 && nb >= 16 && nb >= bytes + 4
    ensures forall k: nat :: k % 8 == 0 && k >= 16 && k >= bytes + 4 ==> nb <= k
  {
    if bytes <= 12 then 16
    else
      LeastMultiple(bytes + 4);
      (bytes + 11) / 8 * 8
  }

  lemma LeastMultiple(n: nat)
    ensures (n + 7) / 8 * 8 % 8 == 0 && (n + 7) / 8 * 8 >= n
    ensures forall k: nat :: k % 8 == 0 && k >= n ==> (n + 7) / 8 * 8 <= k
  {
    forall k: nat | k % 8 == 0 && k >= n ensures (n + 7) / 8 * 8 <= k { assert k == 8 * (k / 8); }
  }

  /** No free chunk is as large as this, and the top is not larger. */
  ghost predicate NothingFits(h: Heap, nb: nat) {
    (forall x :: Free(h, x) ==> Size(h, x) < nb) && Size(h, h.top) <= nb
  }

  /** The size that dlmalloc computes is the one that is needed. */
  lemma RequestSizes(bytes: word)
    requires bytes < MAX_REQUEST
    ensures Need(bytes) == if bytes < MIN_REQUEST then MIN_CHUNK_SIZE else PadRequest(bytes)
    ensures bytes <= MAX_SMALL_REQUEST <==> Need(bytes) < MIN_LARGE_SIZE
  {
  }

  /** The chunk that was picked did fit. */
  lemma PickedFits(h: Heap, binned: map<int, word>, dv: int, dvsize: word, p: int, nb: word)
    requires Tiling.Ok(h) && Placed(h, binned, dv, dvsize, {}) && 0 < nb
    requires Picked(binned, dv, dvsize, h.top, Size(h, h.top), p, nb)
    ensures !NothingFits(h, nb)
    ensures nb < WORD - 1
  {
    SizesFit(h);
  }

  lemma MarkedBinInRange(smallmap: word, i: nat)
    ensures Bits.Has(smallmap, i) ==> i < Bins.NSMALLBINS
  {
    Pow2At32();
    if Bits.Has(smallmap, i) { Bits.HasBound(smallmap, 32, i); }
  }

  /** A small chunk that may be used whole for a request. */
  predicate Remainderless(s: word, nb: word) {
    Bins.IsSmall(s) && nb <= s < nb + MIN_CHUNK_SIZE
  }

  /** No binned chunk has a size from nb up to, and without, end. */
  ghost predicate NoneFrom(binned: map<int, word>, nb: word, end: int) {
    forall y {:trigger binned[y]} :: y in binned && nb <= binned[y] ==> end <= binned[y]
  }

  /** The chunk that dlmalloc picks for nb bytes. A binned chunk is a least one among those that
      fit. dv is passed over for a small request only by a chunk without remainder, and for a large
      one only by a better fit. The top is used when nothing else fits. */
  ghost predicate Picked(binned: map<int, word>, dv: int, dvsize: word, top: int, topsize: word, p: int, nb: word) {
    if p in binned then
      && nb <= binned[p] && NoneFrom(binned, nb, binned[p])
      && (nb <= dvsize ==> if nb < MIN_LARGE_SIZE then Remainderless(binned[p], nb) else binned[p] < dvsize)
    else if nb <= dvsize then p == dv && NotBinned(binned, dvsize, nb)
    else p == top && nb < topsize && NoneFrom(binned, nb, WORD)
  }

  /** What becomes of the rest of the chunk p that was picked: a rest that is too small for a chunk
      stays with it; the rest of a binned chunk becomes dv for a small request, and what was dv goes to
      a bin; for a large request it goes to a bin itself; the rest of dv is dv, that of the top the
      top. Nothing else has moved. */
  ghost predicate LeftOver(binned: map<int, word>, dv: int, dvsize: word, top: int, p: int, nb: int,
                           binned': map<int, word>, dv': int, dvsize': word, top': int) {
    if p in binned then
      var rest, others := binned[p] - nb, binned - {p};
      && top' == top
      && if rest < 16 then binned' == others && dv' == dv && dvsize' == dvsize
         else if nb < 256 then
           dv' == p + nb && dvsize' == rest && binned' == (if dvsize == 0 then others else others[dv := dvsize])
         else dv' == dv && dvsize' == dvsize && rest < WORD && binned' == others[p + nb := rest]
    else if nb <= dvsize then
      && top' == top && binned' == binned
      && if dvsize - nb < 16 then dv' == dvsize' == 0 else dv' == dv + nb && dvsize' == dvsize - nb
    else top' == top + nb && binned' == binned && dv' == dv && dvsize' == dvsize
  }

  /** No binned chunk is to be used for nb bytes: dv is, if it is large enough. */
  ghost predicate NotBinned(binned: map<int, word>, dvsize: word, nb: word) {
    if nb > dvsize then NoneFrom(binned, nb, WORD)
    else if nb < MIN_LARGE_SIZE then forall y {:trigger binned[y]} :: y in binned ==> !Remainderless(binned[y], nb)
    else NoneFrom(binned, nb, dvsize)
  }

  /** The sizes of small chunks are marked in the map of the small bins. */
  lemma SmallMarked(s: Bins.Store, y: int)
    requires Bins.Ok(s) && y in s.binned && Bins.IsSmall(s.binned[y])
    ensures s.binned[y] == 8 * Bins.SmallIndex(s.binned[y]) && Bits.Has(s.smallmap, Bins.SmallIndex(s.binned[y]))
  {
    assert Bins.ChunkOk(s, y);
    assert Rings.Good(s.ring, y);
  }

  /** Bin i is the first one marked from that of nb on. */
  lemma LeastSmall(s: Bins.Store, nb: word, i: nat)
    requires Bins.Ok(s) && nb % 8 == 0 && i <= Bins.NSMALLBINS
    requires forall j: nat :: Bins.SmallIndex(nb) <= j < i ==> !Bits.Has(s.smallmap, j)
    ensures NoneFrom(s.binned, nb, 8 * i)
  {
    forall y | y in s.binned && nb <= s.binned[y] ensures 8 * i <= s.binned[y] {
      if Bins.IsSmall(s.binned[y]) { SmallMarked(s, y); }
    }
  }

  lemma NoRemainderless(s: Bins.Store, nb: word, idx: nat)
    requires Bins.Ok(s) && nb % 8 == 0 && idx == Bins.SmallIndex(nb) && !Bits.Has(s.smallmap, idx)
             && !Bits.Has(s.smallmap, idx + 1)
    ensures forall y {:trigger s.binned[y]} :: y in s.binned ==> !Remainderless(s.binned[y], nb)
  {
    forall y | y in s.binned ensures !Remainderless(s.binned[y], nb) {
      if Bins.IsSmall(s.binned[y]) { SmallMarked(s, y); }
    }
  }

  lemma BeyondNext(smallmap: word, idx: nat, i: nat)
    requires idx < i && Bits.Has(smallmap, i) && !Bits.Has(smallmap, idx + 1)
    ensures idx + 2 <= i
  {
  }

  /** No chunk is as large as what stands for a request that is too large. */
  lemma TooLarge(h: Heap, binned: map<int, word>, dv: int, dvsize: word)
    requires Tiling.Ok(h) && Placed(h, binned, dv, dvsize, {})
    ensures NotBinned(binned, dvsize, WORD - 1)
  {
    SizesFit(h);
  }

  /** dv and the top are in no bin. */
  lemma NotAmongBinned(h: Heap, binned: map<int, word>, dv: int, dvsize: word)
    requires Tiling.Ok(h) && Placed(h, binned, dv, dvsize, {})
    ensures h.top !in binned && (dvsize != 0 ==> dv !in binned)
  {
  }

  lemma SizesFit(h: Heap)
    requires Tiling.Ok(h)
    ensures forall x :: x in h.chunks ==> Size(h, x) < WORD - 1 && Size(h, x) % 8 == 0
  {
    assert ChunkOk(h, h.top);
    forall x | x in h.chunks ensures Size(h, x) < WORD - 1 && Size(h, x) % 8 == 0 {
      assert ChunkOk(h, x);
      if x != h.top { assert ChunkOk(h, Next(h, x)); }
    }
  }

  /** No marked tree bin: no large chunk at all. */
  lemma EmptyTrees(s: Bins.Store, nb: word)
    requires Bins.Ok(s) && s.treemap == 0
    ensures forall y :: y in s.binned ==> Bins.IsSmall(s.binned[y])
  {
    forall y | y in s.binned ensures Bins.IsSmall(s.binned[y]) {
      assert Bins.ChunkOk(s, y);
      if !Bins.IsSmall(s.binned[y]) {
        BelowRoot(s.trie, s.ring.owner[y]);
        Bits.HasNone(s.trie.bin[s.ring.owner[y]]);
      }
    }
  }

  /** No marked small bin from that of nb on, and no marked tree bin: nothing fits. */
  lemma EmptyBins(s: Bins.Store, nb: word)
    requires Bins.Ok(s) && s.treemap == 0 && Bits.Shr(s.smallmap, Bins.SmallIndex(nb)) == 0
    ensures forall y :: y in s.binned ==> s.binned[y] < nb
  {
    EmptyTrees(s, nb);
    Bits.NoSmallBit(s.smallmap, Bins.SmallIndex(nb));
    forall y | y in s.binned ensures s.binned[y] < nb {
      assert Bins.ChunkOk(s, y);
      assert Rings.Good(s.ring, y);
      assert !Bits.Has(s.smallmap, Bins.SmallIndex(s.binned[y])) || Bins.SmallIndex(s.binned[y]) < Bins.SmallIndex(nb);
    }
  }

  lemma NothingBetter(s: Bins.Store, nb: word, v: int, dvsize: word)
    requires Bins.Ok(s) && nb >= MIN_LARGE_SIZE
    requires forall y :: y in s.binned && !Bins.IsSmall(s.binned[y]) && s.binned[y] >= nb ==>
               v in s.binned && s.binned[v] <= s.binned[y] && nb <= dvsize <= s.binned[v]
    ensures NotBinned(s.binned, dvsize, nb)
  {
  }

  lemma CarveTopStep(h: Heap, binned: map<int, word>, dv: int, dvsize: word, nb: word) returns (h': Heap)
    requires Tiling.Ok(h) && nb % 8 == 0 && MIN_CHUNK_SIZE <= nb < Size(h, h.top)
    requires Placed(h, binned, dv, dvsize, {}) && SizesAgree(h.head, binned)
    ensures Tiling.Ok(h') && Placed(h', binned, dv, dvsize, {}) && SizesAgree(h'.head, binned)
    ensures h'.top == h.top + nb && h'.base == h.base && Size(h', h'.top) == Size(h, h.top) - nb
    ensures h'.head == h.head[h.top + nb := Head(Size(h, h.top) - nb, false, true)][h.top := Head(nb, true, true)]
    ensures h'.foot == h.foot && Allocated(h') == Allocated(h)[h.top := nb]
    ensures h.top !in Allocated(h) && h.top > 0
  {
    h' := CarveTop(h, nb);
    assert ChunkOk(h, h.top);
    StillBinned(h, h', binned, h.top);
  }

  /** Each free chunk but the loose ones is in a bin or is dv, and in no second place. */
  ghost predicate Placed(h: Heap, binned: map<int, word>, dv: int, dvsize: word, loose: set<int>) {
    && (forall x :: Free(h, x) ==> x in binned || x in loose || (x == dv && dvsize != 0))
    && (forall x :: x in binned ==> Free(h, x) && (dvsize != 0 ==> x != dv) && x !in loose && Size(h, x) == binned[x])
    && (if dvsize == 0 then dv == 0 else Free(h, dv) && Size(h, dv) == dvsize && dv !in loose)
  }

  lemma FreeIsFresh(h: Heap, s: Bins.Store, dv: int, dvsize: word, p: int)
    requires Tiling.Ok(h) && h.base > Bins.SMALLBINS + 8 * Bins.NSMALLBINS && Placed(h, s.binned, dv, dvsize, {p})
             && Free(h, p)
    ensures Bins.Fresh(s, p, Size(h, p)) && p in h.head && (!Bins.IsSmall(Size(h, p)) ==> Size(h, p) >= MIN_LARGE_SIZE)
  {
    assert ChunkOk(h, p);
  }

  lemma DvIsFresh(h: Heap, s: Bins.Store, dv: int, dvsize: word, p: int)
    requires Tiling.Ok(h) && h.base > Bins.SMALLBINS + 8 * Bins.NSMALLBINS && Placed(h, s.binned, dv, dvsize, {p})
             && dvsize != 0
    ensures Bins.Fresh(s, dv, dvsize) && dv in h.head
  {
    assert ChunkOk(h, dv);
  }

  lemma OccupyStep(h: Heap, binned: map<int, word>, dv: int, dvsize: word, p: int) returns (h': Heap)
    requires Tiling.Ok(h) && Free(h, p) && Placed(h, binned, dv, dvsize, {p}) && SizesAgree(h.head, binned)
    ensures Tiling.Ok(h') && Placed(h', binned, dv, dvsize, {}) && SizesAgree(h'.head, binned)
    ensures h'.top == h.top && h'.base == h.base && Size(h', h'.top) == Size(h, h.top)
    ensures h'.head
              == h.head[p := Head(Size(h, p), true, true)][Next(h, p) := HeadAt(h.head, Next(h, p)).(pinuse := true)]
    ensures h'.foot == h.foot && Allocated(h') == Allocated(h)[p := Size(h, p)] && p > 0
  {
    h' := Occupy(h, p);
    assert ChunkOk(h, p);
    StillBinned(h, h', binned, p);
  }

  lemma CarveStep(h: Heap, binned: map<int, word>, dv: int, dvsize: word, p: int, nb: word) returns (h': Heap)
    requires CanCarve(h, p, nb) && Placed(h, binned, dv, dvsize, {p}) && SizesAgree(h.head, binned)
    ensures var r := p + nb;
            && Tiling.Ok(h') && Placed(h', binned, dv, dvsize, {r}) && SizesAgree(h'.head, binned)
            && h'.top == h.top && h'.base == h.base && Size(h', h'.top) == Size(h, h.top)
            && Free(h', r) && Size(h', r) == Size(h, p) - nb
            && h'.head == h.head[p := Head(nb, true, true)][r := Head(Size(h, p) - nb, false, true)]
            && h'.foot == h.foot[Next(h, p) := Size(h, p) - nb]
    ensures Allocated(h') == Allocated(h)[p := nb] && p > 0
  {
    h' := Carve(h, p, nb);
    assert ChunkOk(h, p);
    StillBinned(h, h', binned, p);
  }

  /** Chunks that stay free keep their sizes in the head words. */
  lemma StillBinned(h: Heap, h': Heap, binned: map<int, word>, p: int)
    requires Tiling.Ok(h) && Tiling.Ok(h') && p !in binned && SizesAgree(h.head, binned)
    requires forall x :: x in binned ==> Free(h, x) && Free(h', x) && Size(h', x) == Size(h, x)
    ensures SizesAgree(h'.head, binned)
  {
    forall x | x in binned ensures x in h'.head && h'.head[x].size == binned[x] { assert ChunkOk(h', x); }
  }

  lemma SmallStart(t: Trie, nb: word, treemap: word)
    requires Tries.Ok(t) && Classed(t) && 0 < nb < MIN_LARGE_SIZE && treemap != 0
    requires forall i: nat :: i < NTREEBINS ==> (Bits.Has(treemap, i) <==> t.treebins[i] != 0)
    ensures Bits.LeastBit(treemap) != 0
    ensures var i := Bits.Ctz(Bits.LeastBit(treemap));
            i < NTREEBINS && var r := t.treebins[i];
            var next := if Kid(t, r, 0) != 0 then Kid(t, r, 0) else Kid(t, r, 1);
            && r != 0 && r in t.size && Candidate(t, nb, r, Sub(t.size[r], nb)) && Remaining(t, nb, r, next)
            && (next != 0 ==> next in t.size && NodeOk(t, next) && AllFit(t, nb, next))
    ensures forall v: int :: Remaining(t, nb, v, 0) ==> v != 0
  {
    FirstBin(t, nb, treemap);
    var r := t.treebins[Bits.Ctz(Bits.LeastBit(treemap))];
    LeftmostStep(t, nb, r, r);
    forall v: int | Remaining(t, nb, v, 0) ensures v != 0 { assert NoBetter(t, v, r) || !NoBetter(t, 0, r); }
  }

  /** Equal sizes hang behind one node, so the best node is the best chunk. */
  lemma BestOfAll(s: Bins.Store, nb: word, v: int)
    requires Bins.Ok(s) && Remaining(s.trie, nb, v, 0)
    ensures forall y :: y in s.binned && !Bins.IsSmall(s.binned[y]) && s.binned[y] >= nb ==>
              v != 0 && v in s.trie.size && s.trie.size[v] <= s.binned[y]
  {
    forall y | y in s.binned && !Bins.IsSmall(s.binned[y]) && s.binned[y] >= nb
      ensures v != 0 && v in s.trie.size && s.trie.size[v] <= s.binned[y]
    {
      assert Bins.ChunkOk(s, y);
      assert NoBetter(s.trie, v, s.ring.owner[y]);
    }
  }

  /** The kid of a node below x is below x too. */
  lemma KidBelow(t: Trie, x: int, y: int, bit: nat)
    requires Tries.Ok(t) && x in t.size && y in t.size && NodeOk(t, x) && NodeOk(t, y) && Below(t, x, y)
    requires bit <= 1 && Kid(t, y, bit) != 0
    ensures var c := Kid(t, y, bit);
            c in t.size && NodeOk(t, c) && Below(t, x, c) && t.depth[c] == t.depth[y] + 1 && t.bin[c] == t.bin[y]
  {
    KidsAreNodes(t, y);
    PrefixShorter(t.size[Kid(t, y, bit)], t.size[y], Pos(t, x), Pos(t, y));
  }

  /** A walk for size s starts at the root of its bin, if there is one. */
  lemma StartOfWalk(t: Trie, s: word)
    requires Tries.Ok(t) && Classed(t) && s >= MIN_LARGE_SIZE
    ensures Index(s) < NTREEBINS
    ensures var r := t.treebins[Index(s)];
            r != 0 ==> (r in t.size && NodeOk(t, r) && t.bin[r] == Index(s) && t.depth[r] == 0 && OnPath(t, r, s)
                        && forall y :: y in t.size && t.size[y] == s ==> Below(t, r, y))
  {
    IndexRange(s);
    var r := t.treebins[Index(s)];
    assert RootOk(t, Index(s));
    if r != 0 {
      assert NodeOk(t, r);
      SameIndexPrefix(s, t.size[r]);
      forall y | y in t.size && t.size[y] == s ensures Below(t, r, y) { BelowRoot(t, y); }
    }
  }

  lemma StartOfFit(t: Trie, nb: word)
    requires Tries.Ok(t) && Classed(t) && nb >= MIN_LARGE_SIZE
    ensures Index(nb) < NTREEBINS
    ensures var r := t.treebins[Index(nb)];
            && Covered(t, nb, 0, r, 0)
            && (r != 0 ==> r in t.size && NodeOk(t, r) && t.bin[r] == Index(nb) && t.depth[r] == 0 && OnPath(t, r, nb))
  {
    StartOfWalk(t, nb);
    forall y | y in t.size && InBin(t, y, Index(nb)) ensures In(t, t.treebins[Index(nb)], y) { BelowRoot(t, y); }
  }

  /** The state of the walk of tmalloc_large. */
  ghost predicate Walking(t: Trie, nb: word, v: int, rsize: word, cur: int, rst: int, sizebits: word) {
    && cur in t.size && NodeOk(t, cur) && t.bin[cur] == Index(nb)
    && OnPath(t, cur, nb) && sizebits == Shl(nb, Pos(t, cur))
    && Candidate(t, nb, v, rsize) && (v != 0 ==> NodeOk(t, v) && t.bin[v] == Index(nb))
    && Covered(t, nb, v, cur, rst) && Aside(t, nb, cur, rst)
  }

  /** Taking the current node when it fits better leaves at most as much to look for, and an
      exact fit leaves nothing. */
  lemma Improve(t: Trie, nb: word, v: int, rsize: word, cur: int, rst: int, sizebits: word)
    requires nb > 0 && Walking(t, nb, v, rsize, cur, rst, sizebits)
    ensures var trem := Sub(t.size[cur], nb);
            var v' := if trem < rsize then cur else v;
            && Walking(t, nb, v', if trem < rsize then trem else rsize, cur, rst, sizebits)
            && (t.size[cur] >= nb ==> NoBetter(t, v', cur))
            && (trem < rsize && trem == 0 ==> Covered(t, nb, v', 0, cur))
  {
    TrialRemainder(t, nb, v, rsize, cur);
  }

  lemma WalkOn(t: Trie, nb: word, v: int, rsize: word, cur: int, rst: int, sizebits: word)
    requires Tries.Ok(t) && Classed(t) && Walking(t, nb, v, rsize, cur, rst, sizebits)
    requires t.size[cur] >= nb ==> NoBetter(t, v, cur)
    ensures var rt, next := Kid(t, cur, 1), Kid(t, cur, TopBit(sizebits));
            var rst' := if rt != 0 && rt != next then rt else rst;
            if next == 0 then Covered(t, nb, v, 0, rst') && Aside(t, nb, 0, rst')
            else
              && Walking(t, nb, v, rsize, next, rst', Shl1(sizebits))
              && Pos(t, cur) < Pos(t, next) <= 32
  {
    WalkStep(t, nb, v, cur, rst, TopBit(sizebits));
  }

  /** A step of the walk goes to the child that the next bit of s picks. */
  lemma StepOfWalk(t: Trie, x: int, s: word)
    requires Tries.Ok(t) && x in t.size && NodeOk(t, x) && OnPath(t, x, s)
    requires t.size[x] != s && forall y :: y in t.size && t.size[y] == s ==> Below(t, x, y)
    ensures Slot(t, x, s) <= 1
    ensures var c := Kid(t, x, Slot(t, x, s));
            c != 0 ==> (c in t.size && NodeOk(t, c) && t.bin[c] == t.bin[x] && t.depth[c] == t.depth[x] + 1
                        && OnPath(t, c, s) && forall y :: y in t.size && t.size[y] == s ==> Below(t, c, y))
  {
    BitRange(s, Pos(t, x));
    var c := Kid(t, x, Slot(t, x, s));
    KidsAreNodes(t, x);
    if c != 0 {
      forall y | y in t.size && t.size[y] == s ensures Below(t, c, y) { Descend(t, x, y); }
    }
  }
}
