/** The free chunks of the user heap in their bins: 32 lists of one small size each, and 32
    tries of larger sizes with equal sizes chained behind one node. This is what the file's
    own checkers (do_check_smallbin, do_check_treebin, bin_find) look for. */
module Bins {
  import opened Words
  import opened Memory
  import opened TreeIndex
  import Bits
  import Rings
  import opened Tries

  const NSMALLBINS: nat := 32
  /** Where the static state keeps its small bins; every chunk lies above it. */
  const SMALLBINS := 0x8000_0100

  /** smallbin_at(M, i), an address that is used as if a chunk were there. */
  function SmallbinAt(i: nat): int {
    SMALLBINS + 8 * i
  }

  function SmallIndex(s: nat): nat {
    s / 8
  }

  predicate IsSmall(s: nat) {
    s / 8 < NSMALLBINS
  }

  datatype Store = Store(binned: map<int, word>, ring: Rings.Ring, trie: Trie, smallmap: word, treemap: word)

  /** The links and the two binmaps as they stand in memory. */
  datatype Links = Links(fd: map<int, int>, bk: map<int, int>, child0: map<int, int>, child1: map<int, int>,
                         parent: map<int, Parent>, index: map<int, nat>,
                         treebins: seq<int>, smallmap: word, treemap: word)

  ghost function LinksOf(s: Store): Links {
    Links(s.ring.fd, s.ring.bk, s.trie.child0, s.trie.child1, s.trie.parent, s.trie.bin, s.trie.treebins, s.smallmap,
          s.treemap)
  }

  function ParentAt(parent: map<int, Parent>, x: int): Parent {
    if x in parent then parent[x] else NoParent
  }

  /** A chunk hanging behind the tree node of its size has no place of its own in the trie. */
  ghost predicate Unplaced(t: Trie, x: int) {
    ParentAt(t.parent, x) == NoParent && At(t.child0, x) == 0 && At(t.child1, x) == 0
  }

  /** Exactly one place for each binned chunk. */
  ghost predicate ChunkOk(s: Store, x: int) {
    x in s.binned ==>
      var size, r, t := s.binned[x], s.ring, s.trie;
      && x > SMALLBINS + 8 * NSMALLBINS && size >= 16 && size % 8 == 0
      && x in r.owner
      && (if IsSmall(size) then r.owner[x] == SmallbinAt(SmallIndex(size)) && x !in t.size
          else
            && (x in t.size <==> r.owner[x] == x)
            && r.owner[x] in t.size && t.size[r.owner[x]] == size
            && x in t.bin && t.bin[x] == Index(size)
            && (x !in t.size ==> Unplaced(t, x)))
  }

  ghost predicate MapsOk(s: Store) {
    && |s.trie.treebins| == NTREEBINS
    && (forall i: nat :: i < NTREEBINS ==> (Bits.Has(s.treemap, i) <==> s.trie.treebins[i] != 0))
    && (forall i: nat :: i < NSMALLBINS ==> (Bits.Has(s.smallmap, i) <==> SmallbinAt(i) in s.ring.owner))
  }

  ghost predicate HeaderOk(s: Store, i: nat) {
    i < NSMALLBINS && SmallbinAt(i) in s.ring.owner ==>
      Rings.Owns(s.ring, SmallbinAt(i)) && At(s.ring.fd, SmallbinAt(i)) != SmallbinAt(i)
  }

  /** The lists hold nothing but binned chunks and the headers of marked small bins. */
  ghost predicate Member(s: Store, x: int) {
    x in s.ring.owner ==>
      x in s.binned || exists i: nat {:trigger SmallbinAt(i)} :: i < NSMALLBINS && x == SmallbinAt(i)
  }

  ghost predicate NodesBinned(s: Store) {
    forall x :: x in s.trie.size ==> x in s.binned && s.binned[x] == s.trie.size[x] && !IsSmall(s.binned[x])
  }

  ghost predicate Ok(s: Store) {
    && Rings.Ok(s.ring) && Tries.Ok(s.trie) && Classed(s.trie)
    && (forall x {:trigger ChunkOk(s, x)} :: ChunkOk(s, x))
    && (forall x {:trigger Member(s, x)} :: Member(s, x))
    && (forall i: nat {:trigger HeaderOk(s, i)} :: HeaderOk(s, i))
    && MapsOk(s) && NodesBinned(s)
  }

  /** A chunk that may go into a bin. */
  ghost predicate Fresh(s: Store, x: int, size: word) {
    x !in s.binned && x > SMALLBINS + 8 * NSMALLBINS && size >= 16 && size % 8 == 0
  }

  lemma FreshIsUnlinked(s: Store, x: int, size: word)
    requires Ok(s) && Fresh(s, x, size)
    ensures x !in s.ring.owner && x !in s.trie.size
  {
    assert Member(s, x);
  }

  // ---- small bins

  /** insert_small_chunk */
  ghost function InsertSmall(s: Store, x: int, size: word): Store
    requires IsSmall(size)
  {
    var i := SmallIndex(size);
    var h := SmallbinAt(i);
    var r := if Bits.Has(s.smallmap, i) then s.ring else Rings.Alone(s.ring, h);
    s.(binned := s.binned[x := size], ring := Rings.InsertAfter(r, h, x),
       smallmap := if Bits.Has(s.smallmap, i) then s.smallmap else Bits.With(s.smallmap, i))
  }

  lemma InsertSmallOk(s: Store, x: int, size: word)
    requires Ok(s) && Fresh(s, x, size) && IsSmall(size)
    ensures Ok(InsertSmall(s, x, size))
  {
    var s' := InsertSmall(s, x, size);
    var i := SmallIndex(size);
    var h := SmallbinAt(i);
    FreshIsUnlinked(s, x, size);
    assert HeaderOk(s, i);
    var r := if Bits.Has(s.smallmap, i) then s.ring else Rings.Alone(s.ring, h);
    if !Bits.Has(s.smallmap, i) { Rings.AloneOk(s.ring, h); }
    Rings.InsertAfterOk(r, h, x);
    forall y ensures ChunkOk(s', y) { assert ChunkOk(s, y); }
    forall y ensures Member(s', y) { assert Member(s, y); }
    forall j: nat ensures HeaderOk(s', j) { assert HeaderOk(s, j); }
  }

  /** What insert_small_chunk writes, and that it keeps the bins well formed. */
  lemma InsertSmallStep(s: Store, x: int, size: word) returns (s': Store)
    requires Ok(s) && Fresh(s, x, size) && IsSmall(size)
    ensures Ok(s') && s'.binned == s.binned[x := size]
    ensures var l := LinksOf(s);
            var i := SmallIndex(size);
            var b := SmallbinAt(i);
            var f := if Bits.Has(s.smallmap, i) then At(l.fd, b) else b;
            LinksOf(s') == l.(fd := l.fd[b := x][x := f], bk := l.bk[f := x][x := b],
                              smallmap := if Bits.Has(s.smallmap, i) then l.smallmap else Bits.With(l.smallmap, i))
  {
    InsertSmallOk(s, x, size);
    s' := InsertSmall(s, x, size);
    var i := SmallIndex(size);
    if !Bits.Has(s.smallmap, i) {
      var b := SmallbinAt(i);
      assert s'.ring.fd == s.ring.fd[b := x][x := b];
      assert s'.ring.bk == s.ring.bk[b := x][x := b];
    }
  }

  /** unlink_small_chunk */
  ghost function RemoveSmall(s: Store, x: int): Store
    requires x in s.binned && IsSmall(s.binned[x]) && x in s.ring.owner
  {
    var i := SmallIndex(s.binned[x]);
    if At(s.ring.fd, x) == At(s.ring.bk, x) then
      s.(binned := s.binned - {x}, ring := Rings.DropPair(s.ring, x), smallmap := Bits.Without(s.smallmap, i))
    else
      s.(binned := s.binned - {x}, ring := Rings.Remove(s.ring, x))
  }

  lemma RemoveSmallOk(s: Store, x: int)
    requires Ok(s) && x in s.binned && IsSmall(s.binned[x]) && ChunkOk(s, x)
    ensures Ok(RemoveSmall(s, x))
  {
    var s' := RemoveSmall(s, x);
    assert HeaderOk(s, SmallIndex(s.binned[x]));
    assert Rings.Good(s.ring, x);
    if At(s.ring.fd, x) == At(s.ring.bk, x) {
      Rings.DropPairOk(s.ring, x);
      OnlyInSmallBin(s, x);
    } else {
      Rings.RemoveOk(s.ring, x);
    }
    forall y ensures ChunkOk(s', y) { assert ChunkOk(s, y); }
    forall y ensures Member(s', y) { assert Member(s, y); }
    forall j: nat ensures HeaderOk(s', j) { assert HeaderOk(s, j); }
  }

  /** Both neighbours the same: x is the only chunk of its small bin. */
  lemma OnlyInSmallBin(s: Store, x: int)
    requires Ok(s) && x in s.binned && IsSmall(s.binned[x]) && ChunkOk(s, x)
    requires At(s.ring.fd, x) == At(s.ring.bk, x)
    ensures forall y :: y in s.ring.owner && s.ring.owner[y] == s.ring.owner[x] ==> y == x || y == s.ring.owner[x]
  {
    var h := s.ring.owner[x];
    assert Rings.Good(s.ring, x);
    assert HeaderOk(s, SmallIndex(s.binned[x]));
    Rings.SameNeighbours(s.ring, x);
    Rings.RemoveOk(s.ring, x);
    var r := Rings.Remove(s.ring, x);
    forall y | y in s.ring.owner && s.ring.owner[y] == h && y != x ensures y == h {
      Rings.OnlyOwner(r, h, y);
    }
  }

  // ---- tree bins

  /** The fields that insert_large_chunk sets for a chunk chained behind a node. */
  ghost function Unplace(t: Trie, x: int, i: nat): Trie {
    t.(bin := t.bin[x := i], parent := t.parent[x := NoParent], child0 := t.child0[x := 0], child1 := t.child1[x := 0])
  }

  lemma UnplaceEffect(t: Trie, x: int, i: nat)
    requires x !in t.size
    ensures var t' := Unplace(t, x, i);
            && (forall y :: y in t.size && IsNode(t, y) ==> Same(t, t', y) && t'.parent[y] == t.parent[y])
            && (forall y, bit :: y in t.size && 0 <= bit <= 1 ==> Kid(t', y, bit) == Kid(t, y, bit))
  {
  }

  lemma UnplaceOk(t: Trie, x: int, i: nat)
    requires Tries.Ok(t) && Classed(t) && x !in t.size
    ensures Tries.Ok(Unplace(t, x, i)) && Classed(Unplace(t, x, i))
  {
    var t' := Unplace(t, x, i);
    UnplaceEffect(t, x, i);
    forall y ensures NodeOk(t', y) {
      if y in t.size {
        KidsAreNodes(t, y);
        if t.parent[y].TreeNode? { assert NodeOk(t, t.parent[y].node); }
        Unaffected(t, t', y);
      }
    }
    forall j: nat | j < NTREEBINS ensures RootOk(t', j) { assert RootOk(t, j); }
  }

  /** insert_large_chunk, third case: behind the node of the same size. */
  ghost function Chain(s: Store, node: int, x: int, size: word, i: nat): Store {
    s.(binned := s.binned[x := size], ring := Rings.InsertAfter(s.ring, node, x), trie := Unplace(s.trie, x, i))
  }

  lemma ChainOk(s: Store, node: int, x: int, size: word, i: nat)
    requires Ok(s) && Fresh(s, x, size) && !IsSmall(size) && i == Index(size)
    requires node in s.trie.size && s.trie.size[node] == size
    ensures Ok(Chain(s, node, x, size, i))
  {
    var s' := Chain(s, node, x, size, i);
    FreshIsUnlinked(s, x, size);
    assert ChunkOk(s, node);
    UnplaceOk(s.trie, x, i);
    Rings.InsertAfterOk(s.ring, node, x);
    forall y ensures ChunkOk(s', y) { assert ChunkOk(s, y); }
    forall y ensures Member(s', y) { assert Member(s, y); }
    forall j: nat ensures HeaderOk(s', j) { assert HeaderOk(s, j); }
  }

  /** insert_large_chunk, first case: an empty bin. */
  ghost function Plant(s: Store, x: int, size: word, i: nat): Store
    requires i < |s.trie.treebins| && i < 32
  {
    s.(binned := s.binned[x := size], ring := Rings.Alone(s.ring, x), trie := AddRoot(s.trie, x, size, i),
       treemap := Bits.With(s.treemap, i))
  }

  lemma PlantOk(s: Store, x: int, size: word, i: nat)
    requires Ok(s) && Fresh(s, x, size) && !IsSmall(size) && i == Index(size) && i < NTREEBINS
    requires s.trie.treebins[i] == 0
    ensures Ok(Plant(s, x, size, i))
  {
    var s' := Plant(s, x, size, i);
    FreshIsUnlinked(s, x, size);
    forall y | y in s.trie.size ensures s.trie.size[y] != size {
      if s.trie.size[y] == size { BelowRoot(s.trie, y); }
    }
    AddRootOk(s.trie, x, size, i);
    Rings.AloneOk(s.ring, x);
    forall y ensures ChunkOk(s', y) { assert ChunkOk(s, y); }
    forall y ensures Member(s', y) { assert Member(s, y); }
    forall j: nat ensures HeaderOk(s', j) { assert HeaderOk(s, j); }
  }

  /** insert_large_chunk, second case: a free place below the node p. */
  ghost function Graft(s: Store, p: int, x: int, size: word): Store
    requires IsNode(s.trie, p)
  {
    s.(binned := s.binned[x := size], ring := Rings.Alone(s.ring, x), trie := AddChild(s.trie, p, x, size))
  }

  lemma GraftOk(s: Store, p: int, x: int, size: word)
    requires Ok(s) && Fresh(s, x, size) && !IsSmall(size)
    requires p in s.trie.size && NodeOk(s.trie, p) && s.trie.bin[p] == Index(size)
    requires OnPath(s.trie, p, size) && size != s.trie.size[p] && Kid(s.trie, p, Slot(s.trie, p, size)) == 0
    requires forall y :: y in s.trie.size && s.trie.size[y] == size ==> Below(s.trie, p, y)
    ensures Ok(Graft(s, p, x, size))
  {
    var s' := Graft(s, p, x, size);
    FreshIsUnlinked(s, x, size);
    AddChildOk(s.trie, p, x, size);
    Rings.AloneOk(s.ring, x);
    forall y ensures ChunkOk(s', y) { assert ChunkOk(s, y); }
    forall y ensures Member(s', y) { assert Member(s, y); }
    forall j: nat ensures HeaderOk(s', j) { assert HeaderOk(s, j); }
  }

  /** unlink_large_chunk of a chunk that is chained behind a node. */
  ghost function Unchain(s: Store, x: int): Store
    requires x in s.ring.owner
  {
    s.(binned := s.binned - {x}, ring := Rings.Remove(s.ring, x))
  }

  lemma UnchainOk(s: Store, x: int)
    requires Ok(s) && x in s.binned && ChunkOk(s, x) && !IsSmall(s.binned[x]) && x !in s.trie.size
    ensures Ok(Unchain(s, x))
  {
    var s' := Unchain(s, x);
    Rings.RemoveOk(s.ring, x);
    assert Rings.Good(s.ring, x);
    assert ChunkOk(s, s.ring.owner[x]);
    forall y ensures ChunkOk(s', y) { assert ChunkOk(s, y); }
    forall y ensures Member(s', y) { assert Member(s, y); }
    forall j: nat ensures HeaderOk(s', j) { assert HeaderOk(s, j); }
  }

  /** unlink_large_chunk of a node with others behind it: the last of them takes its place. */
  ghost function PromoteNode(s: Store, x: int): Store
    requires x in s.binned && x in s.trie.parent && x in s.trie.depth && x in s.trie.bin
    requires s.trie.parent[x].BinHeader? ==> s.trie.parent[x].bin < |s.trie.treebins|
  {
    s.(binned := s.binned - {x}, ring := Rings.Promote(s.ring, x),
       trie := Replace(s.trie, x, At(s.ring.bk, x), s.binned[x]))
  }

  lemma RingOfNode(s: Store, x: int, b: int)
    requires Ok(s) && x in s.trie.size && b in s.ring.owner && s.ring.owner[b] == x
    ensures b in s.binned && ChunkOk(s, b) && s.binned[b] == s.trie.size[x]
  {
    assert Member(s, b) && ChunkOk(s, b) && ChunkOk(s, x);
    assert forall i: nat {:trigger SmallbinAt(i)} :: i < NSMALLBINS && b == SmallbinAt(i) ==> !HeaderOk(s, i);
  }

  ghost predicate CanPromote(s: Store, x: int) {
    && Ok(s) && x in s.binned && ChunkOk(s, x) && !IsSmall(s.binned[x])
    && x in s.trie.size && NodeOk(s.trie, x) && At(s.ring.bk, x) != x
  }

  lemma PromoteNodeOk(s: Store, x: int)
    requires CanPromote(s, x)
    ensures Ok(PromoteNode(s, x))
  {
    var s' := PromoteNode(s, x);
    var b := At(s.ring.bk, x);
    Rings.PromoteOk(s.ring, x);
    assert Rings.Good(s.ring, x);
    assert Rings.Good(s.ring, b);
    RingOfNode(s, x, b);
    ReplaceOk(s.trie, x, b, s.binned[x]);
    forall y ensures ChunkOk(s', y) { PromoteNodeChunk(s, x, y); }
    forall y ensures Member(s', y) { assert Member(s, y); }
    forall j: nat ensures HeaderOk(s', j) { PromoteNodeHeader(s, x, j); }
    PromoteNodeMaps(s, x);
  }

  lemma PromoteNodeMaps(s: Store, x: int)
    requires CanPromote(s, x)
    ensures MapsOk(PromoteNode(s, x)) && Classed(PromoteNode(s, x).trie) && NodesBinned(PromoteNode(s, x))
  {
    var b := At(s.ring.bk, x);
    assert Rings.Good(s.ring, x);
    assert Rings.Good(s.ring, b);
    RingOfNode(s, x, b);
    ReplaceLinks(s.trie, x, b, s.binned[x]);
    ReplaceParents(s.trie, x, b, s.binned[x]);
    forall i: nat | i < NSMALLBINS ensures SmallbinAt(i) != x {}
  }

  lemma PromoteNodeHeader(s: Store, x: int, j: nat)
    requires CanPromote(s, x)
    ensures HeaderOk(PromoteNode(s, x), j)
  {
    assert HeaderOk(s, j);
    assert Rings.Good(s.ring, x);
    assert Rings.Good(s.ring, At(s.ring.bk, x));
    RingOfNode(s, x, At(s.ring.bk, x));
  }

  /** Chunks outside the trie keep what their fields hold. */
  lemma ReplaceOthers(t: Trie, x: int, r: int, s: word, y: int)
    requires Tries.Ok(t) && CanReplace(t, x, r, s) && y !in t.size && y != r && y != 0
    ensures var t' := Replace(t, x, r, s);
            ParentAt(t'.parent, y) == ParentAt(t.parent, y) && At(t'.child0, y) == At(t.child0, y)
            && At(t'.child1, y) == At(t.child1, y)
  {
    hide Tries.OnPath, Tries.RootOk, Tries.ParentOk;
    KidsAreNodes(t, x);
    RelinkOthers(t, x, r, y);
  }

  lemma RelinkOthers(t: Trie, x: int, r: int, y: int)
    requires Tries.Ok(t) && x in t.size && NodeOk(t, x) && r !in t.size && y !in t.size && y != r
    ensures var u := Relink(t, x, r);
            && At(u.child0, y) == At(t.child0, y) && At(u.child1, y) == At(t.child1, y)
            && At(u.child0, x) == At(t.child0, x) && At(u.child1, x) == At(t.child1, x)
  {
    hide Tries.OnPath, Tries.RootOk;
    ReplaceKeepsKids(t, x, r);
    if t.parent[x].TreeNode? { assert NodeOk(t, t.parent[x].node); }
  }

  lemma PromoteNodeChunk(s: Store, x: int, y: int)
    requires CanPromote(s, x)
    ensures ChunkOk(PromoteNode(s, x), y)
  {
    var b := At(s.ring.bk, x);
    assert Rings.Good(s.ring, x);
    assert Rings.Good(s.ring, b);
    RingOfNode(s, x, b);
    assert ChunkOk(s, y);
    if y in s.binned && y != x && y != b {
      ReplaceParents(s.trie, x, b, s.binned[x]);
      if y !in s.trie.size { ReplaceOthers(s.trie, x, b, s.binned[x], y); }
      assert Rings.Good(s.ring, y);
    }
  }

  /** unlink_large_chunk of a leaf with nothing behind it. */
  ghost function Uproot(s: Store, x: int): Store
    requires x in s.trie.parent && (s.trie.parent[x].BinHeader? ==> s.trie.parent[x].bin < |s.trie.treebins|)
  {
    var p := s.trie.parent[x];
    s.(binned := s.binned - {x}, ring := Rings.Drop(s.ring, x), trie := RemoveLeaf(s.trie, x),
       treemap := if p.BinHeader? && p.bin < 32 then Bits.Without(s.treemap, p.bin) else s.treemap)
  }

  /** A tree node with no other chunk of its size behind it. */
  ghost predicate LoneNode(s: Store, x: int) {
    && Ok(s) && x in s.binned && ChunkOk(s, x) && !IsSmall(s.binned[x])
    && x in s.trie.size && NodeOk(s.trie, x) && At(s.ring.bk, x) == x
  }

  lemma LoneNodeAlone(s: Store, x: int, y: int)
    requires LoneNode(s, x) && y in s.ring.owner && s.ring.owner[y] == x
    ensures y == x
  {
    Rings.OnlyOwner(s.ring, x, y);
  }

  lemma UprootOk(s: Store, x: int)
    requires LoneNode(s, x) && Kid(s.trie, x, 0) == 0 && Kid(s.trie, x, 1) == 0
    ensures Ok(Uproot(s, x))
  {
    var s' := Uproot(s, x);
    Rings.DropOk(s.ring, x);
    assert Rings.Good(s.ring, x);
    RemoveLeafOk(s.trie, x);
    RelinkEffect(s.trie, x, 0);
    forall y ensures ChunkOk(s', y) { UprootChunk(s, x, y); }
    forall y ensures Member(s', y) { assert Member(s, y); }
    forall j: nat ensures HeaderOk(s', j) { assert HeaderOk(s, j); }
    forall i: nat | i < NTREEBINS && s.trie.treebins[i] == x
      ensures s.trie.parent[x] == BinHeader(i) { assert RootOk(s.trie, i); }
    forall i: nat | i < NTREEBINS && s.trie.parent[x] == BinHeader(i) ensures s.trie.treebins[i] == x { }
  }

  lemma UprootChunk(s: Store, x: int, y: int)
    requires LoneNode(s, x) && Kid(s.trie, x, 0) == 0 && Kid(s.trie, x, 1) == 0
    ensures ChunkOk(Uproot(s, x), y)
  {
    assert ChunkOk(s, y);
    if y in s.binned && y != x {
      if s.ring.owner[y] == x { LoneNodeAlone(s, x, y); }
      assert Rings.Good(s.ring, y);
      if s.trie.parent[x].TreeNode? { assert NodeOk(s.trie, s.trie.parent[x].node); }
    }
  }

  /** unlink_large_chunk of a node with kids and nothing behind it: the leaf r below it is cut
      off and takes its place. */
  ghost function MoveLeaf(s: Store, x: int, r: int): Store
    requires r in s.trie.parent && (s.trie.parent[r].BinHeader? ==> s.trie.parent[r].bin < |s.trie.treebins|)
    requires x in s.trie.parent && x in s.trie.depth && x in s.trie.bin
    requires s.trie.parent[x].BinHeader? ==> s.trie.parent[x].bin < |s.trie.treebins|
    requires r in s.trie.size
  {
    s.(binned := s.binned - {x}, ring := Rings.Drop(s.ring, x),
       trie := Replace(RemoveLeaf(s.trie, r), x, r, s.trie.size[r]))
  }

  /** r is a leaf in the subtree of x. */
  ghost predicate LeafBelow(s: Store, x: int, r: int) {
    && LoneNode(s, x) && r in s.trie.size && r != x && NodeOk(s.trie, r)
    && Below(s.trie, x, r) && Kid(s.trie, r, 0) == 0 && Kid(s.trie, r, 1) == 0
  }

  lemma LeafCanReplace(s: Store, x: int, r: int)
    requires LeafBelow(s, x, r)
    ensures var t1 := RemoveLeaf(s.trie, r);
            Tries.Ok(t1) && CanReplace(t1, x, r, s.trie.size[r]) && t1.parent == s.trie.parent
            && t1.size == s.trie.size - {r}
            && t1.bin == s.trie.bin
    ensures forall i: nat :: i < NTREEBINS ==> RemoveLeaf(s.trie, r).treebins[i] == s.trie.treebins[i]
  {
    RemoveLeafOk(s.trie, r);
    RelinkEffect(s.trie, r, 0);
    var t1 := RemoveLeaf(s.trie, r);
    assert NodeOk(t1, x);
    KidsAreNodes(s.trie, r);
    assert Kid(Relink(s.trie, r, 0), r, 0) == 0 && Kid(Relink(s.trie, r, 0), r, 1) == 0;
    forall i: nat | i < NTREEBINS ensures s.trie.treebins[i] != r {
      assert RootOk(s.trie, i);
    }
  }

  lemma MoveLeafOk(s: Store, x: int, r: int)
    requires LeafBelow(s, x, r)
    ensures Ok(MoveLeaf(s, x, r))
  {
    var s' := MoveLeaf(s, x, r);
    var t1 := RemoveLeaf(s.trie, r);
    LeafCanReplace(s, x, r);
    ReplaceOk(t1, x, r, s.trie.size[r]);
    Rings.DropOk(s.ring, x);
    forall y ensures ChunkOk(s', y) { MoveLeafChunk(s, x, r, y); }
    forall y ensures Member(s', y) { assert Member(s, y); }
    forall j: nat ensures HeaderOk(s', j) { assert HeaderOk(s, j); }
    MoveLeafMaps(s, x, r);
  }

  lemma MoveLeafMaps(s: Store, x: int, r: int)
    requires LeafBelow(s, x, r)
    ensures MapsOk(MoveLeaf(s, x, r)) && Classed(MoveLeaf(s, x, r).trie) && NodesBinned(MoveLeaf(s, x, r))
  {
    LeafCanReplace(s, x, r);
    var t1 := RemoveLeaf(s.trie, r);
    ReplaceLinks(t1, x, r, s.trie.size[r]);
    MoveLeafClassed(s, x, r);
    MoveLeafNodes(s, x, r);
  }

  lemma MoveLeafClassed(s: Store, x: int, r: int)
    requires LeafBelow(s, x, r)
    ensures Classed(MoveLeaf(s, x, r).trie)
  {
    hide Tries.OnPath, Tries.KidOk, Tries.RootOk, Tries.Reparent;
    LeafCanReplace(s, x, r);
    ReplaceParents(RemoveLeaf(s.trie, r), x, r, s.trie.size[r]);
  }

  lemma MoveLeafNodes(s: Store, x: int, r: int)
    requires LeafBelow(s, x, r)
    ensures NodesBinned(MoveLeaf(s, x, r))
  {
    hide Tries.OnPath, Tries.KidOk, Tries.RootOk, Tries.Reparent;
    LeafCanReplace(s, x, r);
    ReplaceParents(RemoveLeaf(s.trie, r), x, r, s.trie.size[r]);
  }

  lemma MoveLeafChunk(s: Store, x: int, r: int, y: int)
    requires LeafBelow(s, x, r)
    ensures ChunkOk(MoveLeaf(s, x, r), y)
  {
    assert ChunkOk(s, y) && ChunkOk(s, r);
    if y in s.binned && y != x {
      assert Rings.Good(s.ring, y);
      if s.ring.owner[y] == x { LoneNodeAlone(s, x, y); }
      MoveLeafFields(s, x, r, y);
    }
  }

  lemma MoveLeafFields(s: Store, x: int, r: int, y: int)
    requires LeafBelow(s, x, r) && y != x && y > 0
    ensures var t' := MoveLeaf(s, x, r).trie;
            && t'.size == (s.trie.size - {x})
            && (y in s.trie.bin ==> y in t'.bin && t'.bin[y] == s.trie.bin[y])
            && (y !in s.trie.size && Unplaced(s.trie, y) ==> Unplaced(t', y))
  {
    hide Tries.Relink, Tries.OnPath, Tries.Ok;
    LeafCanReplace(s, x, r);
    var t1 := RemoveLeaf(s.trie, r);
    ReplaceParents(t1, x, r, s.trie.size[r]);
    if y !in s.trie.size {
      ReplaceOthers(t1, x, r, s.trie.size[r], y);
      RemoveLeafOthers(s.trie, r, y);
    }
  }

  lemma RemoveLeafOthers(t: Trie, r: int, y: int)
    requires Tries.Ok(t) && r in t.size && NodeOk(t, r) && y !in t.size
    ensures At(RemoveLeaf(t, r).child0, y) == At(t.child0, y) && At(RemoveLeaf(t, r).child1, y) == At(t.child1, y)
  {
    if t.parent[r].TreeNode? { assert NodeOk(t, t.parent[r].node); }
  }

  /** What unlink_small_chunk writes. */
  lemma RemoveSmallStep(s: Store, x: int) returns (s': Store)
    requires Ok(s) && x in s.binned && IsSmall(s.binned[x])
    ensures Ok(s') && s'.binned == s.binned - {x}
    ensures var l := LinksOf(s);
            var f, b := At(l.fd, x), At(l.bk, x);
            LinksOf(s') ==
            if f == b then l.(smallmap := Bits.Without(l.smallmap, SmallIndex(s.binned[x])))
            else l.(fd := l.fd[b := f], bk := l.bk[f := b])
  {
    assert ChunkOk(s, x);
    RemoveSmallOk(s, x);
    s' := RemoveSmall(s, x);
  }

  /** What insert_large_chunk writes, case by case. */
  lemma ChainStep(s: Store, node: int, x: int, size: word, i: nat) returns (s': Store)
    requires Ok(s) && Fresh(s, x, size) && !IsSmall(size) && i == Index(size)
    requires node in s.trie.size && s.trie.size[node] == size
    ensures Ok(s') && s'.binned == s.binned[x := size]
    ensures var l := LinksOf(s);
            var f := At(l.fd, node);
            LinksOf(s') == l.(index := l.index[x := i], child0 := l.child0[x := 0], child1 := l.child1[x := 0],
                              fd := l.fd[node := x][x := f], bk := l.bk[f := x][x := node],
                                  parent := l.parent[x := NoParent])
  {
    ChainOk(s, node, x, size, i);
    s' := Chain(s, node, x, size, i);
  }

  lemma PlantStep(s: Store, x: int, size: word, i: nat) returns (s': Store)
    requires Ok(s) && Fresh(s, x, size) && !IsSmall(size) && i == Index(size) && i < NTREEBINS
    requires s.trie.treebins[i] == 0
    ensures Ok(s') && s'.binned == s.binned[x := size]
    ensures var l := LinksOf(s);
            LinksOf(s') == l.(index := l.index[x := i], child0 := l.child0[x := 0], child1 := l.child1[x := 0],
                              treemap := Bits.With(l.treemap, i), treebins := l.treebins[i := x],
                              parent := l.parent[x := BinHeader(i)], fd := l.fd[x := x], bk := l.bk[x := x])
  {
    PlantOk(s, x, size, i);
    s' := Plant(s, x, size, i);
  }

  lemma GraftStep(s: Store, p: int, x: int, size: word, bit: nat) returns (s': Store)
    requires Ok(s) && Fresh(s, x, size) && !IsSmall(size)
    requires p in s.trie.size && NodeOk(s.trie, p) && s.trie.bin[p] == Index(size)
    requires OnPath(s.trie, p, size) && size != s.trie.size[p] && bit == Slot(s.trie, p, size)
             && Kid(s.trie, p, bit) == 0
    requires forall y :: y in s.trie.size && s.trie.size[y] == size ==> Below(s.trie, p, y)
    ensures Ok(s') && s'.binned == s.binned[x := size]
    ensures var l := LinksOf(s);
            var c0, c1 := l.child0[x := 0], l.child1[x := 0];
            LinksOf(s') == l.(index := l.index[x := s.trie.bin[p]],
                              child0 := if bit == 0 then c0[p := x] else c0,
                              child1 := if bit == 0 then c1 else c1[p := x],
                              parent := l.parent[x := TreeNode(p)], fd := l.fd[x := x], bk := l.bk[x := x])
  {
    GraftOk(s, p, x, size);
    s' := Graft(s, p, x, size);
  }

  // ---- unlink_large_chunk

  /** The place of x, in its bin or in its parent, set to r. */
  ghost function Rehang(l: Links, x: int, r: int): Links {
    match ParentAt(l.parent, x)
    case NoParent => l
    case BinHeader(i) => if i < |l.treebins| then l.(treebins := l.treebins[i := r]) else l
    case TreeNode(p) =>
      if At(l.child0, p) == x then l.(child0 := l.child0[p := r]) else l.(child1 := l.child1[p := r])
  }

  /** r, or nothing when r is 0, in the place of the node x: the second half of the macro. */
  ghost function Placed(l: Links, x: int, r: int): Links {
    var u := Rehang(l, x, r);
    var xp := ParentAt(l.parent, x);
    if r == 0 then
      if xp.BinHeader? && xp.bin < 32 then u.(treemap := Bits.Without(u.treemap, xp.bin)) else u
    else
      var c0, c1 := At(u.child0, x), At(u.child1, x);
      u.(parent := Reparent(u.parent, r, xp, c0, c1),
         child0 := if c0 != 0 then u.child0[r := c0] else u.child0,
         child1 := if c1 != 0 then u.child1[r := c1] else u.child1)
  }

  /** x taken out of its list. */
  ghost function Skipped(l: Links, x: int): Links {
    var f, b := At(l.fd, x), At(l.bk, x);
    l.(fd := l.fd[b := f], bk := l.bk[f := b])
  }

  lemma UnchainStep(s: Store, x: int) returns (s': Store)
    requires Ok(s) && x in s.binned && !IsSmall(s.binned[x]) && x !in s.trie.size
    ensures Ok(s') && s'.binned == s.binned - {x} && LinksOf(s') == Skipped(LinksOf(s), x)
    ensures ParentAt(s.trie.parent, x) == NoParent && At(s.ring.bk, x) != x
  {
    assert ChunkOk(s, x);
    assert Rings.Good(s.ring, x);
    UnchainOk(s, x);
    s' := Unchain(s, x);
  }

  lemma PromoteStep(s: Store, x: int) returns (s': Store)
    requires Ok(s) && x in s.binned && !IsSmall(s.binned[x]) && x in s.trie.size && At(s.ring.bk, x) != x
    ensures Ok(s') && s'.binned == s.binned - {x}
    ensures At(s.ring.bk, x) > 0 && LinksOf(s') == Placed(Skipped(LinksOf(s), x), x, At(s.ring.bk, x))
    ensures NodePlace(s, x)
  {
    assert ChunkOk(s, x) && NodeOk(s.trie, x);
    var b := At(s.ring.bk, x);
    assert Rings.Good(s.ring, x);
    assert Rings.Good(s.ring, b);
    RingOfNode(s, x, b);
    PromoteNodeOk(s, x);
    PlaceOfNode(s, x);
    s' := PromoteNode(s, x);
    SameBin(s.trie.bin, x, b);
    PlacedIsReplace(Skipped(LinksOf(s), x), s.trie, x, b, s.binned[x]);
  }

  lemma UprootStep(s: Store, x: int) returns (s': Store)
    requires Ok(s) && x in s.binned && !IsSmall(s.binned[x]) && x in s.trie.size && At(s.ring.bk, x) == x
    requires Kid(s.trie, x, 0) == 0 && Kid(s.trie, x, 1) == 0
    ensures Ok(s') && s'.binned == s.binned - {x} && LinksOf(s') == Placed(LinksOf(s), x, 0)
    ensures NodePlace(s, x)
  {
    assert ChunkOk(s, x) && NodeOk(s.trie, x);
    UprootOk(s, x);
    PlaceOfNode(s, x);
    s' := Uproot(s, x);
  }

  /** The leaf r cut off from the node p. */
  ghost function Cut(l: Links, p: int, bit: nat): Links {
    if bit == 0 then l.(child0 := l.child0[p := 0]) else l.(child1 := l.child1[p := 0])
  }

  lemma MoveLeafStep(s: Store, x: int, r: int, p: int, bit: nat) returns (s': Store)
    requires Ok(s) && x in s.binned && !IsSmall(s.binned[x]) && x in s.trie.size && At(s.ring.bk, x) == x
    requires NodeOk(s.trie, x) && r in s.trie.size && r != x && Below(s.trie, x, r)
    requires Kid(s.trie, r, 0) == 0 && Kid(s.trie, r, 1) == 0
    requires p in s.trie.size && bit <= 1 && Kid(s.trie, p, bit) == r
    ensures Ok(s') && s'.binned == s.binned - {x}
    ensures r > 0 && LinksOf(s') == Placed(Cut(LinksOf(s), p, bit), x, r)
    ensures NodePlace(s, x)
  {
    assert ChunkOk(s, x) && NodeOk(s.trie, r);
    MoveLeafOk(s, x, r);
    CutIsRemoveLeaf(s.trie, r, p, bit);
    PlaceOfNode(s, x);
    s' := MoveLeaf(s, x, r);
    MoveLeafLinks(s, x, r, p, bit);
  }

  lemma CutIsRemoveLeaf(t: Trie, r: int, p: int, bit: nat)
    requires Tries.Ok(t) && r in t.size && NodeOk(t, r) && p in t.size && bit <= 1 && Kid(t, p, bit) == r
    ensures t.parent[r] == TreeNode(p)
    ensures RemoveLeaf(t, r) == t.(size := t.size - {r}, child0 := if bit == 0 then t.child0[p := 0] else t.child0,
                                   child1 := if bit == 0 then t.child1 else t.child1[p := 0])
  {
    KidsAreNodes(t, p);
  }

  lemma MoveLeafLinks(s: Store, x: int, r: int, p: int, bit: nat)
    requires LeafBelow(s, x, r) && p in s.trie.size && bit <= 1 && Kid(s.trie, p, bit) == r
    ensures LinksOf(MoveLeaf(s, x, r)) == Placed(Cut(LinksOf(s), p, bit), x, r)
  {
    var t1 := RemoveLeaf(s.trie, r);
    var l := Cut(LinksOf(s), p, bit);
    CutIsRemoveLeaf(s.trie, r, p, bit);
    PlacedIsReplace(l, t1, x, r, s.trie.size[r]);
    SameBin(s.trie.bin, x, r);
  }

  lemma SameBin(bin: map<int, nat>, x: int, r: int)
    requires x in bin && r in bin && bin[x] == bin[r]
    ensures bin[r := bin[x]] == bin
  {
  }

  lemma PlacedIsReplace(l: Links, t: Trie, x: int, r: int, size: word)
    requires l.child0 == t.child0 && l.child1 == t.child1 && l.parent == t.parent && l.treebins == t.treebins
    requires x in t.parent && x in t.depth && x in t.bin && t.parent[x] != NoParent && r != 0
    requires t.parent[x].BinHeader? ==> t.parent[x].bin < |t.treebins|
    ensures var t' := Replace(t, x, r, size);
            Placed(l, x, r)
              == l.(child0 := t'.child0, child1 := t'.child1, parent := t'.parent, treebins := t'.treebins)
  {
  }

  /** A tree node is where its parent field says, and it is the root exactly when the bin's
      header is its parent. */
  ghost predicate NodePlace(s: Store, x: int) {
    && x in s.trie.parent && x in s.trie.bin && s.trie.bin[x] < |s.trie.treebins|
    && match s.trie.parent[x]
       case NoParent => false
       case BinHeader(i) => i == s.trie.bin[x] && s.trie.treebins[i] == x
       case TreeNode(p) => s.trie.treebins[s.trie.bin[x]] != x && p > 0
  }

  lemma PlaceOfNode(s: Store, x: int)
    requires Ok(s) && x in s.trie.size
    ensures NodePlace(s, x)
  {
    assert NodeOk(s.trie, x);
    assert RootOk(s.trie, s.trie.bin[x]);
    if s.trie.parent[x].TreeNode? { assert NodeOk(s.trie, s.trie.parent[x].node); }
  }

  /** Whether a large chunk is a tree node shows in its parent field, and a chained chunk is
      never alone. */
  lemma PlaceOfChunk(s: Store, x: int)
    requires Ok(s) && x in s.binned && !IsSmall(s.binned[x])
    ensures x in s.trie.size <==> ParentAt(s.trie.parent, x) != NoParent
    ensures x !in s.trie.size ==> At(s.ring.bk, x) != x
    ensures x in s.trie.size ==> NodePlace(s, x) && NodeOk(s.trie, x) && s.trie.bin[x] < NTREEBINS
  {
    assert ChunkOk(s, x);
    assert Rings.Good(s.ring, x);
    if x in s.trie.size {
      PlaceOfNode(s, x);
      assert NodeOk(s.trie, x);
    }
  }

  /** The first chunk of a marked small bin. */
  lemma FirstInSmallBin(s: Store, i: nat)
    requires Ok(s) && i < NSMALLBINS && Bits.Has(s.smallmap, i)
    ensures var p := At(s.ring.fd, SmallbinAt(i));
            p in s.binned && s.binned[p] == 8 * i && At(s.ring.bk, p) == SmallbinAt(i)
  {
    var h := SmallbinAt(i);
    assert HeaderOk(s, i);
    assert Rings.Good(s.ring, h);
    var p := At(s.ring.fd, h);
    assert Rings.Good(s.ring, p);
    assert Member(s, p);
    assert ChunkOk(s, p) && ChunkOk(s, h);
    assert forall j: nat {:trigger SmallbinAt(j)} :: j < NSMALLBINS && p == SmallbinAt(j) ==> HeaderOk(s, j);
  }

  ghost function EmptyStore(fd: map<int, int>, bk: map<int, int>): Store {
    Store(map[], Rings.Ring(fd, bk, map[], map[]),
          Trie(map[], map[], map[], map[], map[], map[], seq(NTREEBINS, _ => 0)), 0, 0)
  }

  lemma EmptyOk(fd: map<int, int>, bk: map<int, int>)
    ensures Ok(EmptyStore(fd, bk))
  {
    var s := EmptyStore(fd, bk);
    forall i: nat ensures !Bits.Has(0, i) { Bits.HasNone(i); }
  }
}
