/** The bitwise digital tries of the tree bins, as a pointer structure. A node sits at depth d
    of its bin's trie when the d bits below the bin's range lead to it; the bit after those
    picks the child. Only what holds between a node and its neighbours is required of the
    links, and the order of whole subtrees is derived from that. */
module Tries {
  import opened Words
  import opened Memory
  import opened TreeIndex

  /** Where a chunk hangs: below nothing (it is chained behind a node of its size), at the
      root of a bin, or below another node. */
  datatype Parent = NoParent | BinHeader(bin: nat) | TreeNode(node: int)

  /** The tree nodes with their sizes, bins and depths, and the links that join them. */
  datatype Trie = Trie(size: map<int, word>, bin: map<int, nat>, depth: map<int, nat>, parent: map<int, Parent>,
                       child0: map<int, int>, child1: map<int, int>, treebins: seq<int>)

  ghost predicate IsNode(t: Trie, x: int) {
    x in t.size && x in t.bin && x in t.depth && x in t.parent && t.bin[x] < NTREEBINS
  }

  /** Which bit of a size picks the child at this node. */
  ghost function Pos(t: Trie, x: int): nat
    requires IsNode(t, x)
  {
    LeftShift(t.bin[x]) + t.depth[x]
  }

  function Child(child0: map<int, int>, child1: map<int, int>, x: int, bit: nat): int {
    if bit == 0 then At(child0, x) else At(child1, x)
  }

  ghost function Kid(t: Trie, x: int, bit: nat): int {
    Child(t.child0, t.child1, x, bit)
  }

  /** The leading bits of s are those that lead to x. */
  ghost predicate OnPath(t: Trie, x: int, s: word)
    requires IsNode(t, x)
  {
    Prefix(s, Pos(t, x)) == Prefix(t.size[x], Pos(t, x))
  }

  ghost predicate ParentOk(t: Trie, x: int)
    requires IsNode(t, x)
  {
    match t.parent[x]
    case NoParent => false
    case BinHeader(i) => i == t.bin[x] && i < |t.treebins| && t.treebins[i] == x && t.depth[x] == 0
    case TreeNode(p) =>
      && IsNode(t, p) && t.bin[p] == t.bin[x] && t.depth[x] == t.depth[p] + 1
      && OnPath(t, p, t.size[x])
      && Kid(t, p, BitAt(t.size[x], Pos(t, p))) == x
  }

  ghost predicate KidOk(t: Trie, x: int, bit: nat)
    requires IsNode(t, x)
  {
    var c := Kid(t, x, bit);
    c != 0 ==> IsNode(t, c) && t.parent[c] == TreeNode(x) && BitAt(t.size[c], Pos(t, x)) == bit
  }

  ghost predicate NodeOk(t: Trie, x: int) {
    x in t.size ==>
      && IsNode(t, x) && x > 0 && Pos(t, x) <= 32
      && ParentOk(t, x) && KidOk(t, x, 0) && KidOk(t, x, 1)
  }

  ghost predicate RootOk(t: Trie, i: nat)
    requires i < |t.treebins|
  {
    var r := t.treebins[i];
    r != 0 ==> IsNode(t, r) && t.bin[r] == i && t.parent[r] == BinHeader(i)
  }

  /** One tree node per size; equal sizes hang behind it. */
  ghost predicate OnePerSize(t: Trie) {
    forall x, y :: x in t.size && y in t.size && t.size[x] == t.size[y] ==> x == y
  }

  /** Nodes are in the bin of their size. */
  ghost predicate Classed(t: Trie) {
    forall x :: x in t.size && x in t.bin ==> t.size[x] >= MIN_LARGE_SIZE && t.bin[x] == Index(t.size[x])
  }

  ghost predicate Ok(t: Trie) {
    && |t.treebins| == NTREEBINS
    && (forall x {:trigger NodeOk(t, x)} :: NodeOk(t, x))
    && (forall i: nat {:trigger RootOk(t, i)} :: i < NTREEBINS ==> RootOk(t, i))
    && OnePerSize(t)
  }

  /** y lies in the subtree of x, as far as its bits say. */
  ghost predicate Below(t: Trie, x: int, y: int)
    requires IsNode(t, x)
  {
    IsNode(t, y) && t.bin[y] == t.bin[x] && t.depth[y] >= t.depth[x] && OnPath(t, x, t.size[y])
  }

  /** The bits that lead to a node determine it. */
  lemma {:induction false} SamePlace(t: Trie, x: int, y: int)
    requires Ok(t) && x in t.size && y in t.size
    requires NodeOk(t, x) && NodeOk(t, y)
    requires t.bin[x] == t.bin[y] && t.depth[x] == t.depth[y] && OnPath(t, x, t.size[y])
    ensures x == y
    decreases if x in t.depth then t.depth[x] else 0
  {
    if t.parent[x].TreeNode? && t.parent[y].TreeNode? {
      var p, q := t.parent[x].node, t.parent[y].node;
      assert NodeOk(t, p) && NodeOk(t, q);
      PrefixShorter(t.size[x], t.size[y], Pos(t, p), Pos(t, x));
      SamePlace(t, p, q);
    }
  }

  /** A node below x that is not x itself is below the child that its next bit picks. */
  lemma {:induction false} Descend(t: Trie, x: int, y: int)
    requires Ok(t) && x in t.size && NodeOk(t, x) && Below(t, x, y) && x != y
    ensures BitAt(t.size[y], Pos(t, x)) <= 1
    ensures var c := Kid(t, x, BitAt(t.size[y], Pos(t, x)));
            c in t.size && NodeOk(t, c) && Below(t, c, y) && t.depth[c] == t.depth[x] + 1
    decreases if y in t.depth then t.depth[y] else 0
  {
    assert NodeOk(t, y);
    BitRange(t.size[y], Pos(t, x));
    if t.depth[y] == t.depth[x] {
      SamePlace(t, x, y);
      assert false;
    }
    var p := t.parent[y].node;
    assert NodeOk(t, p);
    PrefixShorter(t.size[y], t.size[p], Pos(t, x), Pos(t, p));
    if p != x {
      if t.depth[p] == t.depth[x] {
        SamePlace(t, x, p);
        assert false;
      }
      Descend(t, x, p);
      var c := Kid(t, x, BitAt(t.size[p], Pos(t, x)));
      PrefixShorter(t.size[y], t.size[p], Pos(t, c), Pos(t, p));
    }
  }

  /** Every node of a bin is below its root. */
  lemma BelowRoot(t: Trie, y: int)
    requires Ok(t) && Classed(t) && y in t.size
    ensures NodeOk(t, y) && var r := t.treebins[t.bin[y]];
            r in t.size && NodeOk(t, r) && Below(t, r, y) && t.depth[r] == 0
  {
    assert NodeOk(t, y);
    SomeRoot(t, y);
    var r := t.treebins[t.bin[y]];
    assert RootOk(t, t.bin[y]);
    assert NodeOk(t, r);
    SameIndexPrefix(t.size[r], t.size[y]);
  }

  lemma {:induction false} SomeRoot(t: Trie, y: int)
    requires Ok(t) && y in t.size && NodeOk(t, y)
    ensures t.treebins[t.bin[y]] != 0
    decreases if y in t.depth then t.depth[y] else 0
  {
    if t.parent[y].TreeNode? {
      assert NodeOk(t, t.parent[y].node);
      SomeRoot(t, t.parent[y].node);
    }
  }

  /** Nodes below the 0-child are smaller than nodes below the 1-child. */
  lemma SubtreeOrder(t: Trie, x: int, s: word, u: word)
    requires x in t.size && IsNode(t, x) && OnPath(t, x, s) && OnPath(t, x, u)
    requires BitAt(s, Pos(t, x)) == 0 && BitAt(u, Pos(t, x)) == 1
    ensures s < u
  {
    FirstDifference(s, u, Pos(t, x));
  }

  /** A first node for an empty bin. */
  ghost function AddRoot(t: Trie, x: int, s: word, i: nat): Trie
    requires i < |t.treebins|
  {
    Trie(t.size[x := s], t.bin[x := i], t.depth[x := 0], t.parent[x := BinHeader(i)],
         t.child0[x := 0], t.child1[x := 0], t.treebins[i := x])
  }

  /** Where the next node of size s goes below p. */
  ghost function Slot(t: Trie, p: int, s: word): nat
    requires IsNode(t, p)
  {
    BitAt(s, Pos(t, p))
  }

  /** A new leaf below p. */
  ghost function AddChild(t: Trie, p: int, x: int, s: word): Trie
    requires IsNode(t, p)
  {
    var c0, c1 := t.child0[x := 0], t.child1[x := 0];
    var bit := Slot(t, p, s);
    Trie(t.size[x := s], t.bin[x := t.bin[p]], t.depth[x := t.depth[p] + 1], t.parent[x := TreeNode(p)],
         if bit == 0 then c0[p := x] else c0, if bit == 0 then c1 else c1[p := x], t.treebins)
  }

  /** What the place of x in its parent, or in its bin, is set to r. */
  ghost function Relink(t: Trie, x: int, r: int): Trie
    requires x in t.parent
    requires t.parent[x].BinHeader? ==> t.parent[x].bin < |t.treebins|
  {
    match t.parent[x]
    case NoParent => t
    case BinHeader(i) => t.(treebins := t.treebins[i := r])
    case TreeNode(p) =>
      if At(t.child0, p) == x then t.(child0 := t.child0[p := r]) else t.(child1 := t.child1[p := r])
  }

  ghost function RemoveLeaf(t: Trie, x: int): Trie
    requires x in t.parent
    requires t.parent[x].BinHeader? ==> t.parent[x].bin < |t.treebins|
  {
    Relink(t, x, 0).(size := t.size - {x})
  }

  /** r hangs where x hung, and the kids of x hang below r. */
  ghost function Reparent(parent: map<int, Parent>, r: int, above: Parent, c0: int, c1: int): (p: map<int, Parent>)
    ensures r in p && (r != c0 && r != c1 ==> p[r] == above)
    ensures c0 != 0 ==> c0 in p && p[c0] == TreeNode(r)
    ensures c1 != 0 ==> c1 in p && p[c1] == TreeNode(r)
    ensures forall y :: y in parent && y != r && (y == 0 || (y != c0 && y != c1)) ==> y in p && p[y] == parent[y]
  {
    var p0 := parent[r := above];
    var p1 := if c0 != 0 then p0[c0 := TreeNode(r)] else p0;
    if c1 != 0 then p1[c1 := TreeNode(r)] else p1
  }

  /** r, of size s, in the place of the node x. */
  ghost function Replace(t: Trie, x: int, r: int, s: word): Trie
    requires x in t.parent && x in t.depth && x in t.bin
    requires t.parent[x].BinHeader? ==> t.parent[x].bin < |t.treebins|
  {
    var u := Relink(t, x, r);
    var c0, c1 := At(u.child0, x), At(u.child1, x);
    Trie((t.size - {x})[r := s], t.bin[r := t.bin[x]], t.depth[r := t.depth[x]],
         Reparent(t.parent, r, t.parent[x], c0, c1),
         if c0 != 0 then u.child0[r := c0] else u.child0,
         if c1 != 0 then u.child1[r := c1] else u.child1,
         u.treebins)
  }

  /** y keeps its size, its place and its parent. */
  ghost predicate Same(t: Trie, t': Trie, y: int) {
    && y in t.size && y in t'.size && IsNode(t, y) && IsNode(t', y)
    && t'.size[y] == t.size[y] && t'.bin[y] == t.bin[y] && t'.depth[y] == t.depth[y]
  }

  lemma KeepsParent(t: Trie, t': Trie, y: int)
    requires y in t.size && NodeOk(t, y) && Same(t, t', y) && t'.parent[y] == t.parent[y]
    requires match t.parent[y]
             case NoParent => false
             case BinHeader(i) => i < |t'.treebins| && t'.treebins[i] == y
             case TreeNode(p) =>
               Same(t, t', p) && (Kid(t, p, 0) == y ==> Kid(t', p, 0) == y)
               && (Kid(t, p, 1) == y ==> Kid(t', p, 1) == y)
    ensures ParentOk(t', y)
  {
    if t.parent[y].TreeNode? {
      BitRange(t.size[y], Pos(t, t.parent[y].node));
    }
  }

  lemma KeepsKid(t: Trie, t': Trie, y: int, bit: nat)
    requires y in t.size && IsNode(t, y) && KidOk(t, y, bit) && Same(t, t', y)
    requires Kid(t', y, bit) == 0
          || (Kid(t', y, bit) == Kid(t, y, bit) && Same(t, t', Kid(t, y, bit))
              && t'.parent[Kid(t, y, bit)] == TreeNode(y))
    ensures KidOk(t', y, bit)
  {
  }

  /** A node whose neighbours stay is still a good node, whatever happens elsewhere. */
  lemma Unaffected(t: Trie, t': Trie, y: int)
    requires y in t.size && NodeOk(t, y) && Same(t, t', y) && t'.parent[y] == t.parent[y]
    requires match t.parent[y]
             case NoParent => false
             case BinHeader(i) => i < |t'.treebins| && t'.treebins[i] == y
             case TreeNode(p) =>
               Same(t, t', p) && (Kid(t, p, 0) == y ==> Kid(t', p, 0) == y)
               && (Kid(t, p, 1) == y ==> Kid(t', p, 1) == y)
    requires Kid(t', y, 0) == 0
          || (Kid(t', y, 0) == Kid(t, y, 0) && Same(t, t', Kid(t, y, 0)) && t'.parent[Kid(t, y, 0)] == TreeNode(y))
    requires Kid(t', y, 1) == 0
          || (Kid(t', y, 1) == Kid(t, y, 1) && Same(t, t', Kid(t, y, 1)) && t'.parent[Kid(t, y, 1)] == TreeNode(y))
    ensures NodeOk(t', y)
  {
    KeepsParent(t, t', y);
    KeepsKid(t, t', y, 0);
    KeepsKid(t, t', y, 1);
  }

  lemma AddRootOk(t: Trie, x: int, s: word, i: nat)
    requires Ok(t) && x > 0 && x !in t.size && i < NTREEBINS && t.treebins[i] == 0
    requires forall y :: y in t.size ==> t.size[y] != s
    ensures Ok(AddRoot(t, x, s, i))
  {
    var t' := AddRoot(t, x, s, i);
    forall y ensures NodeOk(t', y) { AddRootNode(t, x, s, i, y); }
    forall j: nat | j < NTREEBINS ensures RootOk(t', j) { assert RootOk(t, j); }
  }

  lemma AddRootEffect(t: Trie, x: int, s: word, i: nat)
    requires i < |t.treebins| && x !in t.size
    ensures var t' := AddRoot(t, x, s, i);
            && (forall y :: y in t.size && IsNode(t, y) ==> Same(t, t', y) && t'.parent[y] == t.parent[y])
            && (forall y, bit :: y in t.size && 0 <= bit <= 1 ==> Kid(t', y, bit) == Kid(t, y, bit))
  {
  }

  lemma AddRootNode(t: Trie, x: int, s: word, i: nat, y: int)
    requires Ok(t) && x > 0 && x !in t.size && i < NTREEBINS && t.treebins[i] == 0
    ensures NodeOk(AddRoot(t, x, s, i), y)
  {
    if y in t.size {
      AddRootEffect(t, x, s, i);
      KidsAreNodes(t, y);
      if t.parent[y].TreeNode? { assert NodeOk(t, t.parent[y].node); }
      Unaffected(t, AddRoot(t, x, s, i), y);
    }
  }

  lemma KidsAreNodes(t: Trie, y: int)
    requires Ok(t) && y in t.size
    ensures NodeOk(t, y) && NodeOk(t, Kid(t, y, 0)) && NodeOk(t, Kid(t, y, 1))
  {
    assert NodeOk(t, y) && NodeOk(t, Kid(t, y, 0)) && NodeOk(t, Kid(t, y, 1));
  }

  lemma AddChildOk(t: Trie, p: int, x: int, s: word)
    requires Ok(t) && p in t.size && NodeOk(t, p) && x > 0 && x !in t.size
    requires OnPath(t, p, s) && s != t.size[p]
    requires Kid(t, p, Slot(t, p, s)) == 0
    requires forall y :: y in t.size && t.size[y] == s ==> Below(t, p, y)
    ensures Ok(AddChild(t, p, x, s))
  {
    var t' := AddChild(t, p, x, s);
    forall y ensures NodeOk(t', y) {
      if y == x { AddChildNew(t, p, x, s); } else if y == p { AddChildParent(t, p, x, s); }
        else { AddChildNode(t, p, x, s, y); }
    }
    forall i: nat | i < NTREEBINS ensures RootOk(t', i) { assert RootOk(t, i); }
    forall y | y in t.size ensures t.size[y] != s {
      if t.size[y] == s { Descend(t, p, y); }
    }
  }

  lemma AddChildNew(t: Trie, p: int, x: int, s: word)
    requires Ok(t) && p in t.size && NodeOk(t, p) && x > 0 && x !in t.size
    requires OnPath(t, p, s) && s != t.size[p]
    requires Kid(t, p, Slot(t, p, s)) == 0
    ensures NodeOk(AddChild(t, p, x, s), x)
  {
    BitRange(s, Pos(t, p));
    if Pos(t, p) == 32 { SameWord(s, t.size[p]); }
  }

  lemma AddChildParent(t: Trie, p: int, x: int, s: word)
    requires Ok(t) && p in t.size && NodeOk(t, p) && x > 0 && x !in t.size
    requires OnPath(t, p, s) && Kid(t, p, Slot(t, p, s)) == 0
    ensures NodeOk(AddChild(t, p, x, s), p)
  {
    BitRange(s, Pos(t, p));
    KidsAreNodes(t, p);
    AddChildAbove(t, p, x, s);
  }

  lemma AddChildAbove(t: Trie, p: int, x: int, s: word)
    requires Ok(t) && p in t.size && NodeOk(t, p) && x !in t.size
    ensures ParentOk(AddChild(t, p, x, s), p)
  {
    if t.parent[p].TreeNode? { assert NodeOk(t, t.parent[p].node); }
  }

  lemma AddChildEffect(t: Trie, p: int, x: int, s: word)
    requires IsNode(t, p) && x !in t.size && p != x
    ensures var t' := AddChild(t, p, x, s);
            && t' == t.(size := t'.size, bin := t'.bin, depth := t'.depth, parent := t'.parent, child0 := t'.child0,
                        child1 := t'.child1)
            && (forall y :: y in t.size && IsNode(t, y) ==> Same(t, t', y) && t'.parent[y] == t.parent[y])
            && (forall y, bit ::
                  y in t.size && (y != p || bit != Slot(t, p, s)) && 0 <= bit <= 1 ==>
                    Kid(t', y, bit) == Kid(t, y, bit))
  {
    BitRange(s, Pos(t, p));
  }

  lemma AddChildNode(t: Trie, p: int, x: int, s: word, y: int)
    requires Ok(t) && p in t.size && NodeOk(t, p) && x > 0 && x !in t.size
    requires OnPath(t, p, s) && Kid(t, p, Slot(t, p, s)) == 0 && y != x && y != p
    ensures NodeOk(AddChild(t, p, x, s), y)
  {
    AddChildEffect(t, p, x, s);
    if y in t.size {
      KidsAreNodes(t, y);
      if t.parent[y].TreeNode? { KidsAreNodes(t, t.parent[y].node); }
      Unaffected(t, AddChild(t, p, x, s), y);
    }
  }

  /** Only the place that x hangs in changes. */
  lemma RelinkEffect(t: Trie, x: int, r: int)
    requires Ok(t) && x in t.size && NodeOk(t, x)
    ensures var u := Relink(t, x, r);
            && u == t.(child0 := u.child0, child1 := u.child1, treebins := u.treebins)
            && |u.treebins| == NTREEBINS
            && (forall y, bit :: y in t.size && 0 <= bit <= 1 ==>
                 Kid(u, y, bit) == if Kid(t, y, bit) == x then r else Kid(t, y, bit))
            && (forall i :: 0 <= i < NTREEBINS ==> u.treebins[i] == if t.treebins[i] == x then r else t.treebins[i])
  {
    if t.parent[x].TreeNode? { assert NodeOk(t, t.parent[x].node); }
    forall y | y in t.size
      ensures Kid(t, y, 0) == x ==> t.parent[x] == TreeNode(y) && Kid(t, y, 1) != x { KidsAreNodes(t, y); }
    forall y | y in t.size
      ensures Kid(t, y, 1) == x ==> t.parent[x] == TreeNode(y) && Kid(t, y, 0) != x { KidsAreNodes(t, y); }
    forall i: nat | i < NTREEBINS ensures t.treebins[i] == x ==> t.parent[x] == BinHeader(i) { assert RootOk(t, i); }
  }

  lemma RemoveLeafOk(t: Trie, x: int)
    requires Ok(t) && x in t.size && NodeOk(t, x) && Kid(t, x, 0) == 0 && Kid(t, x, 1) == 0
    ensures Ok(RemoveLeaf(t, x))
  {
    var t' := RemoveLeaf(t, x);
    RelinkEffect(t, x, 0);
    forall y ensures NodeOk(t', y) {
      if y in t'.size { RemoveLeafNode(t, x, y); }
    }
    forall i: nat | i < NTREEBINS ensures RootOk(t', i) { assert RootOk(t, i); }
  }

  lemma RemoveLeafNode(t: Trie, x: int, y: int)
    requires Ok(t) && x in t.size && NodeOk(t, x) && Kid(t, x, 0) == 0 && Kid(t, x, 1) == 0
    requires y in t.size && y != x
    ensures NodeOk(RemoveLeaf(t, x), y)
  {
    hide Relink, OnPath;
    RelinkEffect(t, x, 0);
    KidsAreNodes(t, y);
    if t.parent[y].TreeNode? { KidsAreNodes(t, t.parent[y].node); }
    Unaffected(t, RemoveLeaf(t, x), y);
  }

  /** What r needs to take the place of x: it is no node, it has no kids, and its size leads to
      the place of x and is no other node's size. */
  ghost predicate CanReplace(t: Trie, x: int, r: int, s: word) {
    && x in t.size && NodeOk(t, x) && r > 0 && r !in t.size
    && At(t.child0, r) == 0 && At(t.child1, r) == 0
    && OnPath(t, x, s) && (forall y :: y in t.size && t.size[y] == s ==> y == x)
  }

  ghost function Swap(x: int, r: int, y: int): int {
    if y == x then r else y
  }

  lemma ReplaceKeepsKids(t: Trie, x: int, r: int)
    requires Ok(t) && x in t.size && NodeOk(t, x) && r !in t.size
    ensures Kid(Relink(t, x, r), x, 0) == Kid(t, x, 0) && Kid(Relink(t, x, r), x, 1) == Kid(t, x, 1)
  {
    RelinkEffect(t, x, r);
    KidsAreNodes(t, x);
  }

  lemma ReplaceLinks(t: Trie, x: int, r: int, s: word)
    requires Ok(t) && CanReplace(t, x, r, s)
    ensures var t' := Replace(t, x, r, s);
            && |t'.treebins| == NTREEBINS
            && (forall i :: 0 <= i < NTREEBINS ==> t'.treebins[i] == Swap(x, r, t.treebins[i]))
            && Kid(t', r, 0) == Kid(t, x, 0) && Kid(t', r, 1) == Kid(t, x, 1)
            && (forall y {:trigger Kid(t', y, 0)} {:trigger Kid(t', y, 1)} :: y in t.size && y != x ==>
                  Kid(t', y, 0) == Swap(x, r, Kid(t, y, 0)) && Kid(t', y, 1) == Swap(x, r, Kid(t, y, 1)))
  {
    hide OnPath, RootOk;
    RelinkEffect(t, x, r);
    ReplaceKeepsKids(t, x, r);
    if t.parent[x].TreeNode? { assert NodeOk(t, t.parent[x].node); }
  }

  lemma ReplaceParents(t: Trie, x: int, r: int, s: word)
    requires Ok(t) && CanReplace(t, x, r, s)
    ensures var t' := Replace(t, x, r, s);
            && t'.size == (t.size - {x})[r := s]
            && IsNode(t', r) && t'.bin[r] == t.bin[x] && t'.depth[r] == t.depth[x] && t'.parent[r] == t.parent[x]
            && (forall y {:trigger Same(t, t', y)} {:trigger t'.parent[y]} :: y in t.size && y != x && IsNode(t, y) ==>
                  Same(t, t', y) && t'.parent[y] == if t.parent[y] == TreeNode(x) then TreeNode(r) else t.parent[y])
  {
    ReplaceKeepsKids(t, x, r);
    KidsAreNodes(t, x);
    ParentOfKids(t, x);
  }

  lemma ParentOfKids(t: Trie, x: int)
    requires Ok(t) && x in t.size && NodeOk(t, x)
    ensures forall y ::
              y in t.size && IsNode(t, y) ==> (t.parent[y] == TreeNode(x) <==> y == Kid(t, x, 0) || y == Kid(t, x, 1))
  {
    KidsAreNodes(t, x);
    forall y | y in t.size && IsNode(t, y)
      ensures t.parent[y] == TreeNode(x) <==> y == Kid(t, x, 0) || y == Kid(t, x, 1) {
      assert NodeOk(t, y);
    }
  }

  lemma ReplaceOk(t: Trie, x: int, r: int, s: word)
    requires Ok(t) && CanReplace(t, x, r, s)
    ensures Ok(Replace(t, x, r, s))
  {
    var t' := Replace(t, x, r, s);
    ReplaceLinks(t, x, r, s);
    ReplaceParents(t, x, r, s);
    forall y ensures NodeOk(t', y) {
      if y == r {
        ReplaceNew(t, x, r, s);
      } else if y in t.size && y != x {
        assert NodeOk(t, y);
        if t.parent[y] == TreeNode(x) {
          ReplaceKid(t, x, r, s, y);
        } else if t.parent[x] == TreeNode(y) {
          ReplaceParent(t, x, r, s, y);
        } else {
          ReplaceNode(t, x, r, s, y);
        }
      }
    }
    forall i: nat | i < NTREEBINS ensures RootOk(t', i) { assert RootOk(t, i); }
  }

  lemma ReplaceNew(t: Trie, x: int, r: int, s: word)
    requires Ok(t) && CanReplace(t, x, r, s)
    ensures NodeOk(Replace(t, x, r, s), r)
  {
    ReplaceParents(t, x, r, s);
    ReplaceNewParent(t, x, r, s);
    ReplaceNewKid(t, x, r, s, 0);
    ReplaceNewKid(t, x, r, s, 1);
  }

  lemma ReplaceNewParent(t: Trie, x: int, r: int, s: word)
    requires Ok(t) && CanReplace(t, x, r, s)
    ensures IsNode(Replace(t, x, r, s), r) && ParentOk(Replace(t, x, r, s), r)
  {
    ReplaceLinks(t, x, r, s);
    ReplaceParents(t, x, r, s);
    if t.parent[x].TreeNode? {
      var p := t.parent[x].node;
      assert NodeOk(t, p);
      PrefixShorter(s, t.size[x], Pos(t, p), Pos(t, x));
      BitRange(s, Pos(t, p));
    }
  }

  lemma ReplaceNewKid(t: Trie, x: int, r: int, s: word, bit: nat)
    requires Ok(t) && CanReplace(t, x, r, s) && bit <= 1
    ensures IsNode(Replace(t, x, r, s), r) && KidOk(Replace(t, x, r, s), r, bit)
  {
    ReplaceLinks(t, x, r, s);
    ReplaceParents(t, x, r, s);
    KidsAreNodes(t, x);
  }

  lemma ReplaceKid(t: Trie, x: int, r: int, s: word, y: int)
    requires Ok(t) && CanReplace(t, x, r, s) && y in t.size && y != x && NodeOk(t, y) && t.parent[y] == TreeNode(x)
    ensures NodeOk(Replace(t, x, r, s), y)
  {
    var t' := Replace(t, x, r, s);
    KidsAreNodes(t, y);
    ReplaceKidParent(t, x, r, s, y);
    ReplaceLinks(t, x, r, s);
    ReplaceParents(t, x, r, s);
    assert Same(t, t', y);
    assert Kid(t, y, 0) != x && Kid(t, y, 1) != x;
    KeepsKid(t, t', y, 0);
    KeepsKid(t, t', y, 1);
  }

  lemma ReplaceKidParent(t: Trie, x: int, r: int, s: word, y: int)
    requires Ok(t) && CanReplace(t, x, r, s) && y in t.size && y != x && NodeOk(t, y) && t.parent[y] == TreeNode(x)
    ensures IsNode(Replace(t, x, r, s), y) && ParentOk(Replace(t, x, r, s), y)
  {
    ReplaceLinks(t, x, r, s);
    ReplaceParents(t, x, r, s);
    assert Same(t, Replace(t, x, r, s), y);
    BitRange(t.size[y], Pos(t, x));
  }

  lemma ReplaceParent(t: Trie, x: int, r: int, s: word, y: int)
    requires Ok(t) && CanReplace(t, x, r, s) && y in t.size && y != x && NodeOk(t, y) && t.parent[x] == TreeNode(y)
    requires t.parent[y] != TreeNode(x)
    ensures NodeOk(Replace(t, x, r, s), y)
  {
    var t' := Replace(t, x, r, s);
    ReplaceLinks(t, x, r, s);
    ReplaceParents(t, x, r, s);
    KidsAreNodes(t, y);
    assert ParentOk(t', y) by {
      if t.parent[y].TreeNode? { KidsAreNodes(t, t.parent[y].node); }
      KeepsParent(t, t', y);
    }
    ReplaceParentKid(t, x, r, s, y, 0);
    ReplaceParentKid(t, x, r, s, y, 1);
  }

  lemma ReplaceParentKid(t: Trie, x: int, r: int, s: word, y: int, bit: nat)
    requires Ok(t) && CanReplace(t, x, r, s) && y in t.size && y != x && NodeOk(t, y) && t.parent[x] == TreeNode(y)
    requires t.parent[y] != TreeNode(x) && bit <= 1
    ensures IsNode(Replace(t, x, r, s), y) && KidOk(Replace(t, x, r, s), y, bit)
  {
    var t' := Replace(t, x, r, s);
    ReplaceLinks(t, x, r, s);
    ReplaceParents(t, x, r, s);
    KidsAreNodes(t, y);
    assert Same(t, t', y);
    if Kid(t, y, bit) == x { NewKidBit(t, x, s, y, bit); } else { KeepsKid(t, t', y, bit); }
  }

  /** A size that leads to the place of x has the bit that picks x below its parent y. */
  lemma NewKidBit(t: Trie, x: int, s: word, y: int, bit: nat)
    requires x in t.size && NodeOk(t, x) && NodeOk(t, y) && t.parent[x] == TreeNode(y) && bit <= 1
    requires y in t.size && Kid(t, y, bit) == x && OnPath(t, x, s)
    ensures BitAt(s, Pos(t, y)) == bit
  {
    PrefixShorter(s, t.size[x], Pos(t, y), Pos(t, x));
  }

  lemma ReplaceNode(t: Trie, x: int, r: int, s: word, y: int)
    requires Ok(t) && CanReplace(t, x, r, s) && y in t.size && y != x && NodeOk(t, y)
    requires t.parent[x] != TreeNode(y) && t.parent[y] != TreeNode(x)
    ensures NodeOk(Replace(t, x, r, s), y)
  {
    ReplaceLinks(t, x, r, s);
    ReplaceParents(t, x, r, s);
    KidsAreNodes(t, y);
    if t.parent[y].TreeNode? { KidsAreNodes(t, t.parent[y].node); }
    Unaffected(t, Replace(t, x, r, s), y);
  }
}
