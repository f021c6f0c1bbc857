/** The search for the best fitting chunk in the tree bins (tmalloc_large, tmalloc_small). */
module BestFit {
  import opened Words
  import opened TreeIndex
  import opened Tries
  import Bits

  /** The best node so far, or none: rsize is what it leaves over, or the negated request. */
  ghost predicate Candidate(t: Trie, nb: word, v: int, rsize: word) {
    if v == 0 then rsize == Sub(0, nb)
    else v in t.size && t.size[v] >= nb && rsize == t.size[v] - nb
  }

  ghost predicate NoBetter(t: Trie, v: int, y: int)
    requires y in t.size
  {
    v != 0 && v in t.size && t.size[v] <= t.size[y]
  }

  ghost predicate InBin(t: Trie, x: int, i: nat) {
    x in t.bin && t.bin[x] == i
  }

  ghost predicate In(t: Trie, x: int, y: int) {
    x != 0 && x in t.size && NodeOk(t, x) && Below(t, x, y)
  }

  /** Every node below x is large enough. */
  ghost predicate AllFit(t: Trie, nb: word, x: int) {
    x in t.size && NodeOk(t, x) && forall y :: y in t.size && Below(t, x, y) ==> t.size[y] >= nb
  }

  /** First loop: the path of nb is walked. What could still be better is below the current
      node, or in the deepest right subtree that was passed by. */
  ghost predicate Covered(t: Trie, nb: word, v: int, cur: int, rst: int) {
    forall y :: y in t.size && InBin(t, y, Index(nb)) && t.size[y] >= nb ==>
      NoBetter(t, v, y) || In(t, cur, y) || In(t, rst, y) || NoBetter(t, rst, y)
  }

  /** The subtree passed by holds larger sizes than nb and than everything still ahead. */
  ghost predicate Aside(t: Trie, nb: word, cur: int, rst: int) {
    rst != 0 ==>
      && AllFit(t, nb, rst) && t.bin[rst] == Index(nb)
      && forall y, z :: y in t.size && z in t.size && In(t, cur, z) && In(t, rst, y) ==> t.size[z] < t.size[y]
  }

  /** Second loop: what could still be better is below the current node. */
  ghost predicate Remaining(t: Trie, nb: word, v: int, cur: int) {
    forall y :: y in t.size && t.size[y] >= nb ==> NoBetter(t, v, y) || In(t, cur, y) || NoBetter(t, cur, y)
  }

  /** Comparing wrapped remainders prefers the node exactly when it fits, and fits better. */
  lemma TrialRemainder(t: Trie, nb: word, v: int, rsize: word, x: int)
    requires nb > 0 && Candidate(t, nb, v, rsize) && x in t.size
    ensures Sub(t.size[x], nb) < rsize <==> t.size[x] >= nb && (v == 0 || t.size[x] < t.size[v])
    ensures t.size[x] >= nb ==> Sub(t.size[x], nb) == t.size[x] - nb
  {
  }

  lemma BelowSplit(t: Trie, x: int, c: int, y: int, bit: nat)
    requires Tries.Ok(t) && x in t.size && NodeOk(t, x) && bit <= 1 && c == Kid(t, x, bit) && c != 0
    requires c in t.size && NodeOk(t, c) && Below(t, c, y)
    ensures Below(t, x, y) && BitAt(t.size[y], Pos(t, x)) == bit
  {
    KidsAreNodes(t, x);
    PrefixShorter(t.size[y], t.size[c], Pos(t, x), Pos(t, c));
  }

  /** One step of the walk along the bits of nb. */
  lemma WalkStep(t: Trie, nb: word, v: int, cur: int, rst: int, bit: nat)
    requires Tries.Ok(t) && Classed(t) && cur in t.size && NodeOk(t, cur) && OnPath(t, cur, nb)
    requires t.bin[cur] == Index(nb) && bit == BitAt(nb, Pos(t, cur))
    requires Covered(t, nb, v, cur, rst) && Aside(t, nb, cur, rst)
    requires t.size[cur] >= nb ==> NoBetter(t, v, cur)
    ensures bit <= 1
    ensures var rt, next := Kid(t, cur, 1), Kid(t, cur, bit);
            var rst' := if rt != 0 && rt != next then rt else rst;
            Covered(t, nb, v, next, rst') && Aside(t, nb, next, rst')
            && (next != 0 ==> next in t.size && NodeOk(t, next) && OnPath(t, next, nb)
                              && t.bin[next] == Index(nb) && t.depth[next] == t.depth[cur] + 1)
  {
    BitRange(nb, Pos(t, cur));
    KidsAreNodes(t, cur);
    WalkAside(t, nb, cur, rst, bit);
    WalkCovered(t, nb, v, cur, rst, bit);
  }

  lemma WalkAside(t: Trie, nb: word, cur: int, rst: int, bit: nat)
    requires Tries.Ok(t) && cur in t.size && NodeOk(t, cur) && OnPath(t, cur, nb)
    requires t.bin[cur] == Index(nb) && bit == BitAt(nb, Pos(t, cur)) && bit <= 1
    requires Aside(t, nb, cur, rst)
    ensures var rt, next := Kid(t, cur, 1), Kid(t, cur, bit);
            Aside(t, nb, next, if rt != 0 && rt != next then rt else rst)
  {
    var rt, next := Kid(t, cur, 1), Kid(t, cur, bit);
    KidsAreNodes(t, cur);
    if rt != 0 && rt != next {
      forall y | y in t.size && Below(t, rt, y) ensures t.size[y] >= nb {
        BelowSplit(t, cur, rt, y, 1);
        FirstDifference(nb, t.size[y], Pos(t, cur));
      }
      forall y, z | y in t.size && z in t.size && In(t, next, z) && In(t, rt, y) ensures t.size[z] < t.size[y] {
        BelowSplit(t, cur, rt, y, 1);
        BelowSplit(t, cur, next, z, 0);
        SubtreeOrder(t, cur, t.size[z], t.size[y]);
      }
    } else if rst != 0 {
      forall z | z in t.size && In(t, next, z) ensures In(t, cur, z) { BelowSplit(t, cur, next, z, bit); }
    }
  }

  lemma WalkCovered(t: Trie, nb: word, v: int, cur: int, rst: int, bit: nat)
    requires Tries.Ok(t) && cur in t.size && NodeOk(t, cur) && OnPath(t, cur, nb)
    requires t.bin[cur] == Index(nb) && bit == BitAt(nb, Pos(t, cur)) && bit <= 1
    requires Covered(t, nb, v, cur, rst) && Aside(t, nb, cur, rst)
    requires t.size[cur] >= nb ==> NoBetter(t, v, cur)
    ensures var rt, next := Kid(t, cur, 1), Kid(t, cur, bit);
            Covered(t, nb, v, next, if rt != 0 && rt != next then rt else rst)
  {
    var rt, next := Kid(t, cur, 1), Kid(t, cur, bit);
    var rst' := if rt != 0 && rt != next then rt else rst;
    KidsAreNodes(t, cur);
    forall y | y in t.size && InBin(t, y, Index(nb)) && t.size[y] >= nb
      ensures NoBetter(t, v, y) || In(t, next, y) || In(t, rst', y) || NoBetter(t, rst', y)
    {
      if !NoBetter(t, v, y) {
        if In(t, cur, y) {
          if y != cur {
            Descend(t, cur, y);
            if bit == 1 && BitAt(t.size[y], Pos(t, cur)) == 0 { FirstDifference(t.size[y], nb, Pos(t, cur)); }
          }
        } else if rst' != rst {
          BelowSelf(t, rt);
          BelowSplit(t, cur, rt, rt, 1);
          BelowSelf(t, rst);
          assert In(t, cur, rt);
          if In(t, rst, y) { assert t.size[rt] < t.size[y]; }
        }
      }
    }
  }

  lemma BelowSelf(t: Trie, x: int)
    requires Tries.Ok(t) && x in t.size && x != 0
    ensures NodeOk(t, x) && In(t, x, x)
  {
    assert NodeOk(t, x);
  }

  /** One step of the descent through leftmost children. */
  lemma LeftmostStep(t: Trie, nb: word, v: int, cur: int)
    requires Tries.Ok(t) && cur in t.size && cur != 0 && NodeOk(t, cur)
    requires Remaining(t, nb, v, cur)
    requires t.size[cur] >= nb ==> NoBetter(t, v, cur)
    requires (v in t.size && v != 0 && t.size[v] == nb) || AllFit(t, nb, cur)
    ensures var next := if Kid(t, cur, 0) != 0 then Kid(t, cur, 0) else Kid(t, cur, 1);
            && Remaining(t, nb, v, next)
            && (next != 0 ==>
                  next in t.size && NodeOk(t, next) && t.depth[next] == t.depth[cur] + 1 && t.bin[next] == t.bin[cur])
            && (next != 0 ==> (v in t.size && v != 0 && t.size[v] == nb) || AllFit(t, nb, next))
  {
    var next := if Kid(t, cur, 0) != 0 then Kid(t, cur, 0) else Kid(t, cur, 1);
    var nbit := if Kid(t, cur, 0) != 0 then 0 else 1;
    KidsAreNodes(t, cur);
    forall y | y in t.size && t.size[y] >= nb ensures NoBetter(t, v, y) || In(t, next, y) || NoBetter(t, next, y) {
      if !NoBetter(t, v, y) && In(t, cur, y) && y != cur {
        Descend(t, cur, y);
        if next != 0 && BitAt(t.size[y], Pos(t, cur)) != nbit {
          BelowSelf(t, next);
          BelowSplit(t, cur, next, next, nbit);
          SubtreeOrder(t, cur, t.size[next], t.size[y]);
        }
      }
    }
    if next != 0 && AllFit(t, nb, cur) {
      forall y | y in t.size && Below(t, next, y) ensures t.size[y] >= nb { BelowSplit(t, cur, next, y, nbit); }
    }
  }

  /** Nothing in the bin of nb fits: the next nonempty bin holds the best fit. */
  lemma NextBin(t: Trie, nb: word, treemap: word)
    requires Tries.Ok(t) && Classed(t) && nb >= MIN_LARGE_SIZE
    requires forall i: nat :: i < NTREEBINS ==> (Bits.Has(treemap, i) <==> t.treebins[i] != 0)
    requires Covered(t, nb, 0, 0, 0)
    ensures Index(nb) < NTREEBINS
    ensures var left := Bits.And(Bits.LeftBits(Bits.Bit(Index(nb))), treemap);
            if left == 0 then Remaining(t, nb, 0, 0)
            else
              Bits.LeastBit(left) != 0 &&
              var i := Bits.Ctz(Bits.LeastBit(left));
              i < NTREEBINS && var r := t.treebins[i];
              r in t.size && NodeOk(t, r) && r != 0 && Remaining(t, nb, 0, r) && AllFit(t, nb, r)
  {
    IndexRange(nb);
    Bits.NextSetBit(treemap, Index(nb));
    var left := Bits.And(Bits.LeftBits(Bits.Bit(Index(nb))), treemap);
    forall y | y in t.size && t.size[y] >= nb
      ensures NodeOk(t, y) && t.bin[y] > Index(nb) && Bits.Has(treemap, t.bin[y]) {
      BelowRoot(t, y);
      if t.bin[y] < Index(nb) { IndexMonotone(t.size[y], nb); }
    }
    if left != 0 {
      var i := Bits.Ctz(Bits.LeastBit(left));
      var r := t.treebins[i];
      assert RootOk(t, i);
      BelowSelf(t, r);
      forall y | y in t.size && t.size[y] >= nb ensures In(t, r, y) || NoBetter(t, r, y) {
        BelowRoot(t, y);
        if t.bin[y] > i { IndexMonotone(t.size[r], t.size[y]); }
      }
      forall y | y in t.size && Below(t, r, y) ensures t.size[y] >= nb { IndexMonotone(nb, t.size[y]); }
    }
  }

  /** What was found in the bin of nb is better than anything in a later bin. */
  lemma OwnBin(t: Trie, nb: word, v: int, cur: int)
    requires Tries.Ok(t) && Classed(t) && nb >= MIN_LARGE_SIZE
    requires Covered(t, nb, v, 0, cur)
    requires v != 0 || cur != 0
    requires v != 0 ==> v in t.size && NodeOk(t, v) && t.bin[v] == Index(nb)
    requires cur != 0 ==> cur in t.size && NodeOk(t, cur) && t.bin[cur] == Index(nb)
    ensures Remaining(t, nb, v, cur)
  {
    forall y | y in t.size && t.size[y] >= nb ensures NoBetter(t, v, y) || In(t, cur, y) || NoBetter(t, cur, y) {
      BelowRoot(t, y);
      if t.bin[y] < Index(nb) { IndexMonotone(t.size[y], nb); }
      if t.bin[y] > Index(nb) {
        if v != 0 { IndexMonotone(t.size[v], t.size[y]); } else { IndexMonotone(t.size[cur], t.size[y]); }
      }
    }
  }

  /** The first nonempty bin holds the smallest chunks of all. */
  lemma FirstBin(t: Trie, nb: word, treemap: word)
    requires Tries.Ok(t) && Classed(t) && nb < MIN_LARGE_SIZE && treemap != 0
    requires forall i: nat :: i < NTREEBINS ==> (Bits.Has(treemap, i) <==> t.treebins[i] != 0)
    ensures Bits.LeastBit(treemap) != 0
    ensures var i := Bits.Ctz(Bits.LeastBit(treemap));
            i < NTREEBINS && var r := t.treebins[i];
            r in t.size && NodeOk(t, r) && r != 0 && t.size[r] > nb && Remaining(t, nb, r, r) && AllFit(t, nb, r)
  {
    Bits.LowestSetBit(treemap);
    var i := Bits.Ctz(Bits.LeastBit(treemap));
    var r := t.treebins[i];
    assert RootOk(t, i);
    BelowSelf(t, r);
    forall y | y in t.size && t.size[y] >= nb ensures NoBetter(t, r, y) || In(t, r, y) {
      BelowRoot(t, y);
      if t.bin[y] != i {
        assert Bits.Has(treemap, t.bin[y]);
        IndexMonotone(t.size[r], t.size[y]);
      }
    }
  }
}
