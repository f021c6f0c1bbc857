/** Circular doubly linked lists of free chunks: the fd/bk links of the user heap. Every list
    has one owner, the small bin's header or the tree node that the others hang behind.
    owner and rank are bookkeeping for the proofs: following bk from a chunk lowers its rank
    until the owner, whose rank is zero, is reached. */
module Rings {
  import opened Memory

  datatype Ring = Ring(fd: map<int, int>, bk: map<int, int>, owner: map<int, int>, rank: map<int, nat>)

  ghost predicate Linked(r: Ring, x: int)
    requires x in r.owner
  {
    && At(r.fd, x) in r.owner && At(r.bk, x) in r.owner
    && At(r.bk, At(r.fd, x)) == x && At(r.fd, At(r.bk, x)) == x
    && r.owner[At(r.fd, x)] == r.owner[x] && r.owner[At(r.bk, x)] == r.owner[x]
  }

  ghost predicate Ranked(r: Ring, x: int)
    requires x in r.owner
  {
    && x in r.rank
    && r.owner[x] in r.owner && r.owner[r.owner[x]] == r.owner[x]
    && (r.rank[x] == 0 <==> r.owner[x] == x)
    && (r.owner[x] != x ==> At(r.bk, x) in r.rank && r.rank[At(r.bk, x)] < r.rank[x])
  }

  ghost predicate Good(r: Ring, x: int) {
    x in r.owner ==> Linked(r, x) && Ranked(r, x)
  }

  ghost predicate Ok(r: Ring) {
    forall x {:trigger Good(r, x)} :: Good(r, x)
  }

  ghost predicate Owns(r: Ring, o: int) {
    o in r.owner && r.owner[o] == o
  }

  /** A list of its own: X->fd = X->bk = X. */
  ghost function Alone(r: Ring, x: int): Ring {
    Ring(r.fd[x := x], r.bk[x := x], r.owner[x := x], r.rank[x := 0])
  }

  ghost function Raised(rank: map<int, nat>): map<int, nat> {
    map y | y in rank :: if rank[y] == 0 then 0 else rank[y] + 1
  }

  /** x linked in behind the owner o. */
  ghost function InsertAfter(r: Ring, o: int, x: int): Ring {
    var f := At(r.fd, o);
    Ring(r.fd[o := x][x := f], r.bk[f := x][x := o], r.owner[x := o], Raised(r.rank)[x := 1])
  }

  /** x unlinked: F->bk = B, B->fd = F. */
  ghost function Remove(r: Ring, x: int): Ring {
    var f, b := At(r.fd, x), At(r.bk, x);
    Ring(r.fd[b := f], r.bk[f := b], r.owner - {x}, r.rank)
  }

  /** The owner x unlinked and the chunk before it made the owner instead. */
  ghost function Promote(r: Ring, x: int): Ring {
    var f, b := At(r.fd, x), At(r.bk, x);
    Ring(r.fd[b := f], r.bk[f := b],
         map y | y in r.owner && y != x :: if r.owner[y] == x then b else r.owner[y],
         r.rank[b := 0])
  }

  /** A list that consists of the owner alone goes away without any write. */
  ghost function Drop(r: Ring, x: int): Ring {
    r.(owner := r.owner - {x})
  }

  lemma AloneOk(r: Ring, x: int)
    requires Ok(r) && x !in r.owner
    ensures Ok(Alone(r, x))
  {
    var r' := Alone(r, x);
    forall y ensures Good(r', y) { assert Good(r, y); }
  }

  lemma InsertAfterOk(r: Ring, o: int, x: int)
    requires Ok(r) && Owns(r, o) && x !in r.owner
    ensures Ok(InsertAfter(r, o, x))
  {
    var r' := InsertAfter(r, o, x);
    assert Good(r, o);
    assert Good(r, At(r.fd, o));
    forall y ensures Good(r', y) {
      assert Good(r, y);
    }
  }

  lemma RemoveOk(r: Ring, x: int)
    requires Ok(r) && x in r.owner && r.owner[x] != x
    ensures Ok(Remove(r, x))
  {
    var r' := Remove(r, x);
    assert Good(r, x);
    assert Good(r, At(r.fd, x));
    assert Good(r, At(r.bk, x));
    forall y ensures Good(r', y) {
      assert Good(r, y);
    }
  }

  lemma PromoteOk(r: Ring, x: int)
    requires Ok(r) && Owns(r, x) && At(r.bk, x) != x
    ensures Ok(Promote(r, x))
  {
    var r' := Promote(r, x);
    assert Good(r, x);
    assert Good(r, At(r.fd, x));
    assert Good(r, At(r.bk, x));
    forall y ensures Good(r', y) {
      assert Good(r, y);
      if y in r.owner { assert Good(r, r.owner[y]); }
    }
  }

  lemma DropOk(r: Ring, x: int)
    requires Ok(r) && Owns(r, x) && At(r.bk, x) == x
    ensures Ok(Drop(r, x))
  {
    var r' := Drop(r, x);
    forall y ensures Good(r', y) {
      assert Good(r, y);
      assert Good(r, x);
      if y in r.owner && y != x && r.owner[y] == x { OnlyOwner(r, x, y); }
    }
  }

  /** An owner that is its own neighbour owns nothing else. */
  lemma {:induction false} OnlyOwner(r: Ring, x: int, y: int)
    requires Ok(r) && Owns(r, x) && At(r.bk, x) == x
    requires y in r.owner && r.owner[y] == x
    ensures y == x
    decreases if y in r.rank then r.rank[y] else 0
  {
    assert Good(r, x);
    assert Good(r, y);
    if y != x {
      assert Good(r, At(r.bk, y));
      OnlyOwner(r, x, At(r.bk, y));
    }
  }

  /** Links of chunks that no list owns do not matter. */
  lemma StaleLinks(r: Ring, r': Ring)
    requires Ok(r) && r'.owner == r.owner && r'.rank == r.rank
    requires forall x :: x in r.owner ==> At(r'.fd, x) == At(r.fd, x) && At(r'.bk, x) == At(r.bk, x)
    ensures Ok(r')
  {
    forall y ensures Good(r', y) { assert Good(r, y); }
  }

  /** Equal neighbours: the list is the owner and this one chunk. */
  lemma SameNeighbours(r: Ring, x: int)
    requires Ok(r) && x in r.owner && r.owner[x] != x && At(r.fd, x) == At(r.bk, x)
    ensures At(r.fd, x) == r.owner[x]
  {
    assert Good(r, x);
    assert Good(r, At(r.fd, x));
  }

  /** Unlinking the only chunk of a list and its owner with it, with no write at all. */
  ghost function DropPair(r: Ring, x: int): Ring
    requires x in r.owner
  {
    r.(owner := r.owner - {x, r.owner[x]})
  }

  lemma DropPairOk(r: Ring, x: int)
    requires Ok(r) && x in r.owner && r.owner[x] != x && At(r.fd, x) == At(r.bk, x)
    ensures Ok(DropPair(r, x))
  {
    var o := r.owner[x];
    assert Good(r, x) && Good(r, o);
    SameNeighbours(r, x);
    RemoveOk(r, x);
    var r1 := Remove(r, x);
    DropOk(r1, o);
    var r2 := Drop(r1, o);
    forall y | y in r2.owner ensures At(r2.fd, y) == At(r.fd, y) && At(r2.bk, y) == At(r.bk, y) {}
    StaleLinks(r2, DropPair(r, x).(owner := r2.owner));
    assert DropPair(r, x).owner == r2.owner;
  }
}
