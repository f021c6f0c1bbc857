/** The segment of the user heap as a row of chunks with boundary tags: sizes and in-use bits in
    the head words, the size of a free chunk again in the foot behind it. */
module Tiling {
  import opened Words
  import opened Memory

  const MIN_CHUNK_SIZE: nat := 16

  /** The head word of a chunk: its size with the cinuse and pinuse bits. */
  datatype Head = Head(size: word, cinuse: bool, pinuse: bool)

  function HeadAt(m: map<int, Head>, x: int): Head {
    if x in m then m[x] else Head(0, false, false)
  }

  /** The segment [base, end): chunks are the addresses of its chunks, prev the chunk before each. */
  datatype Heap = Heap(head: map<int, Head>, foot: map<int, int>, base: int, end: int, top: int,
                       chunks: set<int>, prev: map<int, int>)

  ghost function Size(h: Heap, x: int): word {
    HeadAt(h.head, x).size
  }

  ghost function Next(h: Heap, x: int): int {
    x + Size(h, x)
  }

  ghost predicate InUse(h: Heap, x: int) {
    HeadAt(h.head, x).cinuse
  }

  ghost function Prev(h: Heap, x: int): int {
    At(h.prev, x)
  }

  ghost predicate Free(h: Heap, x: int) {
    x in h.chunks && !InUse(h, x) && x != h.top
  }

  /** What the file's checkers ask of one chunk and its neighbours. */
  ghost predicate ChunkOk(h: Heap, x: int) {
    x in h.chunks ==>
      && x in h.head && h.base <= x <= h.top && x % 8 == 0 && Size(h, x) % 8 == 0
      && (if x == h.top then Next(h, x) == h.end && !InUse(h, x)
          else Size(h, x) >= MIN_CHUNK_SIZE && Next(h, x) in h.chunks && Prev(h, Next(h, x)) == x)
      && (x != h.base ==> Prev(h, x) in h.chunks && Prev(h, x) != h.top && Next(h, Prev(h, x)) == x)
      && (HeadAt(h.head, x).pinuse <==> x == h.base || InUse(h, Prev(h, x)))
      && (!InUse(h, x) ==> HeadAt(h.head, x).pinuse)
      && (!InUse(h, x) && x != h.top ==> At(h.foot, Next(h, x)) == Size(h, x))
  }

  ghost predicate Ok(h: Heap) {
    && h.base in h.chunks && h.top in h.chunks && 0 < h.base && h.end < WORD
    && forall x {:trigger ChunkOk(h, x)} :: ChunkOk(h, x)
  }

  /** What callers of the allocator hold: their chunks with the sizes. */
  ghost function Allocated(h: Heap): map<int, word> {
    map x | x in h.chunks && InUse(h, x) :: Size(h, x)
  }

  /** Chunks do not overlap. */
  lemma {:induction false} Disjoint(h: Heap, x: int, y: int)
    requires Ok(h) && x in h.chunks && y in h.chunks && x < y
    ensures Next(h, x) <= y && x != h.top
    decreases y
  {
    assert ChunkOk(h, x) && ChunkOk(h, y);
    var p := Prev(h, y);
    assert ChunkOk(h, p);
    if p < x {
      Disjoint(h, p, x);
    } else if x < p {
      Disjoint(h, x, p);
    }
  }

  ghost predicate Frame(h: Heap, h': Heap) {
    h'.base == h.base && h'.end == h.end
  }

  /** set_inuse_and_pinuse(M, p, s) on a free chunk. */
  lemma Occupy(h: Heap, p: int) returns (h': Heap)
    requires Ok(h) && Free(h, p)
    ensures Ok(h') && h'.chunks == h.chunks && h'.top == h.top && Frame(h, h')
    ensures var s, n := Size(h, p), Next(h, p);
            h'.head == h.head[p := Head(s, true, true)][n := HeadAt(h.head, n).(pinuse := true)] && h'.foot == h.foot
    ensures Allocated(h') == Allocated(h)[p := Size(h, p)]
    ensures forall x :: Free(h', x) <==> Free(h, x) && x != p
  {
    var s, n := Size(h, p), Next(h, p);
    h' := h.(head := h.head[p := Head(s, true, true)][n := HeadAt(h.head, n).(pinuse := true)]);
    assert ChunkOk(h, p) && ChunkOk(h, n);
    forall x ensures ChunkOk(h', x) {
      assert ChunkOk(h, x);
      if x in h.chunks && x != h.base { assert ChunkOk(h, Prev(h, x)); }
    }
  }

  ghost function Carved(h: Heap, p: int, nb: word): Heap
    requires nb <= Size(h, p)
  {
    var rsize, n, r := Size(h, p) - nb, Next(h, p), p + nb;
    h.(head := h.head[p := Head(nb, true, true)][r := Head(rsize, false, true)], foot := h.foot[n := rsize],
       chunks := h.chunks + {r}, prev := h.prev[r := p][n := r])
  }

  ghost predicate CanCarve(h: Heap, p: int, nb: word) {
    Ok(h) && Free(h, p) && nb % 8 == 0 && nb >= MIN_CHUNK_SIZE && nb + MIN_CHUNK_SIZE <= Size(h, p)
  }

  lemma CarvedOk(h: Heap, p: int, nb: word)
    requires CanCarve(h, p, nb)
    ensures Ok(Carved(h, p, nb)) && p + nb !in h.chunks
  {
    assert ChunkOk(h, p) && ChunkOk(h, Next(h, p));
    if p + nb in h.chunks { Disjoint(h, p, p + nb); }
    forall x ensures ChunkOk(Carved(h, p, nb), x) {
      if x == p || x == p + nb || x == Next(h, p) {
        CarvedParts(h, p, nb);
      } else if x in h.chunks {
        CarvedOther(h, p, nb, x);
      }
    }
  }

  lemma CarvedParts(h: Heap, p: int, nb: word)
    requires CanCarve(h, p, nb) && p + nb !in h.chunks
    ensures var h' := Carved(h, p, nb); ChunkOk(h', p) && ChunkOk(h', p + nb) && ChunkOk(h', Next(h, p))
  {
    assert ChunkOk(h, p) && ChunkOk(h, Next(h, p));
    Multiples(p, nb);
    Multiples(Size(h, p), nb);
    assert ChunkOk(Carved(h, p, nb), p) by {
      if p != h.base { assert ChunkOk(h, Prev(h, p)); }
    }
    assert ChunkOk(Carved(h, p, nb), p + nb);
    assert ChunkOk(Carved(h, p, nb), Next(h, p)) by {
      if Next(h, p) != h.top { assert ChunkOk(h, Next(h, Next(h, p))); }
    }
  }

  lemma Multiples(a: int, b: int)
    requires a % 8 == 0 && b % 8 == 0
    ensures (a + b) % 8 == 0 && (a - b) % 8 == 0
  {
  }

  lemma CarvedOther(h: Heap, p: int, nb: word, x: int)
    requires CanCarve(h, p, nb) && p + nb !in h.chunks
    requires x in h.chunks && x != p && x != Next(h, p)
    ensures ChunkOk(Carved(h, p, nb), x)
  {
    assert ChunkOk(h, x) && ChunkOk(h, p) && ChunkOk(h, Next(h, x));
    if x != h.base { assert ChunkOk(h, Prev(h, x)); }
  }

  /** A free chunk split: its front in use, the rest free. */
  lemma Carve(h: Heap, p: int, nb: word) returns (h': Heap)
    requires CanCarve(h, p, nb)
    ensures Ok(h') && Frame(h, h') && h'.chunks == h.chunks + {p + nb} && h'.top == h.top
    ensures p + nb !in h.chunks
    ensures var rsize := Size(h, p) - nb;
            h'.head == h.head[p := Head(nb, true, true)][p + nb := Head(rsize, false, true)]
            && h'.foot == h.foot[Next(h, p) := rsize]
    ensures Allocated(h') == Allocated(h)[p := nb]
    ensures forall x :: Free(h', x) <==> (Free(h, x) && x != p) || x == p + nb
  {
    CarvedOk(h, p, nb);
    h' := Carved(h, p, nb);
  }

  /** The front of the top chunk taken. */
  lemma CarveTop(h: Heap, nb: word) returns (h': Heap)
    requires Ok(h) && nb % 8 == 0 && nb >= MIN_CHUNK_SIZE && nb < Size(h, h.top)
    ensures Ok(h') && h'.chunks == h.chunks + {h.top + nb} && h'.top == h.top + nb && Frame(h, h')
    ensures h.top + nb !in h.chunks
    ensures h'.head == h.head[h.top + nb := Head(Size(h, h.top) - nb, false, true)][h.top := Head(nb, true, true)]
            && h'.foot == h.foot
    ensures Allocated(h') == Allocated(h)[h.top := nb]
    ensures forall x :: Free(h', x) <==> Free(h, x)
  {
    var p := h.top;
    var r := p + nb;
    h' := h.(head := h.head[r := Head(Size(h, p) - nb, false, true)][p := Head(nb, true, true)], top := r,
             chunks := h.chunks + {r}, prev := h.prev[r := p]);
    assert ChunkOk(h, p) && ChunkOk(h, r);
    forall x ensures ChunkOk(h', x) {
      assert ChunkOk(h, x);
      if x in h.chunks && x != h.base { assert ChunkOk(h, Prev(h, x)); }
    }
  }

  // ---- freeing: p is in use; a free chunk before it is joined to it, and so is a free chunk behind it

  /** b - a, the size of a chunk from a to b. */
  ghost function Span(a: int, b: int): word {
    if 0 <= b - a < WORD then b - a else 0
  }

  /** Where the chunk that p becomes part of starts. */
  ghost function Front(h: Heap, p: int): int {
    if HeadAt(h.head, p).pinuse then p else Prev(h, p)
  }

  lemma FrontOf(h: Heap, p: int)
    requires Ok(h) && p in h.chunks && InUse(h, p)
    ensures var q := Front(h, p);
            && q in h.chunks && ChunkOk(h, q) && q <= p && q != h.top && HeadAt(h.head, q).pinuse
            && (q != p ==> Free(h, q) && Next(h, q) == p && q < p && q == p - At(h.foot, p))
    ensures ChunkOk(h, p) && p != h.top && Next(h, p) in h.chunks && ChunkOk(h, Next(h, p)) && Next(h, p) > p
            && Next(h, p) != h.base
  {
    assert ChunkOk(h, p);
    assert ChunkOk(h, Next(h, p));
    assert ChunkOk(h, Front(h, p));
  }

  /** The chunks from q up to e made into one free chunk. */
  ghost function Joined(h: Heap, q: int, e: int, gone: set<int>): Heap {
    h.(head := h.head[e := HeadAt(h.head, e).(pinuse := false)][q := Head(Span(q, e), false, true)],
       foot := h.foot[e := e - q], chunks := h.chunks - gone, prev := h.prev[e := q])
  }

  ghost predicate CanJoin(h: Heap, q: int, e: int, gone: set<int>) {
    && Ok(h) && q in h.chunks && e in h.chunks && q < e && InUse(h, e)
    && ChunkOk(h, q) && ChunkOk(h, e) && HeadAt(h.head, q).pinuse
    && forall x :: x in gone <==> x in h.chunks && q < x < e
  }

  lemma JoinedOk(h: Heap, q: int, e: int, gone: set<int>)
    requires CanJoin(h, q, e, gone)
    ensures Ok(Joined(h, q, e, gone)) && Span(q, e) == e - q
  {
    Disjoint(h, q, e);
    assert ChunkOk(h, h.top);
    forall x ensures ChunkOk(Joined(h, q, e, gone), x) {
      assert ChunkOk(h, x);
      if x in h.chunks && x !in gone && x != q && x != e { JoinedOther(h, q, e, gone, x); }
    }
  }

  lemma JoinedOther(h: Heap, q: int, e: int, gone: set<int>, x: int)
    requires CanJoin(h, q, e, gone) && x in h.chunks && x !in gone && x != q && x != e
    ensures ChunkOk(Joined(h, q, e, gone), x)
  {
    assert ChunkOk(h, x);
    if x < q { Disjoint(h, x, q); }
    if x != h.base {
      var z := Prev(h, x);
      assert ChunkOk(h, z);
      if q < z < e { Disjoint(h, z, e); }
      if z == q { Disjoint(h, q, e); }
    }
    if x != h.top { assert ChunkOk(h, Next(h, x)); }
  }

  /** The chunk behind is in use. */
  lemma ReleaseBeforeUsed(h: Heap, p: int) returns (h': Heap)
    requires Ok(h) && p in h.chunks && InUse(h, p) && InUse(h, Next(h, p))
    ensures Ok(h') && Frame(h, h') && h'.top == h.top
    ensures var q, n := Front(h, p), Next(h, p);
            && Span(q, n) == n - q && h'.chunks == (if q == p then h.chunks else h.chunks - {p})
            && h'.head == h.head[n := HeadAt(h.head, n).(pinuse := false)][q := Head(Span(q, n), false, true)]
            && h'.foot == h.foot[n := n - q]
    ensures Allocated(h') == Allocated(h) - {p}
    ensures forall x :: Free(h', x) <==> Free(h, x) || x == Front(h, p)
  {
    var q, n := Front(h, p), Next(h, p);
    var gone := if q == p then {} else {p};
    FrontOf(h, p);
    forall x | x in h.chunks && q < x < n ensures x in gone { Between(h, p, x); }
    JoinedOk(h, q, n, gone);
    h' := Joined(h, q, n, gone);
  }

  /** No chunk between the front and what is behind p, but p itself. */
  lemma Between(h: Heap, p: int, x: int)
    requires Ok(h) && p in h.chunks && InUse(h, p) && x in h.chunks && Front(h, p) < x < Next(h, p)
    ensures x == p && Front(h, p) != p
  {
    FrontOf(h, p);
    Disjoint(h, Front(h, p), x);
    if p < x { Disjoint(h, p, x); }
  }

  /** The chunk behind is free, and not the top. */
  lemma ReleaseBeforeFree(h: Heap, p: int) returns (h': Heap)
    requires Ok(h) && p in h.chunks && InUse(h, p) && Free(h, Next(h, p))
    ensures Ok(h') && Frame(h, h') && h'.top == h.top
    ensures var q, n := Front(h, p), Next(h, p);
            var e := Next(h, n);
            && Span(q, e) == e - q && h'.chunks == (if q == p then h.chunks else h.chunks - {p}) - {n}
            && h'.head == h.head[q := Head(Span(q, e), false, true)] && h'.foot == h.foot[e := e - q]
    ensures Allocated(h') == Allocated(h) - {p}
    ensures forall x :: Free(h', x) <==> (Free(h, x) && x != Next(h, p)) || x == Front(h, p)
  {
    var q, n := Front(h, p), Next(h, p);
    var e := Next(h, n);
    var gone := (if q == p then {} else {p}) + {n};
    FrontOf(h, p);
    assert ChunkOk(h, e);
    forall x | x in h.chunks && q < x < e ensures x in gone {
      if x < n { Between(h, p, x); }
      if n < x { Disjoint(h, n, x); }
    }
    JoinedOk(h, q, e, gone);
    h' := Joined(h, q, e, gone);
    assert h.head[e := HeadAt(h.head, e).(pinuse := false)] == h.head;
  }

  /** The chunk behind is the top: p joins it. */
  lemma ReleaseBeforeTop(h: Heap, p: int) returns (h': Heap)
    requires Ok(h) && p in h.chunks && InUse(h, p) && Next(h, p) == h.top
    ensures var q := Front(h, p);
            && Span(q, h.end) == h.end - q && Ok(h') && Frame(h, h') && h'.top == q
            && h'.chunks == (if q == p then h.chunks else h.chunks - {p}) - {h.top}
            && h'.head == h.head[q := Head(Span(q, h.end), false, true)] && h'.foot == h.foot
    ensures Allocated(h') == Allocated(h) - {p}
    ensures forall x :: Free(h', x) <==> Free(h, x) && x != Front(h, p)
  {
    var q := Front(h, p);
    FrontOf(h, p);
    h' := h.(head := h.head[q := Head(Span(q, h.end), false, true)],
             top := q, chunks := (if q == p then h.chunks else h.chunks - {p}) - {h.top});
    assert ChunkOk(h, h.top);
    forall x ensures ChunkOk(h', x) {
      assert ChunkOk(h, x);
      if x in h'.chunks && x != q { BelowFront(h, p, x); }
    }
  }

  /** With p before the top, every chunk that stays is before the front or is the front. */
  lemma BelowFront(h: Heap, p: int, x: int)
    requires Ok(h) && p in h.chunks && InUse(h, p) && Next(h, p) == h.top
    requires x in h.chunks && x != h.top && x != p && x != Front(h, p)
    ensures x < Front(h, p) && Next(h, x) <= Front(h, p) && ChunkOk(h, x)
    ensures x != h.base ==> Prev(h, x) < x
  {
    assert ChunkOk(h, x);
    FrontOf(h, p);
    var q := Front(h, p);
    if x < q {
      Disjoint(h, x, q);
    } else {
      Between(h, p, x);
    }
    if x != h.base { assert ChunkOk(h, Prev(h, x)); }
  }
}
