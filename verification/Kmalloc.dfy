/** The kernel heap: chunks tile it from start to end on a doubly linked list; requests take the
    first chunk that fits, released chunks merge with their neighbours. */
module Kmalloc {
  const KUNIT: int := 16
  const KMALLOC_STATE_FREE := 0xa1a1a1a1
  const KMALLOC_STATE_USED := 0xbfbfbfbf

  /** A chunk header. */
  datatype Chunk = Chunk(state: int, length: int, next: int, prev: int)

  /** A chunk as a stretch of the heap. */
  datatype Piece = Piece(at: int, length: int, free: bool)

  /** The pieces follow one another without gaps, in multiples of the unit. */
  ghost predicate Tiles(ps: seq<Piece>) {
    && |ps| > 0 && ps[0].at > 0
    && (forall i :: 0 <= i < |ps| ==> ps[i].length > 0 && ps[i].length % KUNIT == 0)
    && (forall i {:trigger TileAt(ps, i)} :: TileAt(ps, i))
  }

  /** No two neighbours are free. */
  ghost predicate Apart(ps: seq<Piece>) {
    forall i {:trigger ApartAt(ps, i)} :: ApartAt(ps, i)
  }

  ghost predicate TileAt(ps: seq<Piece>, i: int) {
    0 <= i < |ps| - 1 ==> ps[i].at + ps[i].length == ps[i + 1].at
  }

  ghost predicate ApartAt(ps: seq<Piece>, i: int) {
    0 <= i < |ps| - 1 ==> !(ps[i].free && ps[i + 1].free)
  }

  ghost predicate Ok(ps: seq<Piece>) {
    Tiles(ps) && Apart(ps)
  }

  function End(ps: seq<Piece>): int
    requires |ps| > 0
  {
    ps[|ps| - 1].at + ps[|ps| - 1].length
  }

  lemma {:induction false} Before(ps: seq<Piece>, i: nat, j: nat)
    requires Tiles(ps) && i < j < |ps|
    ensures ps[i].at + ps[i].length <= ps[j].at
  {
    if i < j - 1 {
      Before(ps, i, j - 1);
    }
    assert TileAt(ps, j - 1);
  }

  lemma Distinct(ps: seq<Piece>)
    requires Tiles(ps)
    ensures forall i, j :: 0 <= i < |ps| && 0 <= j < |ps| && i != j ==> ps[i].at != ps[j].at
    ensures forall i :: 0 <= i < |ps| ==> ps[0].at <= ps[i].at
  {
    forall i, j | 0 <= i < j < |ps| ensures ps[i].at < ps[j].at { Before(ps, i, j); }
  }

  // ---- what the operations do to the pieces

  function RoundUp(length: nat): nat {
    (if length % KUNIT != 0 then length + (KUNIT - length % KUNIT) else length) + KUNIT
  }

  /** Piece i cut in two. */
  function Split(ps: seq<Piece>, i: nat, length: int): seq<Piece>
    requires i < |ps|
  {
    ps[..i] + [Piece(ps[i].at, length, ps[i].free), Piece(ps[i].at + length, ps[i].length - length, true)] + ps[i + 1..]
  }

  function Marked(ps: seq<Piece>, i: nat, free: bool): seq<Piece>
    requires i < |ps|
  {
    ps[i := ps[i].(free := free)]
  }

  /** Piece i together with its successor. */
  function Joined(ps: seq<Piece>, i: nat): seq<Piece>
    requires i + 1 < |ps|
  {
    ps[..i] + [Piece(ps[i].at, ps[i].length + ps[i + 1].length, ps[i].free)] + ps[i + 2..]
  }

  function Taken(ps: seq<Piece>, i: nat, length: int): seq<Piece>
    requires i < |ps|
  {
    Marked(if ps[i].length - length > 2 * KUNIT then Split(ps, i, length) else ps, i, false)
  }

  function Merged(ps: seq<Piece>, i: nat): seq<Piece>
    requires i < |ps|
  {
    if ps[i].free && i + 1 < |ps| && ps[i + 1].free then Joined(ps, i) else ps
  }

  function Released(ps: seq<Piece>, i: nat): seq<Piece>
    requires i < |ps|
  {
    var ps1 := Merged(Marked(ps, i, true), i);
    if i > 0 then Merged(ps1, i - 1) else ps1
  }

  // ---- the list in memory

  function NextOf(ps: seq<Piece>, i: nat): int {
    if i + 1 < |ps| then ps[i + 1].at else 0
  }

  function PrevOf(ps: seq<Piece>, i: nat): int
    requires i < |ps|
  {
    if i > 0 then ps[i - 1].at else 0
  }

  ghost predicate NodeOk(mem: map<int, Chunk>, ps: seq<Piece>, i: int) {
    0 <= i < |ps| ==>
      && ps[i].at in mem
      && mem[ps[i].at]
           == Chunk(if ps[i].free then KMALLOC_STATE_FREE else KMALLOC_STATE_USED, ps[i].length, NextOf(ps, i),
                    PrevOf(ps, i))
  }

  ghost predicate Linked(mem: map<int, Chunk>, ps: seq<Piece>) {
    forall i {:trigger NodeOk(mem, ps, i)} :: NodeOk(mem, ps, i)
  }

  // ---- the pieces in use

  /** Start and length of every piece in use, in order. */
  function Used(ps: seq<Piece>): seq<(int, int)> {
    if ps == [] then []
    else (if ps[0].free then [] else [(ps[0].at, ps[0].length)]) + Used(ps[1..])
  }

  lemma {:induction false} UsedAppend(a: seq<Piece>, b: seq<Piece>)
    ensures Used(a + b) == Used(a) + Used(b)
  {
    if a == [] {
      assert a + b == b;
    } else {
      assert (a + b)[1..] == a[1..] + b;
      UsedAppend(a[1..], b);
    }
  }

  lemma {:induction false} UsedAround(a: seq<Piece>, b: seq<Piece>, c: seq<Piece>)
    ensures Used(a + b + c) == Used(a) + Used(b) + Used(c)
  {
    UsedAppend(a + b, c);
    UsedAppend(a, b);
  }

  lemma {:induction false} UsedOne(p: Piece)
    ensures Used([p]) == if p.free then [] else [(p.at, p.length)]
  {
  }

  lemma {:induction false} UsedTwo(p: Piece, q: Piece)
    ensures Used([p, q]) == Used([p]) + Used([q])
  {
    UsedAppend([p], [q]);
    assert [p, q] == [p] + [q];
  }

  /** The pieces in use around piece i. */
  lemma {:induction false} UsedCut(ps: seq<Piece>, i: nat)
    requires i < |ps|
    ensures Used(ps) == Used(ps[..i]) + (if ps[i].free then [] else [(ps[i].at, ps[i].length)]) + Used(ps[i + 1..])
  {
    assert ps == ps[..i] + [ps[i]] + ps[i + 1..];
    UsedAround(ps[..i], [ps[i]], ps[i + 1..]);
    UsedOne(ps[i]);
  }

  lemma {:induction false} UsedFreeFirst(p: Piece, c: seq<Piece>)
    requires p.free
    ensures Used([p] + c) == Used(c)
  {
    UsedAppend([p], c);
    UsedOne(p);
  }

  lemma TakenParts(ps: seq<Piece>, i: nat, length: int)
    requires i < |ps|
    ensures var ps' := Taken(ps, i, length);
            var split := ps[i].length - length > 2 * KUNIT;
            && |ps'| == |ps| + (if split then 1 else 0) && ps'[..i] == ps[..i]
            && ps'[i] == Piece(ps[i].at, if split then length else ps[i].length, false)
            && ps'[i + 1..] == (if split then [Piece(ps[i].at + length, ps[i].length - length, true)] else [])
               + ps[i + 1..]
  {
  }

  lemma {:induction false} UsedFree(ps: seq<Piece>, i: nat)
    requires i < |ps| && ps[i].free
    ensures Used(ps) == Used(ps[..i]) + Used(ps[i + 1..])
  {
    UsedCut(ps, i);
  }

  lemma {:induction false} UsedTaken(ps: seq<Piece>, i: nat, length: int)
    requires i < |ps| && ps[i].free
    ensures Used(Taken(ps, i, length)) == Used(ps[..i]) + [(ps[i].at, Taken(ps, i, length)[i].length)]
            + Used(ps[i + 1..])
  {
    TakenParts(ps, i, length);
    UsedCut(Taken(ps, i, length), i);
    UsedRest(ps, i, length);
  }

  lemma {:induction false} UsedRest(ps: seq<Piece>, i: nat, length: int)
    requires i < |ps|
    ensures Used(Taken(ps, i, length)[i + 1..]) == Used(ps[i + 1..])
  {
    TakenParts(ps, i, length);
    var c := ps[i + 1..];
    if ps[i].length - length > 2 * KUNIT {
      UsedFreeFirst(Piece(ps[i].at + length, ps[i].length - length, true), c);
    } else {
      assert [] + c == c;
    }
  }

  lemma {:induction false} UsedJoined(ps: seq<Piece>, i: nat)
    requires i + 1 < |ps| && ps[i].free && ps[i + 1].free
    ensures Used(Joined(ps, i)) == Used(ps)
  {
    var a, c, p := ps[..i], ps[i + 2..], Joined(ps, i)[i];
    assert ps == a + [ps[i], ps[i + 1]] + c;
    UsedAround(a, [ps[i], ps[i + 1]], c);
    UsedTwo(ps[i], ps[i + 1]);
    UsedOne(ps[i]);
    UsedOne(ps[i + 1]);
    UsedAround(a, [p], c);
    UsedOne(p);
  }

  lemma {:induction false} UsedMerged(ps: seq<Piece>, i: nat)
    requires i < |ps|
    ensures Used(Merged(ps, i)) == Used(ps)
  {
    if Merged(ps, i) != ps { UsedJoined(ps, i); }
  }

  lemma {:induction false} UsedReleased(ps: seq<Piece>, i: nat)
    requires i < |ps| && !ps[i].free
    ensures Used(Released(ps, i)) == Used(ps[..i]) + Used(ps[i + 1..])
    ensures Used(ps) == Used(ps[..i]) + [(ps[i].at, ps[i].length)] + Used(ps[i + 1..])
  {
    var ps0 := Marked(ps, i, true);
    UsedCut(ps, i);
    UsedCut(ps0, i);
    assert ps0[..i] == ps[..i] && ps0[i + 1..] == ps[i + 1..];
    UsedMerged(ps0, i);
    if i > 0 { UsedMerged(Merged(ps0, i), i - 1); }
  }

  // ---- the invariant is kept

  lemma SplitTiles(ps: seq<Piece>, i: nat, length: int)
    requires Tiles(ps) && i < |ps| && 0 < length < ps[i].length && length % KUNIT == 0
    ensures Tiles(Split(ps, i, length)) && End(Split(ps, i, length)) == End(ps)
  {
    var ps' := Split(ps, i, length);
    forall j ensures TileAt(ps', j) {
      assert TileAt(ps, j) && TileAt(ps, j - 1);
    }
    assert (ps[i].length - length) % KUNIT == 0;
  }

  lemma JoinTiles(ps: seq<Piece>, i: nat)
    requires Tiles(ps) && i + 1 < |ps|
    ensures Tiles(Joined(ps, i)) && End(Joined(ps, i)) == End(ps)
  {
    var ps' := Joined(ps, i);
    assert TileAt(ps, i);
    forall j ensures TileAt(ps', j) {
      assert TileAt(ps, j) && TileAt(ps, j + 1);
    }
  }

  lemma MarkTiles(ps: seq<Piece>, i: nat, free: bool)
    requires Tiles(ps) && i < |ps|
    ensures Tiles(Marked(ps, i, free)) && End(Marked(ps, i, free)) == End(ps)
  {
    forall j ensures TileAt(Marked(ps, i, free), j) { assert TileAt(ps, j); }
  }

  /** Taking a chunk keeps the heap tiled and free chunks apart. */
  lemma TakenOk(ps: seq<Piece>, i: nat, length: int)
    requires Ok(ps) && i < |ps| && ps[i].free && 0 < length <= ps[i].length && length % KUNIT == 0
    ensures Ok(Taken(ps, i, length)) && End(Taken(ps, i, length)) == End(ps) && Taken(ps, i, length)[0].at == ps[0].at
    // the rest becomes a free chunk when it is longer than two headers
    ensures var rest, ps' := ps[i].length - length, Taken(ps, i, length);
            if rest > 32 then ps'[i].length == length && ps'[i + 1] == Piece(ps[i].at + length, rest, true)
            else |ps'| == |ps| && ps'[i].length == ps[i].length
  {
    var ps' := Taken(ps, i, length);
    if ps[i].length - length > 2 * KUNIT {
      SplitTiles(ps, i, length);
      MarkTiles(Split(ps, i, length), i, false);
    } else {
      MarkTiles(ps, i, false);
    }
    forall j ensures ApartAt(ps', j) {
      assert ApartAt(ps, j) && ApartAt(ps, j - 1);
    }
  }

  /** So does releasing one. */
  lemma ReleasedOk(ps: seq<Piece>, i: nat)
    requires Ok(ps) && i < |ps| && !ps[i].free
    ensures Ok(Released(ps, i)) && End(Released(ps, i)) == End(ps) && Released(ps, i)[0].at == ps[0].at
  {
    var ps0 := Marked(ps, i, true);
    var ps1 := Merged(ps0, i);
    var ps2 := Released(ps, i);
    MarkTiles(ps, i, true);
    if ps1 != ps0 { JoinTiles(ps0, i); }
    if ps2 != ps1 { JoinTiles(ps1, i - 1); }
    forall j ensures ApartAt(ps2, j) {
      assert ApartAt(ps, j) && ApartAt(ps, j + 1) && ApartAt(ps, j + 2);
    }
  }

  // ---- what is promised about whole runs

  /** Chunks in use do not overlap, and lie within the heap. */
  lemma {:induction false} UsedDisjoint(ps: seq<Piece>, i: nat, j: nat)
    requires Tiles(ps) && i < j < |ps|
    ensures ps[0].at <= ps[i].at && ps[i].at + ps[i].length <= ps[j].at && ps[j].at + ps[j].length <= End(ps)
  {
    Before(ps, i, j);
    if i > 0 { Before(ps, 0, i); }
    if j < |ps| - 1 { Before(ps, j, |ps| - 1); }
  }

  /** Releasing what was just taken gives back the very same list of chunks. */
  lemma TakeThenRelease(ps: seq<Piece>, i: nat, length: int)
    requires Ok(ps) && i < |ps| && ps[i].free && 0 < length <= ps[i].length
    ensures Released(Taken(ps, i, length), i) == ps
  {
    assert ApartAt(ps, i) && ApartAt(ps, i - 1);
    var ps1 := Marked(Taken(ps, i, length), i, true);
    if ps[i].length - length > 2 * KUNIT {
      assert Joined(ps1, i) == ps;
    } else {
      assert ps1 == ps;
    }
  }

  /** When nothing is in use, one free chunk is all there is. */
  lemma NothingUsed(ps: seq<Piece>)
    requires Ok(ps) && Used(ps) == []
    ensures ps == [Piece(ps[0].at, End(ps) - ps[0].at, true)]
  {
    forall i | 0 <= i < |ps| ensures ps[i].free {
      assert ps == ps[..i] + [ps[i]] + ps[i + 1..];
      UsedAround(ps[..i], [ps[i]], ps[i + 1..]);
      UsedOne(ps[i]);
    }
    assert ApartAt(ps, 0);
  }

  // ---- the list operations keep the links

  lemma {:induction false} NextInside(ps: seq<Piece>, i: nat, length: int)
    requires Tiles(ps) && i < |ps| && 0 < length < ps[i].length
    ensures forall j :: 0 <= j < |ps| ==> ps[j].at != ps[i].at + length
  {
    forall j | 0 <= j < |ps| ensures ps[j].at != ps[i].at + length {
      if j < i { Before(ps, j, i); } else if j > i { Before(ps, i, j); }
    }
  }

  /** Memory after a split of the chunk at piece i. */
  function SplitMemory(mem: map<int, Chunk>, c: int, length: int): map<int, Chunk>
    requires c in mem && (mem[c].next != 0 ==> mem[c].next in mem)
  {
    var n, h := c + length, mem[c];
    var mem1 := mem[n := Chunk(KMALLOC_STATE_FREE, h.length - length, h.next, c)];
    var mem2 := if h.next != 0 then mem1[h.next := mem1[h.next].(prev := n)] else mem1;
    mem2[c := h.(length := length, next := n)]
  }

  lemma SplitLinked(mem: map<int, Chunk>, ps: seq<Piece>, i: nat, length: int)
    requires Tiles(ps) && Linked(mem, ps) && i < |ps| && 0 < length < ps[i].length
    ensures ps[i].at in mem && (mem[ps[i].at].next != 0 ==> mem[ps[i].at].next in mem)
    ensures Linked(SplitMemory(mem, ps[i].at, length), Split(ps, i, length))
  {
    Distinct(ps);
    NextInside(ps, i, length);
    assert NodeOk(mem, ps, i) && NodeOk(mem, ps, i + 1);
    var ps' := Split(ps, i, length);
    var mem' := SplitMemory(mem, ps[i].at, length);
    forall j ensures NodeOk(mem', ps', j) {
      assert NodeOk(mem, ps, j) && NodeOk(mem, ps, j - 1);
    }
  }

  /** Memory after the chunk at c has swallowed its successor. */
  function JoinMemory(mem: map<int, Chunk>, c: int): map<int, Chunk>
    requires c in mem && mem[c].next in mem && (mem[mem[c].next].next != 0 ==> mem[mem[c].next].next in mem)
  {
    var h, n := mem[c], mem[mem[c].next];
    var mem1 := mem[c := h.(length := h.length + n.length)];
    var mem2 := if n.next != 0 then mem1[n.next := mem1[n.next].(prev := c)] else mem1;
    mem2[c := mem1[c].(next := n.next)]
  }

  lemma JoinLinked(mem: map<int, Chunk>, ps: seq<Piece>, i: nat)
    requires Tiles(ps) && Linked(mem, ps) && i + 1 < |ps|
    ensures var c := ps[i].at;
            && c in mem && mem[c].next == ps[i + 1].at && mem[c].next in mem
            && (mem[mem[c].next].next != 0 ==> mem[mem[c].next].next in mem)
            && Linked(JoinMemory(mem, c), Joined(ps, i))
  {
    Distinct(ps);
    assert NodeOk(mem, ps, i) && NodeOk(mem, ps, i + 1) && NodeOk(mem, ps, i + 2);
    var ps' := Joined(ps, i);
    var mem' := JoinMemory(mem, ps[i].at);
    forall j ensures NodeOk(mem', ps', j) {
      assert NodeOk(mem, ps, j) && NodeOk(mem, ps, j + 1);
    }
  }

  lemma MarkLinked(mem: map<int, Chunk>, ps: seq<Piece>, i: nat, free: bool)
    requires Tiles(ps) && Linked(mem, ps) && i < |ps|
    ensures ps[i].at in mem
    ensures var c := ps[i].at;
            Linked(mem[c := mem[c].(state := if free then KMALLOC_STATE_FREE else KMALLOC_STATE_USED)],
                   Marked(ps, i, free))
  {
    Distinct(ps);
    assert NodeOk(mem, ps, i);
    var mem' := mem[ps[i].at := mem[ps[i].at].(state := if free then KMALLOC_STATE_FREE else KMALLOC_STATE_USED)];
    forall j ensures NodeOk(mem', Marked(ps, i, free), j) { assert NodeOk(mem, ps, j); }
  }

  lemma Rounding(length: nat)
    ensures RoundUp(length) % 16 == 0 && length + 16 <= RoundUp(length) < length + 32
  {
  }

  /** Piece i is the first free one that is long enough, if there is one. */
  ghost predicate FirstFit(ps: seq<Piece>, need: int, i: nat) {
    && i <= |ps| && (forall j :: 0 <= j < i ==> !(ps[j].free && ps[j].length >= need))
    && (i < |ps| ==> ps[i].free && ps[i].length >= need)
  }

  class Kheap {
    var mem: map<int, Chunk>
    var head: int
    ghost var pieces: seq<Piece>

    ghost predicate Listed()
      reads this
    {
      Tiles(pieces) && Linked(mem, pieces) && head == pieces[0].at
    }

    ghost predicate Valid()
      reads this
    {
      Listed() && Apart(pieces)
    }

    /** kmalloc_init */
    constructor (start: int, length: int)
      requires start > 0 && length > 0 && length % KUNIT == 0
      ensures Valid() && pieces == [Piece(start, length, true)]
    {
      head := start;
      mem := map[start := Chunk(KMALLOC_STATE_FREE, length, 0, 0)];
      pieces := [Piece(start, length, true)];
    }

    /** ksplit */
    method Ksplit(c: int, length: int, ghost i: nat)
      requires Listed() && i < |pieces| && c == pieces[i].at && 0 < length < pieces[i].length && length % KUNIT == 0
      modifies this`mem, this`pieces
      ensures Listed() && pieces == Split(old(pieces), i, length)
    {
      SplitLinked(mem, pieces, i, length);
      SplitTiles(pieces, i, length);
      var n, h := c + length, mem[c];
      mem := mem[n := Chunk(KMALLOC_STATE_FREE, h.length - length, h.next, c)];
      if h.next != 0 {
        mem := mem[h.next := mem[h.next].(prev := n)];
      }
      mem := mem[c := h.(next := n, length := length)];
      pieces := Split(pieces, i, length);
    }

    method SetState(c: int, free: bool, ghost i: nat)
      requires Listed() && i < |pieces| && c == pieces[i].at
      modifies this`mem, this`pieces
      ensures Listed() && pieces == Marked(old(pieces), i, free)
    {
      MarkLinked(mem, pieces, i, free);
      MarkTiles(pieces, i, free);
      mem := mem[c := mem[c].(state := if free then KMALLOC_STATE_FREE else KMALLOC_STATE_USED)];
      pieces := Marked(pieces, i, free);
    }

    /** kmalloc: the first free chunk that is long enough, cut to size if more than two units would
        remain; 0 exactly when no free chunk holds the rounded request and a header. */
    method Kmalloc(length: int) returns (result: int, ghost i: nat)
      requires Valid() && 0 <= length <= 0x7fff_ffff - 2 * KUNIT
      modifies this`mem, this`pieces
      ensures Valid() && FirstFit(old(pieces), RoundUp(length), i)
      ensures result == 0 <==> i == |old(pieces)|
      ensures result == 0 ==> unchanged(this)
      ensures i < |old(pieces)| ==>
                result == old(pieces)[i].at + 16 && pieces == Taken(old(pieces), i, RoundUp(length))
    {
      Rounding(length);
      var need := RoundUp(length);
      var c := head;
      i := 0;
      while true
        invariant Valid() && unchanged(this) && i <= |pieces| && c == (if i < |pieces| then pieces[i].at else 0)
        invariant forall j :: 0 <= j < i ==> !(pieces[j].free && pieces[j].length >= need)
        decreases |pieces| - i
      {
        Distinct(pieces);
        if c == 0 { return 0, i; }
        assert NodeOk(mem, pieces, i);
        if mem[c].state == KMALLOC_STATE_FREE && mem[c].length >= need { break; }
        c, i := mem[c].next, i + 1;
      }
      ghost var before := pieces;
      assert NodeOk(mem, pieces, i);
      TakenOk(before, i, need);
      Distinct(before);
      if mem[c].length - need > 2 * KUNIT {
        Ksplit(c, need, i);
      }
      SetState(c, false, i);
      result := c + KUNIT;
    }

    /** kmerge */
    method Kmerge(c: int, ghost i: nat)
      requires Listed() && i < |pieces| && c == pieces[i].at
      modifies this`mem, this`pieces
      ensures Listed() && pieces == Merged(old(pieces), i)
    {
      assert NodeOk(mem, pieces, i) && NodeOk(mem, pieces, i + 1);
      Distinct(pieces);
      if mem[c].state != KMALLOC_STATE_FREE { return; }
      var h := mem[c];
      if h.next != 0 && mem[h.next].state == KMALLOC_STATE_FREE {
        JoinLinked(mem, pieces, i);
        JoinTiles(pieces, i);
        var n := mem[h.next];
        mem := mem[c := h.(length := h.length + n.length)];
        if n.next != 0 {
          mem := mem[n.next := mem[n.next].(prev := c)];
        }
        mem := mem[c := mem[c].(next := n.next)];
        pieces := Joined(pieces, i);
      }
    }

    /** kfree. A chunk that is not in use is left alone. */
    method Kfree(ptr: int, ghost i: nat)
      requires Valid() && i < |pieces| && ptr == pieces[i].at + KUNIT
      modifies this`mem, this`pieces
      ensures Valid() && pieces == if old(pieces)[i].free then old(pieces) else Released(old(pieces), i)
    {
      var c := ptr - KUNIT;
      assert NodeOk(mem, pieces, i);
      if mem[c].state != KMALLOC_STATE_USED { return; }
      ReleasedOk(pieces, i);
      SetState(c, true, i);
      Kmerge(c, i);
      assert NodeOk(mem, pieces, i);
      Distinct(pieces);
      if mem[c].prev != 0 {
        Kmerge(mem[c].prev, i - 1);
      }
    }

    /** A caller asks for memory and notes what it got. */
    method Obtain(held: map<int, int>, length: Length) returns (live: map<int, int>)
      requires Valid() && Serves(Used(pieces), held)
      modifies this`mem, this`pieces
      ensures Valid() && Serves(Used(pieces), live)
      ensures pieces[0].at == old(pieces)[0].at && End(pieces) == old(End(pieces))
    {
      ghost var before := pieces;
      var p, i := Kmalloc(length);
      Rounding(length);
      live := held;
      if p != 0 {
        TakenOk(before, i, RoundUp(length));
        ServesTaken(before, i, RoundUp(length), held, length);
        live := held[p := length];
      }
    }

    /** A caller gives back what it holds. */
    method GiveBack(held: map<int, int>, p: int) returns (live: map<int, int>)
      requires Valid() && Serves(Used(pieces), held) && p in held
      modifies this`mem, this`pieces
      ensures Valid() && Serves(Used(pieces), live)
      ensures pieces[0].at == old(pieces)[0].at && End(pieces) == old(End(pieces))
    {
      ghost var before := pieces;
      ghost var i := PieceOf(pieces, held, p);
      Kfree(p, i);
      ReleasedOk(before, i);
      ServesReleased(before, i, held, p);
      live := held - {p};
    }

    /** Any run of requests and releases: the chunks in use are exactly those that were handed out
        and not yet given back, each as long as asked; and when all have been given back, in
        whatever order, the heap is one free chunk again. */
    method Run(ops: seq<Op>) returns (live: map<int, int>)
      requires Valid() && Used(pieces) == []
      modifies this`mem, this`pieces
      ensures Valid() && Serves(Used(pieces), live)
      ensures live == map[] ==> pieces == old(pieces)
    {
      NothingUsed(pieces);
      live := map[];
      for k := 0 to |ops|
        invariant Valid() && Serves(Used(pieces), live)
        invariant pieces[0].at == old(pieces)[0].at && End(pieces) == old(End(pieces))
      {
        match ops[k] {
          case Request(length) => live := Obtain(live, length);
          case Release(p) => if p in live { live := GiveBack(live, p); }
        }
      }
      if live == map[] {
        assert |Used(pieces)| > 0 ==> Served(live, Used(pieces)[0]);
        NothingUsed(pieces);
      }
    }
  }

  /** What a caller may do; it releases only what it holds. */
  datatype Op = Request(length: Length) | Release(p: int)

  type Length = n: int | 0 <= n <= 0x7fff_ffff - 2 * KUNIT

  /** The chunk u in use has room for what its holder asked for. */
  ghost predicate Served(live: map<int, int>, u: (int, int)) {
    u.0 + KUNIT in live && live[u.0 + KUNIT] + KUNIT <= u.1
  }

  /** There is a chunk in use for p. */
  ghost predicate Held(us: seq<(int, int)>, p: int) {
    exists u :: u in us && u.0 == p - KUNIT
  }

  /** The chunks in use are those whose payloads are held, each with room for what was asked. */
  ghost predicate Serves(us: seq<(int, int)>, live: map<int, int>) {
    && (forall u {:trigger Served(live, u)} :: u in us ==> Served(live, u))
    && (forall p {:trigger Held(us, p)} :: p in live ==> Held(us, p))
  }

  lemma {:induction false} UsedMember(ps: seq<Piece>, u: (int, int)) returns (i: nat)
    requires u in Used(ps)
    ensures i < |ps| && !ps[i].free && (ps[i].at, ps[i].length) == u
  {
    if !ps[0].free && u == (ps[0].at, ps[0].length) {
      i := 0;
    } else {
      i := UsedMember(ps[1..], u);
      i := i + 1;
    }
  }

  lemma {:induction false} PieceOf(ps: seq<Piece>, live: map<int, int>, p: int) returns (i: nat)
    requires Serves(Used(ps), live) && p in live
    ensures i < |ps| && !ps[i].free && ps[i].at == p - KUNIT
  {
    assert Held(Used(ps), p);
    var u :| u in Used(ps) && u.0 == p - KUNIT;
    i := UsedMember(ps, u);
  }

  /** No other piece in use starts where piece i starts. */
  lemma {:induction false} OtherUsed(ps: seq<Piece>, i: nat, u: (int, int))
    requires Tiles(ps) && i < |ps| && u in Used(ps[..i]) + Used(ps[i + 1..])
    ensures u.0 != ps[i].at
  {
    Distinct(ps);
    if u in Used(ps[..i]) {
      var j := UsedMember(ps[..i], u);
    } else {
      var j := UsedMember(ps[i + 1..], u);
    }
  }

  lemma {:induction false} ServesMore(a: seq<(int, int)>, c: seq<(int, int)>, live: map<int, int>, u: (int, int),
                                      length: int)
    requires Serves(a + c, live) && length + KUNIT <= u.1 && forall v :: v in a + c ==> v.0 != u.0
    ensures Serves(a + [u] + c, live[u.0 + KUNIT := length])
  {
    var us, live' := a + [u] + c, live[u.0 + KUNIT := length];
    forall v | v in us ensures Served(live', v) { assert v in a + c ==> Served(live, v); }
    forall p | p in live' ensures Held(us, p) {
      if p == u.0 + KUNIT {
        assert u in us;
      } else {
        assert Held(a + c, p);
        var v :| v in a + c && v.0 == p - KUNIT;
        assert v in us;
      }
    }
  }

  lemma {:induction false} ServesLess(a: seq<(int, int)>, c: seq<(int, int)>, live: map<int, int>, u: (int, int),
                                      p: int)
    requires Serves(a + [u] + c, live) && p == u.0 + KUNIT && forall v :: v in a + c ==> v.0 != u.0
    ensures Serves(a + c, live - {p})
  {
    var us, live' := a + [u] + c, live - {p};
    forall v | v in a + c ensures Served(live', v) { assert v in us && Served(live, v); }
    forall q | q in live' ensures Held(a + c, q) {
      assert Held(us, q);
      var v :| v in us && v.0 == q - KUNIT;
      assert v in a + c;
    }
  }

  lemma {:induction false} ServesTaken(ps: seq<Piece>, i: nat, need: int, live: map<int, int>, length: int)
    requires Ok(ps) && Serves(Used(ps), live) && i < |ps| && ps[i].free && length + KUNIT <= need <= ps[i].length
    ensures Serves(Used(Taken(ps, i, need)), live[ps[i].at + KUNIT := length])
  {
    var u := (ps[i].at, Taken(ps, i, need)[i].length);
    TakenParts(ps, i, need);
    UsedFree(ps, i);
    UsedTaken(ps, i, need);
    forall v | v in Used(ps[..i]) + Used(ps[i + 1..]) ensures v.0 != u.0 { OtherUsed(ps, i, v); }
    ServesMore(Used(ps[..i]), Used(ps[i + 1..]), live, u, length);
  }

  lemma {:induction false} ServesReleased(ps: seq<Piece>, i: nat, live: map<int, int>, p: int)
    requires Ok(ps) && Serves(Used(ps), live) && i < |ps| && !ps[i].free && p == ps[i].at + KUNIT
    ensures Serves(Used(Released(ps, i)), live - {p})
  {
    UsedReleased(ps, i);
    forall v | v in Used(ps[..i]) + Used(ps[i + 1..]) ensures v.0 != ps[i].at { OtherUsed(ps, i, v); }
    ServesLess(Used(ps[..i]), Used(ps[i + 1..]), live, (ps[i].at, ps[i].length), p);
  }

  /** Two payloads that are held at the same time do not overlap. */
  lemma {:induction false} PayloadsApart(ps: seq<Piece>, live: map<int, int>, p: int, q: int)
    requires Ok(ps) && Serves(Used(ps), live) && p in live && q in live && p < q
    ensures ps[0].at + KUNIT <= p && p + live[p] <= q - KUNIT && q + live[q] <= End(ps)
  {
    var i := PieceOf(ps, live, p);
    var j := PieceOf(ps, live, q);
    RoomAt(ps, live, i);
    RoomAt(ps, live, j);
    if j < i { Before(ps, j, i); }
    UsedDisjoint(ps, i, j);
  }

  lemma {:induction false} RoomAt(ps: seq<Piece>, live: map<int, int>, i: nat)
    requires Serves(Used(ps), live) && i < |ps| && !ps[i].free
    ensures ps[i].at + KUNIT in live && live[ps[i].at + KUNIT] + KUNIT <= ps[i].length
  {
    UsedCut(ps, i);
    var u := (ps[i].at, ps[i].length);
    assert u in [u];
    assert Served(live, u);
  }
}
