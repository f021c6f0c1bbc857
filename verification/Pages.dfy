/** Physical memory in pages: the bitmap of free pages and the counter beside it. */
module Pages {
  import opened Words
  import Bits

  const CELL_BITS: nat := 32
  const ENTRIES_PER_TABLE: nat := 1024

  /** The number of the first page that is handed out, 2 MB into memory. */
  const MAIN_MEMORY: nat := 512
  const ALL_PAGES: nat := 0x10_0000

  /** Four bytes of a page, as a page table entry lays them out. */
  datatype Entry = Entry(present: bool, readwrite: bool, user: bool, writethrough: bool, nocache: bool, accessed: bool,
                         dirty: bool, pagesize: bool, globalpage: bool, avail: bits3, addr: pageno)

  type bits3 = n: int | 0 <= n < 8

  /** The number of a page: its address without the last 12 bits. */
  type pageno = n: int | 0 <= n < ALL_PAGES

  type cells = s: seq<Entry> | |s| == ENTRIES_PER_TABLE witness ZeroPage()

  const ZERO_ENTRY := Entry(false, false, false, false, false, false, false, false, false, 0, 0)

  function ZeroPage(): seq<Entry> {
    seq(ENTRIES_PER_TABLE, _ => ZERO_ENTRY)
  }

  lemma AndBit(m: word, j: nat)
    requires j < CELL_BITS
    ensures Bits.And(m, Bits.Bit(j)) != 0 <==> Bits.Has(m, j)
  {
    var r := Bits.And(m, Bits.Bit(j));
    Bits.HasAnd(m, Bits.Bit(j), j);
    Bits.HasPow2(j, j);
    if r == 0 {
      Bits.HasNone(j);
    } else {
      var c := Bits.Ctz(r);
      Bits.HasAnd(m, Bits.Bit(j), c);
      Bits.HasPow2(j, c);
    }
  }

  /** Whether the bitmap says that page f is free. */
  ghost predicate FreeIn(map_: seq<word>, f: int) {
    0 <= f - MAIN_MEMORY < |map_| * CELL_BITS
    && Bits.Has(map_[(f - MAIN_MEMORY) / CELL_BITS], (f - MAIN_MEMORY) % CELL_BITS)
  }

  function PageAt(i: nat, j: nat): int {
    MAIN_MEMORY + i * CELL_BITS + j
  }

  lemma CellOf(i: nat, j: nat)
    requires j < CELL_BITS
    ensures (PageAt(i, j) - MAIN_MEMORY) / CELL_BITS == i && (PageAt(i, j) - MAIN_MEMORY) % CELL_BITS == j
  {
  }

  lemma BitTaken(map_: seq<word>, i: nat, j: nat, f: int)
    requires i < |map_| && j < CELL_BITS
    ensures FreeIn(map_[i := Bits.Without(map_[i], j)], f) <==> f != PageAt(i, j) && FreeIn(map_, f)
  {
    CellOf(i, j);
  }

  lemma BitGiven(map_: seq<word>, i: nat, j: nat, f: int)
    requires i < |map_| && j < CELL_BITS
    ensures FreeIn(map_[i := Bits.With(map_[i], j)], f) <==> f == PageAt(i, j) || FreeIn(map_, f)
  {
    CellOf(i, j);
  }

  /** A counter that wraps around, less so many. */
  function Less(counter: word, n: nat): word {
    (counter - n) % WORD
  }

  class Machine {
    const freemap: array<word>
    var pagesFree: word
    var ram: map<int, cells>

    /** The free pages. */
    ghost var free: set<int>

    /** Whether f is a page that is handed out and taken back. */
    ghost predicate Managed(f: int) {
      MAIN_MEMORY <= f < MAIN_MEMORY + freemap.Length * CELL_BITS
    }

    ghost predicate Valid()
      reads this, freemap
    {
      && (forall f {:trigger FreeIn(freemap[..], f)} :: f in free <==> FreeIn(freemap[..], f))
      && (forall f {:trigger f in ram} :: 0 <= f < ALL_PAGES ==> f in ram)
      && MAIN_MEMORY + freemap.Length * CELL_BITS <= ALL_PAGES
    }

    /** How far the counter of free pages is off. */
    ghost function Drift(): word
      reads this`pagesFree, this`free
    {
      Less(pagesFree, |free|)
    }

    /** Bit j of cell i, which is set, gets cleared. */
    method Take(i: nat, j: nat)
      requires Valid() && i < freemap.Length && j < CELL_BITS && Bits.Has(freemap[i], j)
      modifies this`free, this`pagesFree, freemap
      ensures Valid() && PageAt(i, j) in old(free) && free == old(free) - {PageAt(i, j)} && Drift() == old(Drift())
    {
      ghost var before := freemap[..];
      CellOf(i, j);
      assert FreeIn(before, PageAt(i, j));
      freemap[i] := Bits.Without(freemap[i], j);
      assert freemap[..] == before[i := Bits.Without(before[i], j)];
      forall f ensures FreeIn(freemap[..], f) <==> f != PageAt(i, j) && FreeIn(before, f) { BitTaken(before, i, j, f); }
      free := free - {PageAt(i, j)};
      pagesFree := Sub(pagesFree, 1);
    }

    /** The scan of page_alloc: cell and bit of the lowest free page; i is past the end when there
        is none. */
    method FindFree() returns (i: nat, j: nat)
      requires Valid()
      ensures i <= freemap.Length && (i < freemap.Length ==> j < CELL_BITS && Bits.Has(freemap[i], j))
      ensures forall f :: f in free ==> PageAt(i, if i < freemap.Length then j else 0) <= f
    {
      i, j := 0, 0;
      while i < freemap.Length
        invariant 0 <= i <= freemap.Length
        invariant forall f {:trigger FreeIn(freemap[..], f)} :: FreeIn(freemap[..], f) ==> PageAt(i, 0) <= f
      {
        j := CELL_BITS;
        if freemap[i] != 0 {
          j := FirstSet(freemap[i]);
        } else {
          EmptyCell();
        }
        NoneBelow(freemap[..], i, j);
        if j < CELL_BITS { break; }
        i := i + 1;
      }
      forall f | f in free
        ensures PageAt(i, if i < freemap.Length then j else 0) <= f { assert FreeIn(freemap[..], f); }
    }

    /** page_alloc: the lowest free page. When there is none the machine halts; the result is then
        taken to be 0. */
    method PageAlloc(zeroit: bool) returns (page: int)
      requires Valid()
      modifies this, freemap
      ensures Valid() && Drift() == old(Drift())
      ensures page == 0 ==> old(free) == {} && free == {} && ram == old(ram)
      ensures page != 0 ==>
                && page in old(free) && Managed(page) && (forall f :: f in old(free) ==> page <= f)
                   && free == old(free) - {page} && 512 <= page < 512 + 32 * freemap.Length
                && ram == if zeroit then old(ram)[page := ZeroPage()] else old(ram)
    {
      var i, j := FindFree();
      if i < freemap.Length {
        Take(i, j);
        page := PageAt(i, j);
        if zeroit {
          ram := ram[page := ZeroPage()];
        }
      } else {
        page := 0;
        forall f ensures f !in free { assert f in free ==> FreeIn(freemap[..], f); }
        assert free !! free;
        assert free == free - free;
      }
    }

    /** page_free */
    method PageFree(page: int)
      requires Valid() && Managed(page)
      modifies this`free, this`pagesFree, freemap
      ensures Valid() && free == old(free) + {page}
      ensures page !in old(free) ==> Drift() == old(Drift())
    {
      var n := page - MAIN_MEMORY;
      var i, j := n / CELL_BITS, n % CELL_BITS;
      ghost var before := freemap[..];
      freemap[i] := Bits.With(freemap[i], j);
      assert freemap[..] == before[i := Bits.With(before[i], j)];
      forall f ensures FreeIn(freemap[..], f) <==> f == page || FreeIn(before, f) { BitGiven(before, i, j, f); }
      free := free + {page};
      pagesFree := (pagesFree + 1) % WORD;
    }
  }

  /** The lowest bit that is set in a cell, or 32. */
  method FirstSet(cell: word) returns (j: nat)
    ensures j <= CELL_BITS && (j < CELL_BITS ==> Bits.Has(cell, j)) && forall k: nat :: k < j ==> !Bits.Has(cell, k)
  {
    j := 0;
    while j < CELL_BITS
      invariant 0 <= j <= CELL_BITS && forall k: nat :: k < j ==> !Bits.Has(cell, k)
    {
      AndBit(cell, j);
      if Bits.And(cell, Bits.Bit(j)) != 0 { return; }
      j := j + 1;
    }
  }

  lemma EmptyCell()
    ensures forall k: nat :: !Bits.Has(0, k)
  {
    forall k: nat ensures !Bits.Has(0, k) { Bits.HasNone(k); }
  }

  lemma NoneBelow(map_: seq<word>, i: nat, j: nat)
    requires i < |map_| && j <= CELL_BITS && forall k: nat :: k < j ==> !Bits.Has(map_[i], k)
    ensures forall f :: PageAt(i, 0) <= f < PageAt(i, j) ==> !FreeIn(map_, f)
  {
    forall f | PageAt(i, 0) <= f < PageAt(i, j) ensures !FreeIn(map_, f) {
      CellOf(i, f - PageAt(i, 0));
    }
  }
}
