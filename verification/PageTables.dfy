/** Page tables: mapping, unmapping, allocating and freeing ranges, deleting and duplicating. */
module PageTables {
  import opened Words
  import opened Pages
  import opened TableState

  const PAGE_SIZE: nat := 4096

  datatype Flags = Flags(readwrite: bool, kernel: bool, alloc: bool, clear: bool)

  lemma Address(vaddr: word)
    ensures vaddr / PAGE_SIZE < VPAGES && vaddr / 0x40_0000 == vaddr / PAGE_SIZE / TABLE < TABLE
    ensures vaddr / PAGE_SIZE == vaddr / 0x40_0000 * TABLE + vaddr / PAGE_SIZE % TABLE
  {
  }

  lemma PageAddress(v: nat)
    requires v < VPAGES
    ensures v * PAGE_SIZE < WORD && v * PAGE_SIZE / PAGE_SIZE == v
  {
  }

  class Pagetable {
    const m: Machine
    const p: pageno

    /** The pages that belong to this table, each with its place. */
    ghost var owner: map<int, Slot>

    ghost predicate Valid()
      reads this, m, m.freemap
    {
      m.Valid() && TableOk(m.ram, p, owner, m.free) && forall f {:trigger m.Managed(f)} :: f in owner ==> m.Managed(f)
    }

    /** A cleared page becomes the root of a table. */
    constructor (m: Machine, page: pageno)
      requires m.Valid() && m.Managed(page) && page !in m.free && Cells(m.ram, page) == ZeroPage()
      ensures this.m == m && p == page && owner == map[page := Root]
      ensures Valid() && forall v: nat {:trigger At(m.ram, page, v)} :: v < VPAGES ==> At(m.ram, page, v) == Absent
    {
      this.m, p := m, page;
      owner := map[page := Root];
      new;
      EmptyTable(m.ram, page, m.free);
    }

    /** pagetable_getmap */
    method GetMap(vaddr: word) returns (found: bool, page: int, flags: Flags)
      requires Valid()
      ensures var x := At(m.ram, p, vaddr / PAGE_SIZE);
              && found == x.Mapped?
              && (found ==>
                    page == x.page && flags.readwrite == x.readwrite && flags.kernel == x.kernel
                    && flags.alloc == x.alloc)
    {
      Address(vaddr);
      assert SlotOk(m.ram, p, owner, Root) && PageOk(m.ram, p, owner, m.free, p);
      found, page, flags := false, 0, Flags(false, false, false, false);
      var a, b := vaddr / 0x40_0000, vaddr / PAGE_SIZE % TABLE;
      var e := m.ram[p][a];
      if !e.present { return; }
      e := m.ram[e.addr][b];
      if !e.present { return; }
      found, page := true, e.addr;
      flags := Flags(e.readwrite, !e.user, e.avail % 2 == 1, false);
    }

    /** The entry for a and b, whose second-level table is there, is set. */
    method SetEntry(a: nat, b: nat, e: Entry)
      requires Valid() && a < TABLE && b < TABLE && DirEntry(m.ram, p, a).present
      requires LeafOk(e)
      requires e.present && e.avail != 0 ==> e.addr !in owner && e.addr !in m.free && m.Managed(e.addr)
      modifies this, m`ram
      ensures Valid() && EntrySet(old(m.ram), m.ram, p, old(owner), owner, a, b, e)
    {
      assert SlotOk(m.ram, p, owner, Root) && SlotOk(m.ram, p, owner, Dir(a));
      SetLeafOk(m.ram, p, owner, m.free, a, b, e);
      SetLeafAt(m.ram, p, owner, m.free, a, b, e);
      owner := OwnerAfter(m.ram, p, owner, a, b, e);
      var q := m.ram[p][a].addr;
      m.ram := m.ram[q := m.ram[q][b := e]];
    }

    /** A new second-level table goes into entry a, laid out like e. When there is no page for it
        the machine halts. */
    method NewTable(a: nat, e: Entry) returns (ok: bool)
      requires Valid() && a < TABLE && !DirEntry(m.ram, p, a).present && e.present && DirOk(e)
      modifies this, m, m.freemap
      ensures m.Valid() && m.Drift() == old(m.Drift()) && (!ok ==> m.free == {})
      ensures ok ==>
                && Valid() && DirEntry(m.ram, p, a) == e.(addr := DirEntry(m.ram, p, a).addr)
                && DirEntry(m.ram, p, a).addr in old(m.free) && Cells(m.ram, DirEntry(m.ram, p, a).addr) == ZeroPage()
                && OthersAt(old(m.ram), m.ram, p, -1) && Fair(old(m.ram), m.ram, old(owner), owner, old(m.free), m.free)
                && owner == old(owner)[DirEntry(m.ram, p, a).addr := Dir(a)] && m.free <= old(m.free)
                && DirsKept(old(m.ram), m.ram, p, a)
    {
      ghost var ram0, free0 := m.ram, m.free;
      var q := m.PageAlloc(true);
      ok := q != 0;
      if ok {
        ghost var ram1 := m.ram;
        NewTableStep(ram0, ram1, p, owner, free0, a, e, q);
        owner := owner[q := Dir(a)];
        m.ram := m.ram[p := m.ram[p][a := e.(addr := q)]];
      }
    }

    /** The page that a mapping is to name: a new one, or the given one. */
    method PageFor(paddr: word, flags: Flags) returns (ok: bool, page: pageno)
      requires Valid()
      modifies m, m.freemap
      ensures m.Valid() && m.Drift() == old(m.Drift()) && (!ok ==> m.free == {})
      ensures ok ==>
                && Valid()
                   && PageReady(old(m.ram), m.ram, p, owner, old(m.free), m.free, paddr / PAGE_SIZE, page, flags)
                && (flags.alloc ==> m.Managed(page))
    {
      ok, page := true, paddr / PAGE_SIZE;
      if flags.alloc {
        ghost var ram0, free0 := m.ram, m.free;
        var q := m.PageAlloc(flags.clear);
        if q == 0 { return false, page; }
        assert PageOk(ram0, p, owner, free0, q);
        TakePage(ram0, m.ram, p, owner, free0, q);
        page := q;
      }
    }

    /** A second-level table for entry a, unless there is one. */
    method EnsureTable(a: nat, kernel: bool) returns (ok: bool)
      requires Valid() && a < TABLE
      modifies this, m, m.freemap
      ensures m.Valid() && m.Drift() == old(m.Drift()) && (!ok ==> m.free == {})
      ensures ok ==>
                Valid() && TableReady(old(m.ram), m.ram, p, old(owner), owner, old(m.free), m.free, a, kernel)
    {
      assert SlotOk(m.ram, p, owner, Root) && PageOk(m.ram, p, owner, m.free, p);
      ok := true;
      if !m.ram[p][a].present {
        ok := NewTable(a, Entry(true, true, !kernel, false, false, false, false, false, kernel, 0, 0));
      }
    }

    /** The page that is at hand goes into entry b of table a. */
    method Place(a: nat, b: nat, page: pageno, flags: Flags, ghost v: nat, ghost given: int, ghost ram0: Ram,
                 ghost free0: set<int>) returns (ok: bool)
      requires Valid() && a < TABLE && b < TABLE && v == a * TABLE + b && (flags.alloc ==> m.Managed(page))
      requires PageReady(ram0, m.ram, p, owner, free0, m.free, given, page, flags)
      modifies this, m, m.freemap
      ensures m.Valid() && m.Drift() == old(m.Drift()) && (!ok ==> m.free == {})
      ensures ok ==>
                Valid() && m.free <= old(m.free)
                && MapDone(ram0, m.ram, p, old(owner), owner, free0, m.free, v, given, flags)
    {
      hide MapDone, OthersAt, Kept, TablesFrom, EntrySet, At;
      ghost var ram1, owner0, free1 := m.ram, owner, m.free;
      ok := EnsureTable(a, flags.kernel);
      if !ok { return; }
      ghost var ram2, owner2 := m.ram, owner;
      if flags.alloc { StillFree(owner0, owner, free1, m.free, page); }
      SetEntry(a, b, LeafFor(flags, page));
      MapStep(ram0, ram1, ram2, m.ram, p, owner0, owner2, owner, free0, free1, m.free, a, b, v, given, page, flags);
    }

    /** pagetable_map for entry b of table a. */
    method MapEntry(a: nat, b: nat, paddr: word, flags: Flags, ghost v: nat) returns (ok: bool)
      requires Valid() && a < TABLE && b < TABLE && v == a * TABLE + b
      modifies this, m, m.freemap
      ensures m.Valid() && m.Drift() == old(m.Drift()) && (!ok ==> m.free == {})
      ensures ok ==>
                && Valid() && m.free <= old(m.free)
                && MapDone(old(m.ram), m.ram, p, old(owner), owner, old(m.free), m.free, v, paddr / PAGE_SIZE, flags)
    {
      ghost var ram0, free0 := m.ram, m.free;
      var page;
      ok, page := PageFor(paddr, flags);
      if ok {
        ok := Place(a, b, page, flags, v, paddr / PAGE_SIZE, ram0, free0);
      }
    }

    /** pagetable_map. A mapping that was there is replaced; a page that came with it stays with
        no one. When there is no page to be had the machine halts, and the result is 0. */
    method Map(vaddr: word, paddr: word, flags: Flags) returns (r: int)
      requires Valid()
      modifies this, m, m.freemap
      ensures m.Valid() && m.Drift() == old(m.Drift()) && (r == 0 ==> m.free == {}) && (r == 0 || r == 1)
      ensures r == 1 ==>
                && Valid() && m.free <= old(m.free)
                && MapDone(old(m.ram), m.ram, p, old(owner), owner, old(m.free), m.free, vaddr / PAGE_SIZE,
                           paddr / PAGE_SIZE, flags)
    {
      Address(vaddr);
      var ok := MapEntry(vaddr / 0x40_0000, vaddr / PAGE_SIZE % TABLE, paddr, flags, vaddr / PAGE_SIZE);
      r := if ok then 1 else 0;
    }

    /** pagetable_unmap */
    method Unmap(vaddr: word)
      requires Valid()
      modifies this, m`ram
      ensures Valid() && UnmapDone(old(m.ram), m.ram, p, old(owner), owner, m.free, vaddr / PAGE_SIZE)
    {
      Address(vaddr);
      var a, b := vaddr / 0x40_0000, vaddr / PAGE_SIZE % TABLE;
      assert SlotOk(m.ram, p, owner, Root) && PageOk(m.ram, p, owner, m.free, p);
      ghost var ram0, owner0 := m.ram, owner;
      if m.ram[p][a].present {
        var q := m.ram[p][a].addr;
        var e := m.ram[q][b].(present := false);
        SetEntry(a, b, e);
        UnmapStep(ram0, m.ram, p, owner0, owner, m.free, a, b, vaddr / PAGE_SIZE, e);
      }
    }

    /** One round of pagetable_alloc. */
    method EnsurePage(v: nat, flags: Flags) returns (ok: bool)
      requires Valid() && v < VPAGES
      modifies this, m, m.freemap
      ensures m.Valid() && m.Drift() == old(m.Drift()) && (!ok ==> m.free == {})
      ensures ok ==>
                && Valid() && Balanced(old(owner), owner, old(m.free), m.free)
                && PageEnsured(old(m.ram), m.ram, p, old(owner), owner, old(m.free), m.free, v, flags)
    {
      PageAddress(v);
      var vaddr := v * PAGE_SIZE;
      var found, page, fl := GetMap(vaddr);
      ok := true;
      if !found {
        ghost var owner0, free0 := owner, m.free;
        var r := Map(vaddr, 0, flags.(alloc := true));
        ok := r == 1;
        if ok { NoneLost(owner0, owner, free0, m.free); }
      }
    }

    /** The loop of pagetable_alloc, over n pages from v0 on. */
    method AllocPages(v0: nat, n: nat, flags: Flags) returns (ok: bool)
      requires Valid() && v0 < VPAGES
      modifies this, m, m.freemap
      ensures m.Valid() && m.Drift() == old(m.Drift()) && (!ok ==> m.free == {})
      ensures ok ==>
                && Valid() && Balanced(old(owner), owner, old(m.free), m.free)
                && AllocDone(old(m.ram), m.ram, p, old(owner), owner, old(m.free), m.free, v0, n, flags)
    {
      var v, done := v0, 0;
      ghost var ram0, owner0, free0 := m.ram, owner, m.free;
      NothingAlloced(ram0, p, owner0, free0, v0, flags);
      while done < n
        invariant Valid() && done <= n && v == Nth(v0, done)
        invariant Balanced(owner0, owner, free0, m.free) && m.Drift() == old(m.Drift())
        invariant AllocDone(ram0, m.ram, p, owner0, owner, free0, m.free, v0, done, flags)
      {
        ghost var ram1, owner1, free1 := m.ram, owner, m.free;
        ok := EnsurePage(v, flags);
        if !ok { return; }
        AllocStep(ram0, ram1, m.ram, p, owner0, owner1, owner, free0, free1, m.free, v0, done, done + 1, flags);
        v, done := Next(v), done + 1;
      }
      ok := true;
    }

    /** pagetable_alloc: exactly the missing pages of the range get pages of their own. When the
        pages run out the machine halts. */
    method AllocRange(vaddr: word, length: word, flags: Flags) returns (ok: bool)
      requires Valid()
      modifies this, m, m.freemap
      ensures m.Valid() && m.Drift() == old(m.Drift()) && (!ok ==> m.free == {})
      ensures ok ==>
                && Valid() && Balanced(old(owner), owner, old(m.free), m.free)
                && AllocDone(old(m.ram), m.ram, p, old(owner), owner, old(m.free), m.free, vaddr / PAGE_SIZE,
                             PagesIn(length), flags)
    {
      Address(vaddr);
      ok := AllocPages(vaddr / PAGE_SIZE, PagesIn(length), flags);
    }

    /** One round of pagetable_free: virtual page v is unmapped, and the page that came with it is
        free again. */
    method DropPage(v: nat)
      requires Valid() && v < VPAGES
      modifies this, m, m.freemap
      ensures Valid() && m.Drift() == old(m.Drift())
      ensures PageDropped(old(m.ram), m.ram, p, old(owner), owner, old(m.free), m.free, v)
    {
      PageAddress(v);
      var vaddr := v * PAGE_SIZE;
      var found, page, flags := GetMap(vaddr);
      if found {
        ghost var ram0, owner0 := m.ram, owner;
        OwnedAt(m.ram, p, owner, m.free, v);
        Unmap(vaddr);
        if flags.alloc {
          DropStep(m.ram, p, owner, m.free, page);
          m.PageFree(page);
        }
      }
    }

    /** The loop of pagetable_free. */
    method FreePages(v0: nat, n: nat)
      requires Valid() && v0 < VPAGES
      modifies this, m, m.freemap
      ensures Valid() && m.Drift() == old(m.Drift()) && Balanced(old(owner), owner, old(m.free), m.free)
      ensures FreeDone(old(m.ram), m.ram, p, old(owner), owner, v0, n)
    {
      var v, done := v0, 0;
      ghost var ram0, owner0, free0 := m.ram, owner, m.free;
      NothingFreed(ram0, p, owner0, v0);
      while done < n
        invariant Valid() && done <= n && v == Nth(v0, done)
        invariant Balanced(owner0, owner, free0, m.free) && m.Drift() == old(m.Drift())
        invariant FreeDone(ram0, m.ram, p, owner0, owner, v0, done)
      {
        ghost var ram1, owner1, free1 := m.ram, owner, m.free;
        DropPage(v);
        FreeStep(ram0, ram1, m.ram, p, owner0, owner1, owner, free0, free1, m.free, v0, done, done + 1);
        v, done := Next(v), done + 1;
      }
    }

    /** pagetable_free: the pages of the range are unmapped, and those that came with the mapping
        are free again. */
    method FreeRange(vaddr: word, length: word)
      requires Valid()
      modifies this, m, m.freemap
      ensures Valid() && m.Drift() == old(m.Drift()) && Balanced(old(owner), owner, old(m.free), m.free)
      ensures FreeDone(old(m.ram), m.ram, p, old(owner), owner, vaddr / PAGE_SIZE, PagesIn(length))
    {
      Address(vaddr);
      FreePages(vaddr / PAGE_SIZE, PagesIn(length));
    }

    /** The pages that come with the entries of second-level table a are freed, and then the table. */
    method DeleteTable(a: nat, ghost free0: set<int>)
      requires Erasing(free0) && a < TABLE && DirEntry(m.ram, p, a).present && FreedTo(free0, m.free, owner, a, 0)
      modifies m`free, m`pagesFree, m.freemap
      ensures Erasing(free0) && FreedTo(free0, m.free, owner, a + 1, 0) && m.Drift() == old(m.Drift())
    {
      assert SlotOk(m.ram, p, owner, Root) && SlotOk(m.ram, p, owner, Dir(a)) && PageOk(m.ram, p, owner, free0, p);
      var q := m.ram[p][a].addr;
      var j := 0;
      while j < TABLE
        invariant j <= TABLE && Erasing(free0) && FreedTo(free0, m.free, owner, a, j) && m.Drift() == old(m.Drift())
      {
        ghost var free1 := m.free;
        var e := m.ram[q][j];
        OnePage(m.ram, p, owner, free0, Leaf(a, j));
        if e.present && e.avail != 0 {
          m.PageFree(e.addr);
        }
        FreedOne(m.ram, p, owner, free0, free1, m.free, Leaf(a, j), a, j, a, j + 1);
        j := j + 1;
      }
      ghost var free1 := m.free;
      OnePage(m.ram, p, owner, free0, Dir(a));
      m.PageFree(q);
      LastLeaf(m.ram, p, owner, free0, a);
      FreedOne(m.ram, p, owner, free0, free1, m.free, Dir(a), a, TABLE, a + 1, 0);
    }

    /** While the table is taken apart: the memory still reads as it did when its pages belonged to it. */
    ghost predicate Erasing(free0: set<int>)
      reads this, m, m.freemap
    {
      m.Valid() && TableOk(m.ram, p, owner, free0) && forall f {:trigger m.Managed(f)} :: f in owner ==> m.Managed(f)
    }

    /** pagetable_delete: all pages that belong to the table are free again, each freed once. */
    method Delete()
      requires Valid()
      modifies m`free, m`pagesFree, m.freemap
      ensures m.Valid() && m.free == old(m.free) + owner.Keys && m.Drift() == old(m.Drift())
    {
      ghost var free0 := m.free;
      assert SlotOk(m.ram, p, owner, Root) && PageOk(m.ram, p, owner, free0, p);
      var i := 0;
      while i < TABLE
        invariant i <= TABLE && Erasing(free0) && FreedTo(free0, m.free, owner, i, 0) && m.Drift() == old(m.Drift())
      {
        if m.ram[p][i].present {
          DeleteTable(i, free0);
        } else {
          NoTable(m.ram, p, owner, free0, i);
        }
        i := i + 1;
      }
      ghost var free1 := m.free;
      OnePage(m.ram, p, owner, free0, Root);
      m.PageFree(p);
      LastTable(m.ram, p, owner, free0, free1, m.free);
    }

    /** A copy of this table has been made of virtual pages up to n, out of pages that were free. */
    ghost predicate Copying(child: Pagetable, ram0: Ram, free0: set<int>, n: nat)
      reads this, child, m, m.freemap, child.m, child.m.freemap
    {
      && child.Valid() && child.m == m && child != this && TableOk(ram0, p, owner, free0)
      && Outside(ram0, m.ram, free0) && m.free <= free0 && Balanced(map[], child.owner, free0, m.free)
      && CopiedTo(ram0, m.ram, p, child.p, free0, n)
    }

    /** A new entry is at hand for place n of the copy. */
    ghost predicate Ready(child: Pagetable, ram0: Ram, free0: set<int>, n: nat, e: Entry, newe: Entry)
      reads this, child, m, m.freemap, child.m, child.m.freemap
    {
      && child.Valid() && child.m == m && child != this && TableOk(ram0, p, owner, free0)
      && Outside(ram0, m.ram, free0) && m.free <= free0 && CopiedTo(ram0, m.ram, p, child.p, free0, n)
      && EntryCopy(ram0, m.ram, child.owner, free0, m.free, e, newe)
      && Balanced(map[], child.owner, free0, m.free + Brought(newe)) && forall f {:trigger m.Managed(f)} ::
           f in Brought(newe) ==> m.Managed(f)
    }

    /** The copied entry: it names a copy of the page that came with it, or the same page. */
    method NewEntry(child: Pagetable, e: Entry, ghost ram0: Ram, ghost free0: set<int>, ghost n: nat)
      returns (ok: bool, newe: Entry)
      requires Copying(child, ram0, free0, n) && (e.present && e.avail != 0 ==> e.addr in owner)
      modifies m, m.freemap
      ensures m.Valid() && m.Drift() == old(m.Drift()) && (!ok ==> m.free == {})
      ensures ok ==>
                && Ready(child, ram0, free0, n, e, newe)
                && DirsKept(old(m.ram), m.ram, child.p, -1)
    {
      ok, newe := true, e;
      if e.present && e.avail != 0 {
        ghost var ram1, free1 := m.ram, m.free;
        var np := m.PageAlloc(false);
        if np == 0 { return false, e; }
        assert SlotOk(ram1, child.p, child.owner, Root) && PageOk(ram1, child.p, child.owner, free1, np)
               && PageOk(ram0, p, owner, free0, e.addr);
        assert Cells(ram1, e.addr) == Cells(ram0, e.addr);
        m.ram := m.ram[np := m.ram[e.addr]];
        TakePage(ram1, m.ram, child.p, child.owner, free1, np);
        CopiedKept(ram0, ram1, m.ram, p, child.p, child.owner, free0, free1, n);
        newe := e.(addr := np);
        assert free1 == m.free + {np};
      } else {
        assert m.free + Brought(newe) == m.free;
      }
    }

    /** The copy of an entry goes into the copied table. */
    method PutCopy(child: Pagetable, i: nat, j: nat, ghost n: nat, ghost n': nat, ghost e: Entry, newe: Entry,
                   ghost ram0: Ram, ghost free0: set<int>)
      requires i < TABLE && j < TABLE && n == i * TABLE + j && n' == n + 1 && Ready(child, ram0, free0, n, e, newe)
      requires DirEntry(ram0, p, i).present && At(ram0, p, n) == Meaning(DirEntry(ram0, p, i), e) && LeafOk(e)
      requires DirCopied(ram0, m.ram, p, child.p, i) && NoneAfter(m.ram, child.p, i)
      modifies child, m`ram
      ensures Copying(child, ram0, free0, n') && DirCopied(ram0, m.ram, p, child.p, i) && NoneAfter(m.ram, child.p, i)
    {
      hide At, Meaning, OthersAt, CopiedTo, OwnerAfter, TableOk;
      ghost var ram1, owner1 := m.ram, child.owner;
      KeysWithin(owner1, free0, m.free + Brought(newe));
      LeafChange(ram1, child.p, owner1, m.free, i, j, newe);
      child.SetEntry(i, j, newe);
      EntryCopied(ram0, ram1, m.ram, p, child.p, owner1, child.owner, free0, m.free, i, j, n, n', e, newe);
    }

    /** Entry j of table i is copied. */
    method CopyEntry(child: Pagetable, i: nat, j: nat, ghost n: nat, ghost n': nat, ghost ram0: Ram,
                     ghost free0: set<int>) returns (ok: bool)
      requires i < TABLE && j < TABLE && n == i * TABLE + j && n' == n + 1 && Copying(child, ram0, free0, n)
      requires DirEntry(ram0, p, i).present && DirCopied(ram0, m.ram, p, child.p, i) && NoneAfter(m.ram, child.p, i)
      modifies child, m, m.freemap
      ensures m.Valid() && m.Drift() == old(m.Drift()) && (!ok ==> m.free == {})
      ensures ok ==>
                Copying(child, ram0, free0, n') && DirCopied(ram0, m.ram, p, child.p, i) && NoneAfter(m.ram, child.p, i)
    {
      OldEntry(ram0, m.ram, p, owner, free0, i, j, n);
      var e := m.ram[m.ram[p][i].addr][j];
      var newe;
      ok, newe := NewEntry(child, e, ram0, free0, n);
      if ok {
        PutCopy(child, i, j, n, n', e, newe, ram0, free0);
      }
    }

    /** The copy gets a second-level table for entry i. */
    method StartTable(child: Pagetable, i: nat, ghost n: nat, ghost ram0: Ram, ghost free0: set<int>) returns (ok: bool)
      requires i < TABLE && n == i * TABLE && Copying(child, ram0, free0, n) && DirEntry(ram0, p, i).present
      requires !DirEntry(m.ram, child.p, i).present && NoneAfter(m.ram, child.p, i)
      modifies child, m, m.freemap
      ensures m.Valid() && m.Drift() == old(m.Drift()) && (!ok ==> m.free == {})
      ensures ok ==>
                Copying(child, ram0, free0, n) && DirCopied(ram0, m.ram, p, child.p, i) && NoneAfter(m.ram, child.p, i)
    {
      OldEntry(ram0, m.ram, p, owner, free0, i, 0, n);
      ghost var ram1, owner1, free1 := m.ram, child.owner, m.free;
      ok := child.NewTable(i, m.ram[p][i]);
      if ok {
        TableCopied(ram0, ram1, m.ram, p, child.p, owner1, child.owner, free0, free1, m.free, n);
      }
    }

    /** The entries of table i are copied, one after the other. */
    method CopyEntries(child: Pagetable, i: nat, ghost n: nat, ghost n': nat, ghost ram0: Ram, ghost free0: set<int>)
      returns (ok: bool)
      requires i < TABLE && n == i * TABLE && n' == n + TABLE && Copying(child, ram0, free0, n)
      requires DirEntry(ram0, p, i).present && DirCopied(ram0, m.ram, p, child.p, i) && NoneAfter(m.ram, child.p, i)
      modifies child, m, m.freemap
      ensures m.Valid() && m.Drift() == old(m.Drift()) && (!ok ==> m.free == {})
      ensures ok ==> Copying(child, ram0, free0, n') && NoneAfter(m.ram, child.p, i)
    {
      hide At, Meaning, OthersAt, TableOk, CopiedTo;
      var j := 0;
      ghost var k := n;
      ok := true;
      while j < TABLE && ok
        invariant j <= TABLE && k == n + j && m.Valid() && m.Drift() == old(m.Drift()) && (!ok ==> m.free == {})
        invariant ok ==>
                    Copying(child, ram0, free0, k) && DirCopied(ram0, m.ram, p, child.p, i)
                    && NoneAfter(m.ram, child.p, i)
      {
        ghost var k' := k + 1;
        ok := CopyEntry(child, i, j, k, k', ram0, free0);
        j, k := j + 1, k';
      }
    }

    /** Table i is copied. */
    method CopyTable(child: Pagetable, i: nat, ghost n: nat, ghost n': nat, ghost ram0: Ram, ghost free0: set<int>)
      returns (ok: bool)
      requires i < TABLE && n == i * TABLE && n' == n + TABLE && Copying(child, ram0, free0, n)
      requires DirEntry(ram0, p, i).present && !DirEntry(m.ram, child.p, i).present && NoneAfter(m.ram, child.p, i)
      modifies child, m, m.freemap
      ensures m.Valid() && m.Drift() == old(m.Drift()) && (!ok ==> m.free == {})
      ensures ok ==> Copying(child, ram0, free0, n') && NoneAfter(m.ram, child.p, i)
    {
      ok := StartTable(child, i, n, ram0, free0);
      if ok {
        ok := CopyEntries(child, i, n, n', ram0, free0);
      }
    }

    /** The loop of pagetable_duplicate. */
    method CopyAll(child: Pagetable, ghost ram0: Ram, ghost free0: set<int>) returns (ok: bool)
      requires Copying(child, ram0, free0, 0) && NoneAfter(m.ram, child.p, -1)
      modifies child, m, m.freemap
      ensures m.Valid() && m.Drift() == old(m.Drift()) && (!ok ==> m.free == {})
      ensures ok ==> Copying(child, ram0, free0, VPAGES)
    {
      var i := 0;
      ghost var k := 0;
      ok := true;
      while i < TABLE && ok
        invariant i <= TABLE && k == i * TABLE && m.Valid() && m.Drift() == old(m.Drift()) && (!ok ==> m.free == {})
        invariant ok ==> Copying(child, ram0, free0, k) && NoneAfter(m.ram, child.p, i - 1)
      {
        ghost var k' := k + TABLE;
        OldDir(ram0, m.ram, p, owner, free0, i);
        assert !DirEntry(m.ram, child.p, i).present;
        if m.ram[p][i].present {
          ok := CopyTable(child, i, k, k', ram0, free0);
        } else {
          SkipTable(ram0, m.ram, p, child.p, free0, i, k, k');
        }
        i, k := i + 1, k';
      }
    }

    /** pagetable_duplicate. The copy has the same pages mapped with the same rights; pages that
        came with a mapping are copied into pages that were free, other pages are shared. When
        the pages run out the machine halts. */
    method Duplicate() returns (child: Pagetable?)
      requires Valid()
      modifies m, m.freemap
      ensures m.Valid() && m.Drift() == old(m.Drift()) && (child == null ==> m.free == {})
      ensures child != null ==>
                && fresh(child) && child.Valid() && child.m == m && Valid() && Outside(old(m.ram), m.ram, old(m.free))
                && CopiedTo(old(m.ram), m.ram, p, child.p, old(m.free), VPAGES)
                && Balanced(map[], child.owner, old(m.free), m.free) && owner.Keys !! child.owner.Keys
    {
      ghost var ram0, free0 := m.ram, m.free;
      var page := m.PageAlloc(true);
      if page == 0 { return null; }
      assert PageOk(ram0, p, owner, free0, page);
      child := new Pagetable(m, page);
      NothingCopied(ram0, m.ram, p, child.p, free0, m.free, child.owner);
      var ok := CopyAll(child, ram0, free0);
      if !ok { return null; }
      SourceKept(ram0, m.ram, p, owner, child.owner, free0, m.free);
    }
  }

  /** The root of the copied table still reads as it did. */
  lemma OldDir(ram0: Ram, ram: Ram, p: int, owner: map<int, Slot>, free0: set<int>, a: nat)
    requires TableOk(ram0, p, owner, free0) && Outside(ram0, ram, free0) && RamOk(ram) && a < TABLE
    ensures p in ram && DirEntry(ram, p, a) == DirEntry(ram0, p, a)
  {
    assert SlotOk(ram0, p, owner, Root) && PageOk(ram0, p, owner, free0, p);
  }

  /** Where the root has no table, there is nothing to copy. */
  lemma SkipTable(ram0: Ram, ram: Ram, sp: int, cp: int, free0: set<int>, a: nat, n: nat, n': nat)
    requires CopiedTo(ram0, ram, sp, cp, free0, n) && a < TABLE && n == a * TABLE && n' == n + TABLE
             && !DirEntry(ram0, sp, a).present
    ensures CopiedTo(ram0, ram, sp, cp, free0, n')
  {
    forall w: nat ensures CopiedAt(ram0, ram, sp, cp, free0, n', w) {
      assert CopiedAt(ram0, ram, sp, cp, free0, n, w);
      if n <= w < n' { assert w / TABLE == a; }
    }
  }

  lemma NothingCopied(ram0: Ram, ram1: Ram, sp: int, cp: pageno, free0: set<int>, free1: set<int>, owner1: map<int,
                      Slot>)
    requires RamOk(ram0) && cp in free0 && ram1 == ram0[cp := ZeroPage()] && free1 == free0 - {cp}
             && owner1 == map[cp := Root]
    requires forall v: nat {:trigger At(ram1, cp, v)} :: v < VPAGES ==> At(ram1, cp, v) == Absent
    ensures Outside(ram0, ram1, free0) && CopiedTo(ram0, ram1, sp, cp, free0, 0) && NoneAfter(ram1, cp, -1)
    ensures Balanced(map[], owner1, free0, free1)
  {
    assert owner1.Keys == {cp};
    var none: map<int, Slot> := map[];
    assert none.Keys + free0 == free0 == {cp} + free1;
    forall w: nat ensures CopiedAt(ram0, ram1, sp, cp, free0, 0, w) {}
  }

  /** The table that was copied has not noticed. */
  lemma SourceKept(ram0: Ram, ram: Ram, p: int, owner: map<int, Slot>, cowner: map<int, Slot>, free0: set<int>,
                   free: set<int>)
    requires TableOk(ram0, p, owner, free0) && Outside(ram0, ram, free0) && RamOk(ram) && free <= free0
             && Balanced(map[], cowner, free0, free)
    ensures TableOk(ram, p, owner, free) && owner.Keys !! cowner.Keys
  {
    KeysWithin(cowner, free0, free);
    forall f | f in owner ensures f !in free0 && 0 <= f < ALL_PAGES { assert PageOk(ram0, p, owner, free0, f); }
    TableKept(ram0, ram, p, owner, free0, free);
  }

  /** The entries of the root after i are not there. */
  ghost predicate NoneAfter(ram: Ram, p: int, i: int) {
    forall c: nat {:trigger DirEntry(ram, p, c)} :: i < c < TABLE ==> !DirEntry(ram, p, c).present
  }

  /** Entry a of the copied root grants what the entry it was copied from grants. */
  ghost predicate DirCopied(ram0: Ram, ram: Ram, sp: int, cp: int, a: nat)
    requires a < TABLE
  {
    DirEntry(ram, cp, a) == DirEntry(ram0, sp, a).(addr := DirEntry(ram, cp, a).addr)
  }

  /** A new second-level table of the copy leaves what is copied alone. */
  lemma TableCopied(ram0: Ram, ram1: Ram, ram2: Ram, sp: int, cp: int, owner1: map<int, Slot>, owner2: map<int, Slot>,
                    free0: set<int>, free1: set<int>, free2: set<int>, n: nat)
    requires TableOk(ram1, cp, owner1, free1) && CopiedTo(ram0, ram1, sp, cp, free0, n) && Outside(ram0, ram1, free0)
    requires OthersAt(ram1, ram2, cp, -1) && Fair(ram1, ram2, owner1, owner2, free1, free2) && free1 <= free0
    requires Balanced(map[], owner1, free0, free1)
    ensures CopiedTo(ram0, ram2, sp, cp, free0, n) && Outside(ram0, ram2, free0)
            && Balanced(map[], owner2, free0, free2)
  {
    KeysWithin(owner1, free0, free1);
    CopiedKept(ram0, ram1, ram2, sp, cp, owner1, free0, free1, n);
    forall f | 0 <= f < ALL_PAGES && f !in free0 ensures Cells(ram2, f) == Cells(ram0, f) {
      assert f !in owner1.Keys && Cells(ram1, f) == Cells(ram0, f);
    }
  }

  /** The page that comes with an entry. */
  ghost function Brought(e: Entry): set<int> {
    if e.present && e.avail != 0 then {e.addr} else {}
  }

  lemma KeysWithin(owner: map<int, Slot>, free0: set<int>, free: set<int>)
    requires Balanced(map[], owner, free0, free)
    ensures owner.Keys <= free0
  {
    assert forall f :: f in owner.Keys ==> f in owner.Keys + free;
    var none: map<int, Slot> := map[];
    assert none.Keys + free0 == free0;
  }

  /** An entry and its copy. */
  ghost predicate EntryCopy(ram0: Ram, ram1: Ram, owner1: map<int, Slot>, free0: set<int>, free1: set<int>, e: Entry,
                            newe: Entry) {
    && newe == e.(addr := newe.addr)
    && (e.present && e.avail == 0 ==> newe.addr == e.addr)
    && (e.present && e.avail != 0 ==>
          newe.addr in free0 && newe.addr !in owner1 && newe.addr !in free1
          && Cells(ram1, newe.addr) == Cells(ram0, e.addr))
  }

  lemma EntryCopied(ram0: Ram, ram1: Ram, ram2: Ram, sp: int, cp: int, owner1: map<int, Slot>, owner2: map<int, Slot>,
                    free0: set<int>, free1: set<int>, a: nat, b: nat, n: nat, n': nat, e: Entry, newe: Entry)
    requires TableOk(ram1, cp, owner1, free1) && CopiedTo(ram0, ram1, sp, cp, free0, n) && n == a * TABLE + b
             && n' == n + 1
    requires EntrySet(ram1, ram2, cp, owner1, owner2, a, b, newe) && Outside(ram0, ram1, free0) && owner1.Keys <= free0
    requires a < TABLE && DirEntry(ram0, sp, a).present && DirCopied(ram0, ram1, sp, cp, a)
    requires EntryCopy(ram0, ram1, owner1, free0, free1, e, newe)
             && At(ram0, sp, n) == Meaning(DirEntry(ram0, sp, a), e) && LeafOk(e)
    ensures CopiedTo(ram0, ram2, sp, cp, free0, n') && Outside(ram0, ram2, free0)
    ensures owner2.Keys == owner1.Keys + Brought(newe)
  {
    hide At, Meaning, OthersAt;
    EntryChanges(ram1, ram2, cp, owner1, owner2, free1, a, b, newe);
    forall f | 0 <= f < ALL_PAGES && f !in free0 ensures Cells(ram2, f) == Cells(ram0, f) {
      assert f !in owner1.Keys && Cells(ram1, f) == Cells(ram0, f);
    }
    CopiedNow(ram0, ram1, ram2, sp, cp, owner1, owner2, free0, free1, a, b, n, e, newe);
    forall w: nat ensures CopiedAt(ram0, ram2, sp, cp, free0, n', w) {
      if w != n { CopiedStays(ram0, ram1, ram2, sp, cp, owner1, free0, free1, n, n, w); }
    }
    assert CopiedAt(ram0, ram1, sp, cp, free0, n, n);
    LeafOwns(ram1, cp, owner1, free1, a, b);
  }

  /** Setting an entry changes one second-level table. */
  lemma EntryChanges(ram1: Ram, ram2: Ram, cp: int, owner1: map<int, Slot>, owner2: map<int, Slot>, free1: set<int>,
                     a: nat, b: nat, e: Entry)
    requires TableOk(ram1, cp, owner1, free1) && EntrySet(ram1, ram2, cp, owner1, owner2, a, b, e)
    ensures Kept(ram1, ram2, owner1, free1)
    ensures forall f {:trigger Cells(ram2, f)} :: f !in owner1 ==> Cells(ram2, f) == Cells(ram1, f)
  {
    assert SlotOk(ram1, cp, owner1, Dir(a));
  }

  lemma CopiedNow(ram0: Ram, ram1: Ram, ram2: Ram, sp: int, cp: int, owner1: map<int, Slot>, owner2: map<int, Slot>,
                  free0: set<int>, free1: set<int>, a: nat, b: nat, n: nat, e: Entry, newe: Entry)
    requires TableOk(ram1, cp, owner1, free1) && n == a * TABLE + b
             && EntrySet(ram1, ram2, cp, owner1, owner2, a, b, newe)
    requires a < TABLE && DirEntry(ram0, sp, a).present && DirCopied(ram0, ram1, sp, cp, a)
    requires EntryCopy(ram0, ram1, owner1, free0, free1, e, newe)
             && At(ram0, sp, n) == Meaning(DirEntry(ram0, sp, a), e) && LeafOk(e)
    ensures CopyOf(At(ram0, sp, n), At(ram2, cp, n), ram0, ram2, free0)
  {
    EntryChanges(ram1, ram2, cp, owner1, owner2, free1, a, b, newe);
    assert newe.addr !in owner1 ==> Cells(ram2, newe.addr) == Cells(ram1, newe.addr);
  }

  /** The copied table still reads as it did. */
  lemma OldEntry(ram0: Ram, ram: Ram, p: int, owner: map<int, Slot>, free0: set<int>, a: nat, b: nat, v: nat)
    requires v == a * TABLE + b && TableOk(ram0, p, owner, free0) && Outside(ram0, ram, free0) && RamOk(ram)
             && a < TABLE && b < TABLE && DirEntry(ram0, p, a).present
    ensures p in ram && DirEntry(ram, p, a) == DirEntry(ram0, p, a) && ram[p][a].addr in ram
    ensures LeafEntry(ram, p, a, b) == LeafEntry(ram0, p, a, b)
    ensures var e := LeafEntry(ram0, p, a, b);
            && LeafOk(e) && (e.present && e.avail != 0 ==> e.addr in owner) && DirOk(DirEntry(ram0, p, a))
            && At(ram0, p, v) == Meaning(DirEntry(ram0, p, a), e)
  {
    assert SlotOk(ram0, p, owner, Root) && SlotOk(ram0, p, owner, Dir(a)) && SlotOk(ram0, p, owner, Leaf(a, b));
    assert PageOk(ram0, p, owner, free0, p) && PageOk(ram0, p, owner, free0, DirEntry(ram0, p, a).addr);
    assert EntriesOk(ram0, p, a, b);
    assert v / TABLE == a && v % TABLE == b;
  }

  /** Memory is the same outside the pages that were free. */
  ghost predicate Outside(ram0: Ram, ram: Ram, free0: set<int>) {
    forall f {:trigger Cells(ram, f)} :: 0 <= f < ALL_PAGES && f !in free0 ==> Cells(ram, f) == Cells(ram0, f)
  }

  /** y is what x becomes in a copy: a page of its own has a copy with the same contents. */
  ghost predicate CopyOf(x: Mapping, y: Mapping, ram0: Ram, ram: Ram, free0: set<int>) {
    if x == Absent then y == Absent
    else
      && y.Mapped? && y.readwrite == x.readwrite && y.kernel == x.kernel && y.alloc == x.alloc
      && y.write == x.write && y.user == x.user
      && if x.alloc then y.page in free0 && Cells(ram, y.page) == Cells(ram0, x.page) else y.page == x.page
  }

  ghost predicate CopiedAt(ram0: Ram, ram: Ram, sp: int, cp: int, free0: set<int>, n: nat, w: nat) {
    w < VPAGES ==> if w < n then CopyOf(At(ram0, sp, w), At(ram, cp, w), ram0, ram, free0) else At(ram, cp, w) == Absent
  }

  ghost predicate CopiedTo(ram0: Ram, ram: Ram, sp: int, cp: int, free0: set<int>, n: nat) {
    forall w: nat {:trigger CopiedAt(ram0, ram, sp, cp, free0, n, w)} :: CopiedAt(ram0, ram, sp, cp, free0, n, w)
  }

  /** What has been copied stays as it is while other entries of the copy change. */
  lemma CopiedStays(ram0: Ram, ram1: Ram, ram2: Ram, sp: int, cp: int, owner: map<int, Slot>, free0: set<int>,
                    free1: set<int>, n: nat, v: int, w: nat)
    requires TableOk(ram1, cp, owner, free1) && CopiedTo(ram0, ram1, sp, cp, free0, n)
    requires OthersAt(ram1, ram2, cp, v) && Kept(ram1, ram2, owner, free1) && w != v
    ensures CopiedAt(ram0, ram2, sp, cp, free0, n, w)
  {
    assert CopiedAt(ram0, ram1, sp, cp, free0, n, w);
    if w < VPAGES {
      OwnedAt(ram1, cp, owner, free1, w);
      assert At(ram2, cp, w) == At(ram1, cp, w);
      var y := At(ram1, cp, w);
      if y.Mapped? && y.alloc {
        assert PageOk(ram1, cp, owner, free1, y.page);
        assert Cells(ram2, y.page) == Cells(ram1, y.page);
      }
    }
  }

  lemma CopiedKept(ram0: Ram, ram1: Ram, ram2: Ram, sp: int, cp: int, owner: map<int, Slot>, free0: set<int>,
                   free1: set<int>, n: nat)
    requires TableOk(ram1, cp, owner, free1) && CopiedTo(ram0, ram1, sp, cp, free0, n)
    requires OthersAt(ram1, ram2, cp, -1) && Kept(ram1, ram2, owner, free1)
    ensures CopiedTo(ram0, ram2, sp, cp, free0, n)
  {
    forall w: nat ensures CopiedAt(ram0, ram2, sp, cp, free0, n, w) {
      CopiedStays(ram0, ram1, ram2, sp, cp, owner, free0, free1, n, -1, w);
    }
  }

  /** Whether the taking apart has gone past a place: before entry b of table a. */
  predicate Passed(s: Slot, a: nat, b: nat) {
    match s
    case Root => false
    case Dir(c) => c < a
    case Leaf(c, d) => c < a || (c == a && d < b)
  }

  /** Exactly the pages of the places gone past have been freed. */
  ghost predicate FreedTo(free0: set<int>, free: set<int>, owner: map<int, Slot>, a: nat, b: nat) {
    forall f {:trigger f in free} :: f in free <==> f in free0 || (f in owner && Passed(owner[f], a, b))
  }

  /** Two pages never have the same place. */
  lemma OnePage(ram: Ram, p: int, owner: map<int, Slot>, free0: set<int>, s: Slot)
    requires TableOk(ram, p, owner, free0)
    ensures Has(ram, p, s) ==>
              PageOf(ram, p, s) in owner && owner[PageOf(ram, p, s)] == s && PageOf(ram, p, s) !in free0
    ensures forall f :: f in owner && owner[f] == s ==> Has(ram, p, s) && f == PageOf(ram, p, s)
  {
    assert SlotOk(ram, p, owner, s);
    forall f | f in owner && owner[f] == s
      ensures Has(ram, p, s) && f == PageOf(ram, p, s) && f !in free0 { assert PageOk(ram, p, owner, free0, f); }
  }

  lemma LastLeaf(ram: Ram, p: int, owner: map<int, Slot>, free0: set<int>, a: nat)
    requires TableOk(ram, p, owner, free0)
    ensures forall f {:trigger f in owner} ::
              f in owner ==> (Passed(owner[f], a + 1, 0) <==> Passed(owner[f], a, TABLE) || owner[f] == Dir(a))
  {
    forall f | f in owner ensures Passed(owner[f], a + 1, 0) <==> Passed(owner[f], a, TABLE) || owner[f] == Dir(a) {
      assert PageOk(ram, p, owner, free0, f);
    }
  }

  lemma NoTable(ram: Ram, p: int, owner: map<int, Slot>, free0: set<int>, a: nat)
    requires TableOk(ram, p, owner, free0) && a < TABLE && !DirEntry(ram, p, a).present
    ensures forall f {:trigger f in owner} :: f in owner ==> (Passed(owner[f], a + 1, 0) <==> Passed(owner[f], a, 0))
  {
    forall f | f in owner
      ensures Passed(owner[f], a + 1, 0) <==> Passed(owner[f], a, 0) { assert PageOk(ram, p, owner, free0, f); }
  }

  lemma LastTable(ram: Ram, p: int, owner: map<int, Slot>, free0: set<int>, free1: set<int>, free2: set<int>)
    requires TableOk(ram, p, owner, free0) && FreedTo(free0, free1, owner, TABLE, 0) && free2 == free1 + {p}
    ensures free2 == free0 + owner.Keys
  {
    OnePage(ram, p, owner, free0, Root);
    forall f ensures f in free2 <==> f in free0 + owner.Keys { assert PageOk(ram, p, owner, free0, f); }
  }

  /** One place more: its page, if it has one, is freed. */
  lemma FreedOne(ram: Ram, p: int, owner: map<int, Slot>, free0: set<int>, free1: set<int>, free2: set<int>, s: Slot,
                 a: nat, b: nat, a': nat, b': nat)
    requires TableOk(ram, p, owner, free0) && FreedTo(free0, free1, owner, a, b)
    requires free2 == if Has(ram, p, s) then free1 + {PageOf(ram, p, s)} else free1
    requires !Passed(s, a, b)
    requires forall f {:trigger f in owner} ::
               f in owner ==> (Passed(owner[f], a', b') <==> Passed(owner[f], a, b) || owner[f] == s)
    ensures Has(ram, p, s) ==> PageOf(ram, p, s) !in free1
    ensures FreedTo(free0, free2, owner, a', b')
  {
    OnePage(ram, p, owner, free0, s);
  }

  /** Virtual page v is not mapped any more; the page that came with it is free. */
  ghost predicate PageDropped(ram: Ram, ram': Ram, p: int, owner: map<int, Slot>, owner': map<int, Slot>,
                              free: set<int>, free': set<int>, v: nat) {
    v < VPAGES &&
    var x := At(ram, p, v);
    && At(ram', p, v) == Absent && OthersAt(ram, ram', p, v) && Kept(ram, ram', owner, {})
       && TablesFrom(owner, owner', {}) && DirsKept(ram, ram', p, -1)
    && free' == (if x.Mapped? && x.alloc then free + {x.page} else free)
    && (x.Mapped? && x.alloc ==> x.page in owner && x.page !in free)
    && owner' == (if x.Mapped? && x.alloc then owner - {x.page} else owner)
  }

  lemma OwnedAt(ram: Ram, p: int, owner: map<int, Slot>, free: set<int>, v: nat)
    requires TableOk(ram, p, owner, free) && v < VPAGES
    ensures var x := At(ram, p, v); x.Mapped? && x.alloc ==>
              x.page in owner && x.page !in free && owner[x.page] == Leaf(v / TABLE, v % TABLE)
  {
    LeafOwns(ram, p, owner, free, v / TABLE, v % TABLE);
    assert v == v / TABLE * TABLE + v % TABLE;
    var x := At(ram, p, v);
    assert x.Mapped? ==> PageOk(ram, p, owner, free, x.page);
  }

  lemma DropStep(ram: Ram, p: int, owner: map<int, Slot>, free: set<int>, page: int)
    requires TableOk(ram, p, owner, free) && page !in owner
    ensures TableOk(ram, p, owner, free + {page})
  {
    forall f | f in owner ensures f !in free + {page} { assert PageOk(ram, p, owner, free, f); }
    TableKept(ram, ram, p, owner, free, free + {page});
  }

  ghost predicate FreeAt(ram: Ram, ram': Ram, p: int, v: nat, n: nat, w: nat) {
    w < VPAGES ==> At(ram', p, w) == if InRange(v, n, w) then Absent else At(ram, p, w)
  }

  /** The first n pages from v on are unmapped; nothing else has changed. */
  ghost predicate FreeDone(ram: Ram, ram': Ram, p: int, owner: map<int, Slot>, owner': map<int, Slot>, v: nat, n: nat) {
    && (forall w: nat {:trigger FreeAt(ram, ram', p, v, n, w)} :: FreeAt(ram, ram', p, v, n, w))
    && Kept(ram, ram', owner, {}) && TablesFrom(owner, owner', {}) && DirsKept(ram, ram', p, -1)
  }

  lemma NothingFreed(ram: Ram, p: int, owner: map<int, Slot>, v: nat)
    ensures FreeDone(ram, ram, p, owner, owner, v, 0)
  {
  }

  lemma FreeStep(ram0: Ram, ram1: Ram, ram2: Ram, p: int, owner0: map<int, Slot>, owner1: map<int, Slot>,
                 owner2: map<int, Slot>,
                 free0: set<int>, free1: set<int>, free2: set<int>, v0: nat, n: nat, n': nat)
    requires FreeDone(ram0, ram1, p, owner0, owner1, v0, n) && Balanced(owner0, owner1, free0, free1) && v0 < VPAGES
             && n' == n + 1
    requires PageDropped(ram1, ram2, p, owner1, owner2, free1, free2, Nth(v0, n))
    ensures FreeDone(ram0, ram2, p, owner0, owner2, v0, n') && Balanced(owner0, owner2, free0, free2)
  {
    var v := Nth(v0, n);
    forall w: nat ensures FreeAt(ram0, ram2, p, v0, n', w) {
      assert FreeAt(ram0, ram1, p, v0, n, w);
      if w < VPAGES {
        NextInRange(v0, n, w);
        if w != v { assert At(ram2, p, w) == At(ram1, p, w); }
      }
    }
    KeptTwice(ram0, ram1, ram2, owner0, owner1, {}, {});
    var x := At(ram1, p, v);
    if x.Mapped? && x.alloc { assert owner2.Keys == owner1.Keys - {x.page}; }
  }

  /** length rounded up, in pages. */
  function PagesIn(length: nat): (n: nat)
    ensures length <= 4096 * n < length + 4096
  {
    length / PAGE_SIZE + if length % PAGE_SIZE != 0 then 1 else 0
  }

  /** w is one of the n pages from v on; addresses wrap around. */
  predicate InRange(v: nat, n: nat, w: nat) {
    (w - v) % VPAGES < n
  }

  /** The virtual page after v; addresses wrap around. */
  function Next(v: nat): (w: nat)
    ensures v < VPAGES ==> w < VPAGES
  {
    if v + 1 == VPAGES then 0 else v + 1
  }

  /** The n-th page after v. */
  function Nth(v: nat, n: nat): (w: nat)
    ensures v < VPAGES ==> w < VPAGES
  {
    if n == 0 then v else Next(Nth(v, n - 1))
  }

  lemma {:induction false} NthIs(v: nat, n: nat)
    requires v < VPAGES
    ensures Nth(v, n) == (v + n) % VPAGES
  {
    if n > 0 {
      NthIs(v, n - 1);
      NextIs(v + n - 1);
    }
  }

  lemma NextIs(x: nat)
    ensures Next(x % VPAGES) == (x + 1) % VPAGES
  {
  }

  /** Pages have only passed between a table and the free pages. */
  ghost predicate Balanced(owner: map<int, Slot>, owner': map<int, Slot>, free: set<int>, free': set<int>) {
    owner'.Keys + free' == owner.Keys + free
  }

  ghost predicate UnmapDone(ram: Ram, ram': Ram, p: int, owner: map<int, Slot>, owner': map<int, Slot>, free: set<int>,
                            v: nat)
    requires v < VPAGES
  {
    var x := At(ram, p, v);
    && At(ram', p, v) == Absent && OthersAt(ram, ram', p, v) && Kept(ram, ram', owner, {})
       && TablesFrom(owner, owner', {}) && DirsKept(ram, ram', p, -1)
    && owner' == if x.Mapped? && x.alloc then owner - {x.page} else owner
  }

  lemma UnmapStep(ram: Ram, ram': Ram, p: int, owner: map<int, Slot>, owner': map<int, Slot>, free: set<int>, a: nat,
                  b: nat, v: nat, e: Entry)
    requires TableOk(ram, p, owner, free) && v == a * TABLE + b && EntrySet(ram, ram', p, owner, owner', a, b, e)
             && !e.present
    ensures UnmapDone(ram, ram', p, owner, owner', free, v)
  {
    LeafOwns(ram, p, owner, free, a, b);
    assert SlotOk(ram, p, owner, Dir(a));
  }

  /** A page of its own, with the given rights, and cleared if that was asked for. */
  ghost predicate FreshMapping(ram: Ram, x: Mapping, free: set<int>, flags: Flags, d: Entry) {
    && x.Mapped? && x.page in free && x.readwrite == flags.readwrite && x.kernel == flags.kernel && x.alloc
    && x.write == flags.readwrite && (x.user <==> !flags.kernel && OpenDir(d))
    && (flags.clear ==> Cells(ram, x.page) == ZeroPage())
  }

  ghost predicate AllocAt(ram: Ram, ram': Ram, p: int, free: set<int>, v: nat, n: nat, flags: Flags, w: nat) {
    w < VPAGES ==>
      if InRange(v, n, w) && At(ram, p, w) == Absent
        then FreshMapping(ram', At(ram', p, w), free, flags, DirEntry(ram, p, w / TABLE))
      else At(ram', p, w) == At(ram, p, w)
  }

  /** The first n pages from v on that were not mapped have got pages; nothing else has changed. */
  ghost predicate AllocDone(ram: Ram, ram': Ram, p: int, owner: map<int, Slot>, owner': map<int, Slot>, free: set<int>,
                            free': set<int>,
                            v: nat, n: nat, flags: Flags) {
    && (forall w: nat {:trigger AllocAt(ram, ram', p, free, v, n, flags, w)} ::
          AllocAt(ram, ram', p, free, v, n, flags, w))
    && Kept(ram, ram', owner, free) && TablesFrom(owner, owner', free) && free' <= free
    && DirsMade(ram, ram', p, flags.kernel)
  }

  /** Whether user mappings below entry d of the root are in reach of user code: the entry is the
      user's already, or is still to be made. */
  predicate OpenDir(d: Entry) {
    d.present ==> d.user
  }

  /** Entry a of the root is the old one, or else a new one for the kernel or for the user. */
  ghost predicate DirMade(ram: Ram, ram': Ram, p: int, kernel: bool, a: nat) {
    a < TABLE ==>
      var d, d' := DirEntry(ram, p, a), DirEntry(ram', p, a);
      d' == d || (!d.present && d'.present && d'.user == !kernel)
  }

  ghost predicate DirsMade(ram: Ram, ram': Ram, p: int, kernel: bool) {
    forall a: nat {:trigger DirMade(ram, ram', p, kernel, a)} :: DirMade(ram, ram', p, kernel, a)
  }

  lemma NothingAlloced(ram: Ram, p: int, owner: map<int, Slot>, free: set<int>, v: nat, flags: Flags)
    ensures AllocDone(ram, ram, p, owner, owner, free, free, v, 0, flags)
  {
  }

  /** Virtual page v is mapped; if it was not, it has got a page of its own. */
  ghost predicate PageEnsured(ram: Ram, ram': Ram, p: int, owner: map<int, Slot>, owner': map<int, Slot>,
                              free: set<int>, free': set<int>,
                              v: nat, flags: Flags) {
    v < VPAGES &&
    if At(ram, p, v) == Absent then MapDone(ram, ram', p, owner, owner', free, free', v, 0, flags.(alloc := true))
    && free' <= free
    else ram' == ram && owner' == owner && free' == free
  }

  /** One page more. */
  lemma AllocStep(ram0: Ram, ram1: Ram, ram2: Ram, p: int, owner0: map<int, Slot>, owner1: map<int, Slot>,
                  owner2: map<int, Slot>,
                  free0: set<int>, free1: set<int>, free2: set<int>, v0: nat, n: nat, n': nat, flags: Flags)
    requires AllocDone(ram0, ram1, p, owner0, owner1, free0, free1, v0, n, flags) && v0 < VPAGES && n' == n + 1
    requires PageEnsured(ram1, ram2, p, owner1, owner2, free1, free2, Nth(v0, n), flags)
             && TableOk(ram1, p, owner1, free1)
    ensures AllocDone(ram0, ram2, p, owner0, owner2, free0, free2, v0, n', flags)
  {
    var v := Nth(v0, n);
    assert DirMade(ram0, ram1, p, flags.kernel, v / TABLE);
    forall w: nat ensures AllocAt(ram0, ram2, p, free0, v0, n', flags, w) {
      assert AllocAt(ram0, ram1, p, free0, v0, n, flags, w);
      if w < VPAGES {
        NextInRange(v0, n, w);
        if w != v && At(ram1, p, v) == Absent {
          assert At(ram2, p, w) == At(ram1, p, w);
          OwnPageKept(ram1, ram2, p, owner1, free1, w);
        }
      }
    }
    if At(ram1, p, v) == Absent {
      KeptTwice(ram0, ram1, ram2, owner0, owner1, free0, free1);
      DirsTwice(ram0, ram1, ram2, p, flags.kernel, v / TABLE);
    }
  }

  lemma DirsTwice(ram0: Ram, ram1: Ram, ram2: Ram, p: int, kernel: bool, a: nat)
    requires DirsMade(ram0, ram1, p, kernel) && DirsKept(ram1, ram2, p, a) && DirMade(ram1, ram2, p, kernel, a)
    ensures DirsMade(ram0, ram2, p, kernel)
  {
    forall c: nat ensures DirMade(ram0, ram2, p, kernel, c) {
      assert DirMade(ram0, ram1, p, kernel, c);
      assert c < TABLE && c != a ==> DirEntry(ram2, p, c) == DirEntry(ram1, p, c);
    }
  }

  /** What a page that came with a mapping holds is not touched by work on tables. */
  lemma OwnPageKept(ram: Ram, ram': Ram, p: int, owner: map<int, Slot>, free: set<int>, w: nat)
    requires TableOk(ram, p, owner, free) && Kept(ram, ram', owner, free) && w < VPAGES
    ensures var x := At(ram, p, w); x.Mapped? && x.alloc ==> Cells(ram', x.page) == Cells(ram, x.page)
  {
    OwnedAt(ram, p, owner, free, w);
    var x := At(ram, p, w);
    if x.Mapped? && x.alloc { assert PageOk(ram, p, owner, free, x.page); }
  }

  lemma NextInRange(v: nat, n: nat, w: nat)
    requires v < VPAGES && w < VPAGES
    ensures InRange(v, n + 1, w) <==> InRange(v, n, w) || w == Nth(v, n)
  {
    NthIs(v, n);
    RangeEnd(v, n, w);
  }

  lemma RangeEnd(v: nat, n: nat, w: nat)
    requires v < VPAGES && w < VPAGES
    ensures InRange(v, n + 1, w) <==> InRange(v, n, w) || w == (v + n) % VPAGES
  {
  }

  /** The entry of a second-level table for a page. */
  function LeafFor(flags: Flags, page: pageno): Entry {
    Entry(true, flags.readwrite, !flags.kernel, false, false, false, false, false, flags.kernel,
          if flags.alloc then 1 else 0, page)
  }

  /** A page is at hand for a mapping: a fresh one that no one owns, or the given one. */
  ghost predicate PageReady(ram: Ram, ram': Ram, p: int, owner: map<int, Slot>, free: set<int>, free': set<int>,
                            given: int, page: int, flags: Flags) {
    && OthersAt(ram, ram', p, -1) && Kept(ram, ram', owner, free)
       && free' == free - (if flags.alloc then {page} else {}) && DirsKept(ram, ram', p, -1)
    && if flags.alloc then page in free && page !in owner
       && (flags.clear ==> Cells(ram', page) == ZeroPage()) else page == given
  }

  /** There is a second-level table for entry a. */
  ghost predicate TableReady(ram: Ram, ram': Ram, p: int, owner: map<int, Slot>, owner': map<int, Slot>, free: set<int>,
                             free': set<int>, a: nat, kernel: bool) {
    && a < TABLE && DirsKept(ram, ram', p, a) && DirMade(ram, ram', p, kernel, a) && DirEntry(ram', p, a).present
       && OthersAt(ram, ram', p, -1)
    && Fair(ram, ram', owner, owner', free, free') && free' <= free && TablesFrom(owner, owner', free)
  }

  /** The entry for a and b has been set. */
  ghost predicate EntrySet(ram: Ram, ram': Ram, p: int, owner: map<int, Slot>, owner': map<int, Slot>, a: nat, b: nat,
                           e: Entry) {
    && a < TABLE && b < TABLE && DirEntry(ram, p, a).present
    && ram' == SetCell(ram, DirEntry(ram, p, a).addr, b, e) && owner' == OwnerAfter(ram, p, owner, a, b, e)
    && At(ram', p, a * TABLE + b) == Meaning(DirEntry(ram, p, a), e) && OthersAt(ram, ram', p, a * TABLE + b)
    && DirsKept(ram, ram', p, -1)
  }

  /** Virtual page v has been mapped, and no other. It can be written to as the flags say; user code
      reaches it exactly when the flags and the entry of the root, if it was there, say so. */
  ghost predicate MapDone(ram: Ram, ram': Ram, p: int, owner: map<int, Slot>, owner': map<int, Slot>, free: set<int>,
                          free': set<int>,
                          v: nat, given: int, flags: Flags)
    requires v < VPAGES
  {
    var x := At(ram', p, v);
    && x.Mapped? && x.readwrite == flags.readwrite && x.kernel == flags.kernel && x.alloc == flags.alloc
    && x.write == flags.readwrite && (x.user <==> !flags.kernel && OpenDir(DirEntry(ram, p, v / TABLE)))
    && DirsKept(ram, ram', p, v / TABLE) && DirMade(ram, ram', p, flags.kernel, v / TABLE)
    && (if flags.alloc then x.page in free && (flags.clear ==> Cells(ram', x.page) == ZeroPage()) else x.page == given)
    && OthersAt(ram, ram', p, v) && Kept(ram, ram', owner, free) && TablesFrom(owner, owner', free)
    && Leaves(owner, owner', free, free', Lost(At(ram, p, v)))
  }

  /** The page that came with a mapping, which no one has any more once the mapping is replaced or
      taken away by itself. */
  ghost function Lost(x: Mapping): set<int> {
    if x.Mapped? && x.alloc then {x.page} else {}
  }

  /** The pages that belonged to the table or to no one still do, but for those that are lost. */
  ghost predicate Leaves(owner: map<int, Slot>, owner': map<int, Slot>, free: set<int>, free': set<int>, lost: set<int>)
  {
    owner'.Keys + free' == owner.Keys + free - lost
  }

  lemma NoneLost(owner: map<int, Slot>, owner': map<int, Slot>, free: set<int>, free': set<int>)
    requires Leaves(owner, owner', free, free', {})
    ensures Balanced(owner, owner', free, free')
  {
  }

  /** pagetable_map keeps the balance of pages exactly when it does not replace a mapping that came
      with a page of its own; then that page is neither the table's nor free. */
  lemma MapBalance(ram: Ram, ram': Ram, p: int, owner: map<int, Slot>, owner': map<int, Slot>, free: set<int>,
                   free': set<int>,
                   v: nat, given: int, flags: Flags)
    requires TableOk(ram, p, owner, free) && v < VPAGES
             && MapDone(ram, ram', p, owner, owner', free, free', v, given, flags)
    ensures var x := At(ram, p, v);
            && (Balanced(owner, owner', free, free') <==> !(x.Mapped? && x.alloc))
            && (x.Mapped? && x.alloc ==> x.page in owner && x.page !in owner' && x.page !in free')
  {
    var x := At(ram, p, v);
    OwnedAt(ram, p, owner, free, v);
    if x.Mapped? && x.alloc {
      assert x.page in owner.Keys + free && x.page !in owner'.Keys + free';
    } else {
      NoneLost(owner, owner', free, free');
    }
  }

  const PLAIN := Flags(true, false, false, false)

  /** Memory in which page 512 is the root of a table, page 513 its one second-level table, and virtual
      page 0 is mapped to page 514, which came with the mapping. */
  ghost function LoneMapping(): Ram {
    map f: int | 0 <= f < ALL_PAGES :: LonePage(f)
  }

  function LonePage(f: int): cells {
    if f == 512 then ZeroPage()[0 := LeafFor(PLAIN, 513)] else if f == 513
      then ZeroPage()[0 := LeafFor(PLAIN.(alloc := true), 514)] else ZeroPage()
  }

  lemma LoneMappingOk()
    ensures TableOk(LoneMapping(), 512, map[512 := Root, 513 := Dir(0), 514 := Leaf(0, 0)], {})
    ensures At(LoneMapping(), 512, 0) == Mapped(514, true, false, true, true, true)
  {
    var ram, owner := LoneMapping(), map[512 := Root, 513 := Dir(0), 514 := Leaf(0, 0)];
    assert Cells(ram, 512) == LonePage(512) && Cells(ram, 513) == LonePage(513);
    forall s ensures SlotOk(ram, 512, owner, s) {}
    forall f ensures PageOk(ram, 512, owner, {}, f) {}
    forall a, b ensures EntriesOk(ram, 512, a, b) {}
  }

  /** Where a page is lost: virtual page 0 is mapped once more, to physical page 0, and page 514 belongs
      to no one. */
  lemma PageLost()
    ensures var ram, owner := LoneMapping(), map[512 := Root, 513 := Dir(0), 514 := Leaf(0, 0)];
            var ram', owner' := SetCell(ram, 513, 0, LeafFor(PLAIN, 0)), owner - {514};
            && TableOk(ram, 512, owner, {}) && MapDone(ram, ram', 512, owner, owner', {}, {}, 0, 0, PLAIN)
            && !Balanced(owner, owner', {}, {})
  {
    var ram, owner := LoneMapping(), map[512 := Root, 513 := Dir(0), 514 := Leaf(0, 0)];
    var e := LeafFor(PLAIN, 0);
    var ram', owner' := SetCell(ram, 513, 0, e), owner - {514};
    LoneMappingOk();
    SetLeafAt(ram, 512, owner, {}, 0, 0, e);
    MapStep(ram, ram, ram, ram', 512, owner, owner, owner', {}, {}, {}, 0, 0, 0, 0, 0, PLAIN);
    MapBalance(ram, ram', 512, owner, owner', {}, {}, 0, 0, PLAIN);
  }

  /** Memory in which page 512 is the root of a table and page 513, which holds nothing yet, a
      second-level table that was made for the kernel. */
  ghost function KernelTable(): Ram {
    map f: int | 0 <= f < ALL_PAGES :: KernelPage(f)
  }

  function KernelPage(f: int): cells {
    if f == 512 then ZeroPage()[0 := LeafFor(PLAIN.(kernel := true), 513)] else ZeroPage()
  }

  lemma KernelTableOk()
    ensures TableOk(KernelTable(), 512, map[512 := Root, 513 := Dir(0)], {})
  {
    var ram, owner := KernelTable(), map[512 := Root, 513 := Dir(0)];
    assert Cells(ram, 512) == KernelPage(512) && Cells(ram, 513) == KernelPage(513);
    forall s ensures SlotOk(ram, 512, owner, s) {}
    forall f ensures PageOk(ram, 512, owner, {}, f) {}
    forall a, b ensures EntriesOk(ram, 512, a, b) {}
  }

  /** Where a page that is mapped for the user is out of the user's reach: below a table that was made
      for the kernel. */
  lemma OutOfReach()
    ensures var ram, owner := KernelTable(), map[512 := Root, 513 := Dir(0)];
            var ram' := SetCell(ram, 513, 0, LeafFor(PLAIN, 0));
            && TableOk(ram, 512, owner, {}) && MapDone(ram, ram', 512, owner, owner, {}, {}, 0, 0, PLAIN)
            && !PLAIN.kernel && !At(ram', 512, 0).kernel && !At(ram', 512, 0).user
  {
    var ram, owner, e := KernelTable(), map[512 := Root, 513 := Dir(0)], LeafFor(PLAIN, 0);
    var ram' := SetCell(ram, 513, 0, e);
    KernelTableOk();
    SetLeafAt(ram, 512, owner, {}, 0, 0, e);
    LeafChange(ram, 512, owner, {}, 0, 0, e);
    MapStep(ram, ram, ram, ram', 512, owner, owner, owner, {}, {}, {}, 0, 0, 0, 0, 0, PLAIN);
  }

  lemma StillFree(owner: map<int, Slot>, owner': map<int, Slot>, free: set<int>, free': set<int>, page: int)
    requires owner'.Keys + free' == owner.Keys + free && page !in owner && page !in free
    ensures page !in owner' && page !in free'
  {
    assert page !in owner'.Keys + free';
  }

  lemma MapStep(ram0: Ram, ram1: Ram, ram2: Ram, ram3: Ram, p: int, owner0: map<int, Slot>, owner2: map<int, Slot>,
                owner3: map<int, Slot>,
                free0: set<int>, free1: set<int>, free2: set<int>, a: nat, b: nat, v: nat, given: int, page: pageno,
                    flags: Flags)
    requires v == a * TABLE + b && TableOk(ram2, p, owner2, free2)
             && PageReady(ram0, ram1, p, owner0, free0, free1, given, page, flags)
    requires TableReady(ram1, ram2, p, owner0, owner2, free1, free2, a, flags.kernel)
             && EntrySet(ram2, ram3, p, owner2, owner3, a, b, LeafFor(flags, page))
    ensures MapDone(ram0, ram3, p, owner0, owner3, free0, free2, v, given, flags)
  {
    OthersThrice(ram0, ram1, ram2, ram3, p, v);
    MapRights(ram0, ram1, ram2, ram3, p, owner2, owner3, free2, a, b, v, page, flags);
    MapKeeps(ram0, ram1, ram2, ram3, p, owner0, owner2, owner3, free0, free1, free2, a, b, v, page, flags);
    MapLeaves(ram2, ram3, p, owner0, owner2, owner3, free0, free1, free2, a, b, v, page, flags);
  }

  lemma MapRights(ram0: Ram, ram1: Ram, ram2: Ram, ram3: Ram, p: int, owner2: map<int, Slot>, owner3: map<int, Slot>,
                  free2: set<int>, a: nat, b: nat, v: nat, page: pageno, flags: Flags)
    requires v == a * TABLE + b && TableOk(ram2, p, owner2, free2) && DirsKept(ram0, ram1, p, -1) && a < TABLE
    requires DirsKept(ram1, ram2, p, a) && DirMade(ram1, ram2, p, flags.kernel, a) && DirEntry(ram2, p, a).present
    requires EntrySet(ram2, ram3, p, owner2, owner3, a, b, LeafFor(flags, page))
    ensures var x := At(ram3, p, v);
            && x.Mapped? && x.write == flags.readwrite
            && (x.user <==> !flags.kernel && OpenDir(DirEntry(ram0, p, a)))
    ensures DirsKept(ram0, ram3, p, a) && DirMade(ram0, ram3, p, flags.kernel, a)
  {
    hide At, OthersAt, OwnerAfter;
    assert EntriesOk(ram2, p, a, b);
    assert DirEntry(ram1, p, a) == DirEntry(ram0, p, a) && DirEntry(ram3, p, a) == DirEntry(ram2, p, a);
    forall c: nat | c < TABLE && c != a ensures DirEntry(ram3, p, c) == DirEntry(ram0, p, c) {
      assert DirEntry(ram2, p, c) == DirEntry(ram1, p, c) && DirEntry(ram1, p, c) == DirEntry(ram0, p, c);
    }
  }

  lemma OthersThrice(ram0: Ram, ram1: Ram, ram2: Ram, ram3: Ram, p: int, v: nat)
    requires OthersAt(ram0, ram1, p, -1) && OthersAt(ram1, ram2, p, -1) && OthersAt(ram2, ram3, p, v)
    ensures OthersAt(ram0, ram3, p, v) && (v < VPAGES ==> At(ram2, p, v) == At(ram0, p, v))
  {
    hide At;
    forall w: nat | w < VPAGES ensures At(ram2, p, w) == At(ram0, p, w) {
      assert At(ram2, p, w) == At(ram1, p, w) && At(ram1, p, w) == At(ram0, p, w);
    }
  }

  lemma MapKeeps(ram0: Ram, ram1: Ram, ram2: Ram, ram3: Ram, p: int, owner0: map<int, Slot>, owner2: map<int, Slot>,
                 owner3: map<int, Slot>,
                 free0: set<int>, free1: set<int>, free2: set<int>, a: nat, b: nat, v: nat, page: pageno, flags: Flags)
    requires v == a * TABLE + b && TableOk(ram2, p, owner2, free2) && Kept(ram0, ram1, owner0, free0)
    requires free1 == free0 - (if flags.alloc then {page} else {}) && (flags.alloc ==> page in free0 && page !in owner0)
    requires TableReady(ram1, ram2, p, owner0, owner2, free1, free2, a, flags.kernel)
             && EntrySet(ram2, ram3, p, owner2, owner3, a, b, LeafFor(flags, page))
    ensures Kept(ram0, ram3, owner0, free0) && TablesFrom(owner0, owner3, free0)
    ensures flags.alloc ==> Cells(ram3, page) == Cells(ram1, page)
  {
    hide At, OthersAt;
    assert SlotOk(ram2, p, owner2, Dir(a));
    assert page !in free1 && page !in owner0 ==> Cells(ram2, page) == Cells(ram1, page);
    KeptTwice(ram0, ram1, ram2, owner0, owner0, free0, free1);
    assert Kept(ram2, ram3, owner2, free2);
    KeptTwice(ram0, ram2, ram3, owner0, owner2, free0, free2);
    if flags.alloc { StillFree(owner0, owner2, free1, free2, page); }
  }

  lemma MapLeaves(ram2: Ram, ram3: Ram, p: int, owner0: map<int, Slot>, owner2: map<int, Slot>, owner3: map<int, Slot>,
                  free0: set<int>, free1: set<int>, free2: set<int>, a: nat, b: nat, v: nat, page: pageno, flags: Flags)
    requires v == a * TABLE + b && TableOk(ram2, p, owner2, free2) && owner2.Keys + free2 == owner0.Keys + free1
    requires free1 == free0 - (if flags.alloc then {page} else {}) && (flags.alloc ==> page in free0 && page !in owner0)
    requires EntrySet(ram2, ram3, p, owner2, owner3, a, b, LeafFor(flags, page))
    ensures Leaves(owner0, owner3, free0, free2, Lost(At(ram2, p, v)))
  {
    hide At, OthersAt, OwnerAfter;
    if flags.alloc { StillFree(owner0, owner2, free1, free2, page); }
    OwnerKeys(ram2, p, owner2, free2, a, b, v, LeafFor(flags, page));
    MapTotal(owner0, owner2, owner3, free0, free1, free2, if flags.alloc then {page} else {}, Lost(At(ram2, p, v)));
  }

  lemma OwnerKeys(ram: Ram, p: int, owner: map<int, Slot>, free: set<int>, a: nat, b: nat, v: nat, e: Entry)
    requires TableOk(ram, p, owner, free) && a < TABLE && b < TABLE && v == a * TABLE + b
    ensures OwnerAfter(ram, p, owner, a, b, e).Keys == owner.Keys - Lost(At(ram, p, v))
            + (if e.present && e.avail != 0 then {e.addr} else {})
    ensures Lost(At(ram, p, v)) <= owner.Keys && Lost(At(ram, p, v)) !! free
  {
    LeafOwns(ram, p, owner, free, a, b);
    OwnedAt(ram, p, owner, free, v);
  }

  lemma MapTotal(owner0: map<int, Slot>, owner2: map<int, Slot>, owner3: map<int, Slot>, free0: set<int>,
                 free1: set<int>, free2: set<int>,
                 taken: set<int>, lost: set<int>)
    requires owner2.Keys + free2 == owner0.Keys + free1 && free1 == free0 - taken && taken <= free0
    requires owner3.Keys == owner2.Keys - lost + taken && lost !! free2 && lost !! taken
    ensures Leaves(owner0, owner3, free0, free2, lost)
  {
    assert free0 == free1 + taken;
  }

  /** The tables among the pages of owner1 were tables before, or free. */
  ghost predicate TablesFrom(owner0: map<int, Slot>, owner1: map<int, Slot>, free0: set<int>) {
    forall f {:trigger f in owner1} ::
      f in owner1 && !owner1[f].Leaf? ==> f in free0 || (f in owner0 && !owner0[f].Leaf?)
  }

  lemma KeptTwice(ram0: Ram, ram1: Ram, ram2: Ram, owner0: map<int, Slot>, owner1: map<int, Slot>, free0: set<int>,
                  free1: set<int>)
    requires Kept(ram0, ram1, owner0, free0) && Kept(ram1, ram2, owner1, free1)
    requires free1 <= free0 && TablesFrom(owner0, owner1, free0)
    ensures Kept(ram0, ram2, owner0, free0)
  {
    forall f | 0 <= f < ALL_PAGES && f !in free0 && (f in owner0 ==> owner0[f].Leaf?)
      ensures Cells(ram2, f) == Cells(ram0, f) {
      assert f in owner1 ==> owner1[f].Leaf?;
      assert Cells(ram1, f) == Cells(ram0, f);
    }
  }

  /** A leaf owns its page just when the mapping says so. */
  lemma LeafOwns(ram: Ram, p: int, owner: map<int, Slot>, free: set<int>, a: nat, b: nat)
    requires TableOk(ram, p, owner, free) && a < TABLE && b < TABLE
    ensures var x := At(ram, p, a * TABLE + b);
            && (Has(ram, p, Leaf(a, b)) <==> x.Mapped? && x.alloc)
            && (x.Mapped? ==> x.page == LeafEntry(ram, p, a, b).addr)
            && (x.Mapped? && x.alloc ==> x.page in owner && owner[x.page] == Leaf(a, b))
  {
    var v := a * TABLE + b;
    assert v / TABLE == a && v % TABLE == b;
    assert EntriesOk(ram, p, a, b) && SlotOk(ram, p, owner, Leaf(a, b));
  }

  /** What an operation on a table may do to memory as a whole: pages pass between the table and the
      free pages, and only tables and pages that were free change. */
  ghost predicate Fair(ram: Ram, ram': Ram, owner: map<int, Slot>, owner': map<int, Slot>, free: set<int>,
                       free': set<int>) {
    Kept(ram, ram', owner, free) && Balanced(owner, owner', free, free')
  }

  lemma EmptyTable(ram: Ram, page: pageno, free: set<int>)
    requires RamOk(ram) && page !in free && MAIN_MEMORY <= page && Cells(ram, page) == ZeroPage()
    ensures TableOk(ram, page, map[page := Root], free)
    ensures forall v: nat {:trigger At(ram, page, v)} :: v < VPAGES ==> At(ram, page, v) == Absent
  {
    var owner := map[page := Root];
    forall s ensures SlotOk(ram, page, owner, s) {}
    forall f ensures PageOk(ram, page, owner, free, f) {}
    forall a, b ensures EntriesOk(ram, page, a, b) {}
  }

  lemma NewTableStep(ram0: Ram, ram1: Ram, p: int, owner: map<int, Slot>, free0: set<int>, a: nat, e: Entry, q: pageno)
    requires TableOk(ram0, p, owner, free0) && a < TABLE && !DirEntry(ram0, p, a).present && e.present
    requires DirOk(e) && q in free0 && MAIN_MEMORY <= q && RamOk(ram1) && ram1 == ram0[q := ZeroPage()]
    ensures q !in owner && p in owner && p in ram1
    ensures var ram2, owner' := SetCell(ram1, p, a, e.(addr := q)), owner[q := Dir(a)];
            && TableOk(ram2, p, owner', free0 - {q}) && OthersAt(ram0, ram2, p, -1)
            && Fair(ram0, ram2, owner, owner', free0, free0 - {q})
            && DirEntry(ram2, p, a) == e.(addr := q) && Cells(ram2, q) == ZeroPage()
            && DirsKept(ram0, ram2, p, a)
  {
    assert PageOk(ram0, p, owner, free0, q) && PageOk(ram0, p, owner, free0, p) && SlotOk(ram0, p, owner, Root);
    TakePage(ram0, ram1, p, owner, free0, q);
    NewDir(ram1, p, owner, free0 - {q}, a, e.(addr := q));
    var ram2, owner' := SetCell(ram1, p, a, e.(addr := q)), owner[q := Dir(a)];
    forall w: nat | w < VPAGES ensures At(ram2, p, w) == At(ram0, p, w) { assert At(ram1, p, w) == At(ram0, p, w); }
    assert owner'.Keys == owner.Keys + {q};
  }
}
