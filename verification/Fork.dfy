/** Whole runs on page tables: what one table's run may do to another, and what becomes of the
    pages in the end. */
module Fork {
  import opened Words
  import opened Pages
  import opened TableState
  import opened PageTables

  /** A step of a run on one table: a page is mapped or unmapped, a range is allocated or freed, or a
      process stores a page full of data at an address whose page came with the mapping. */
  datatype Op =
    | MapOp(vaddr: word, paddr: word, flags: Flags)
    | UnmapOp(vaddr: word)
    | AllocOp(vaddr: word, length: word, flags: Flags)
    | FreeOp(vaddr: word, length: word)
    | StoreOp(vaddr: word, data: cells)

  /** Memory is the same on the pages that belong neither to the table nor to no one. */
  ghost predicate OthersKept(ram: Ram, ram': Ram, mine: set<int>) {
    forall f {:trigger Cells(ram', f)} :: 0 <= f < ALL_PAGES && f !in mine ==> Cells(ram', f) == Cells(ram, f)
  }

  lemma KeptForOthers(ram: Ram, ram': Ram, owner: map<int, Slot>, free: set<int>, free': set<int>)
    requires Kept(ram, ram', owner, free') && free' <= free
    ensures OthersKept(ram, ram', owner.Keys + free)
  {
    forall f | 0 <= f < ALL_PAGES && f !in owner.Keys + free ensures Cells(ram', f) == Cells(ram, f) {
      assert f !in owner && f !in free';
    }
  }

  /** pagetable_create */
  method Create(m: Machine) returns (t: Pagetable?)
    requires m.Valid()
    modifies m, m.freemap
    ensures m.Valid() && m.Drift() == old(m.Drift()) && (t == null ==> m.free == {})
    ensures t != null ==> fresh(t) && t.m == m && t.Valid() && Balanced(map[], t.owner, old(m.free), m.free)
    ensures t != null ==> forall v: nat {:trigger At(m.ram, t.p, v)} :: v < VPAGES ==> At(m.ram, t.p, v) == Absent
  {
    ghost var free0 := m.free;
    var page := m.PageAlloc(true);
    if page == 0 { return null; }
    t := new Pagetable(m, page);
    RootOnly(t.owner, page, free0, m.free);
  }

  lemma RootOnly(owner: map<int, Slot>, page: int, free0: set<int>, free1: set<int>)
    requires page in free0 && free1 == free0 - {page} && owner == map[page := Root]
    ensures Balanced(map[], owner, free0, free1)
  {
    var none: map<int, Slot> := map[];
    assert owner.Keys == {page} && none.Keys + free0 == free0 == {page} + free1;
  }

  /** A store to a page of the table's own. */
  method Store(t: Pagetable, vaddr: word, data: cells)
    requires t.Valid()
    modifies t.m`ram
    ensures t.Valid() && OthersKept(old(t.m.ram), t.m.ram, t.owner.Keys + t.m.free)
  {
    Address(vaddr);
    OwnedAt(t.m.ram, t.p, t.owner, t.m.free, vaddr / PAGE_SIZE);
    var found, page, flags := t.GetMap(vaddr);
    if found && flags.alloc {
      ghost var ram0 := t.m.ram;
      assert PageOk(ram0, t.p, t.owner, t.m.free, page);
      StoreStep(ram0, t.p, t.owner, t.m.free, page, data);
      t.m.ram := t.m.ram[page := data];
    }
  }

  lemma StoreStep(ram: Ram, p: int, owner: map<int, Slot>, free: set<int>, page: int, data: cells)
    requires TableOk(ram, p, owner, free) && page in owner && owner[page].Leaf?
    ensures TableOk(ram[page := data], p, owner, free) && OthersKept(ram, ram[page := data], owner.Keys + free)
  {
    forall f | f in owner ensures f !in free { assert PageOk(ram, p, owner, free, f); }
    TableKept(ram, ram[page := data], p, owner, free, free);
    assert page in owner.Keys;
  }

  /** Any run on a table: pages pass between the table and the free pages only, but for those that
      are lost, and the memory of everyone else stays as it is. Pages are lost where one that came
      with its mapping is mapped over or unmapped by itself. When the pages run out the machine
      halts. */
  method Run(t: Pagetable, ops: seq<Op>) returns (ok: bool, ghost lost: set<int>)
    requires t.Valid()
    modifies t, t.m, t.m.freemap
    ensures t.m.Valid() && t.m.Drift() == old(t.m.Drift()) && (!ok ==> t.m.free == {})
    ensures ok ==> t.Valid() && Leaves(old(t.owner), t.owner, old(t.m.free), t.m.free, lost)
    ensures lost <= old(t.owner.Keys + t.m.free) && (NoLoss(ops) ==> lost == {})
    ensures ok ==> OthersKept(old(t.m.ram), t.m.ram, old(t.owner.Keys + t.m.free))
  {
    ghost var ram0, mine := t.m.ram, t.owner.Keys + t.m.free;
    ok, lost := true, {};
    var k := 0;
    while k < |ops| && ok
      invariant k <= |ops| && t.m.Valid() && t.m.Drift() == old(t.m.Drift()) && (!ok ==> t.m.free == {})
      invariant lost <= mine && (NoLoss(ops) ==> lost == {})
      invariant ok ==> t.Valid() && t.owner.Keys + t.m.free == mine - lost && OthersKept(ram0, t.m.ram, mine)
    {
      ghost var gone;
      ok, gone := Step(t, ops[k], mine - lost);
      lost := lost + gone;
      k := k + 1;
    }
  }

  /** A run that neither maps nor unmaps single pages. */
  ghost predicate NoLoss(ops: seq<Op>) {
    forall k :: 0 <= k < |ops| ==> !ops[k].MapOp? && !ops[k].UnmapOp?
  }

  /** The pages that a step loses. */
  ghost function Gone(ram: Ram, p: int, op: Op): set<int> {
    match op
    case MapOp(vaddr, _, _) => Lost(At(ram, p, vaddr / PAGE_SIZE))
    case UnmapOp(vaddr) => Lost(At(ram, p, vaddr / PAGE_SIZE))
    case _ => {}
  }

  method Step(t: Pagetable, op: Op, ghost mine: set<int>) returns (ok: bool, ghost gone: set<int>)
    requires t.Valid() && t.owner.Keys + t.m.free == mine
    modifies t, t.m, t.m.freemap
    ensures t.m.Valid() && t.m.Drift() == old(t.m.Drift()) && (!ok ==> t.m.free == {})
    ensures gone == Gone(old(t.m.ram), t.p, op) && gone <= mine
    ensures ok ==> t.Valid() && t.owner.Keys + t.m.free == mine - gone && OthersKept(old(t.m.ram), t.m.ram, mine)
  {
    hide At, OthersAt, Kept, TablesFrom;
    ghost var ram0, owner0, free0 := t.m.ram, t.owner, t.m.free;
    ok, gone := true, Gone(ram0, t.p, op);
    match op {
      case MapOp(vaddr, paddr, flags) =>
        OwnedAt(ram0, t.p, owner0, free0, vaddr / PAGE_SIZE);
        var r := t.Map(vaddr, paddr, flags);
        ok := r == 1;
        if ok { KeptForOthers(ram0, t.m.ram, owner0, free0, free0); }
      case UnmapOp(vaddr) =>
        OwnedAt(ram0, t.p, owner0, free0, vaddr / PAGE_SIZE);
        t.Unmap(vaddr);
        KeptForOthers(ram0, t.m.ram, owner0, free0, {});
      case AllocOp(vaddr, length, flags) =>
        ok := t.AllocRange(vaddr, length, flags);
        if ok { KeptForOthers(ram0, t.m.ram, owner0, free0, free0); }
      case FreeOp(vaddr, length) =>
        t.FreeRange(vaddr, length);
        KeptForOthers(ram0, t.m.ram, owner0, free0, {});
      case StoreOp(vaddr, data) =>
        Store(t, vaddr, data);
    }
  }

  /** A table is the same as long as memory is the same on the pages that belong to it. */
  lemma TableUntouched(ram: Ram, ram': Ram, p: int, owner: map<int, Slot>, free: set<int>, free': set<int>,
                       theirs: set<int>)
    requires TableOk(ram, p, owner, free) && RamOk(ram') && OthersKept(ram, ram', theirs) && free' <= theirs
             && owner.Keys !! theirs
    ensures TableOk(ram', p, owner, free')
    ensures forall v: nat {:trigger At(ram', p, v)} :: v < VPAGES ==> At(ram', p, v) == At(ram, p, v)
    ensures forall f {:trigger Cells(ram', f)} :: f in owner ==> Cells(ram', f) == Cells(ram, f)
  {
    forall f | f in owner ensures Cells(ram', f) == Cells(ram, f) && f !in free' {
      assert PageOk(ram, p, owner, free, f) && f in owner.Keys;
    }
    TableKept(ram, ram', p, owner, free, free');
  }

  /** Fork isolation: a table is duplicated, and one of the two goes on in any way and is deleted.
      The other still maps the same pages in the same way, and the pages that belong to it hold
      what they held. */
  method ForkAndDelete(parent: Pagetable, ops: seq<Op>, keepParent: bool) returns (ok: bool, kept: Pagetable)
    requires parent.Valid()
    modifies parent, parent.m, parent.m.freemap
    ensures !ok ==> parent.m.free == {}
    ensures ok ==>
              && kept.Valid() && kept.m == parent.m && (keepParent ==> kept == parent)
              && (keepParent ==> forall v: nat {:trigger At(kept.m.ram, kept.p, v)} :: v < VPAGES ==>
                    At(kept.m.ram, kept.p, v) == At(old(parent.m.ram), parent.p, v))
              && (keepParent ==> forall f {:trigger Cells(kept.m.ram, f)} ::
                    f in kept.owner ==> Cells(kept.m.ram, f) == Cells(old(parent.m.ram), f))
              && (!keepParent ==> CopiedTo(old(parent.m.ram), kept.m.ram, parent.p, kept.p, old(parent.m.free), VPAGES))
  {
    kept := parent;
    ghost var ram0, free0 := parent.m.ram, parent.m.free;
    var child := parent.Duplicate();
    if child == null { return false, kept; }
    ghost var ram1 := parent.m.ram;
    SameOwned(ram0, ram1, parent.p, parent.owner, free0);
    if keepParent {
      ok := RunAndDelete(child, parent, ops);
    } else {
      kept := child;
      ghost var owner1, free1 := child.owner, child.m.free;
      ok := RunAndDelete(parent, child, ops);
      if ok { CopyUntouched(ram0, ram1, kept.m.ram, parent.p, kept.p, owner1, free0, free1); }
    }
  }

  /** One table runs and is deleted; the other does not notice. */
  method RunAndDelete(t: Pagetable, other: Pagetable, ops: seq<Op>) returns (ok: bool)
    requires t.Valid() && other.Valid() && t != other && t.m == other.m && t.owner.Keys !! other.owner.Keys
    modifies t, t.m, t.m.freemap
    ensures !ok ==> t.m.free == {}
    ensures ok ==>
              && other.Valid() && other.owner == old(other.owner)
              && (forall v: nat {:trigger At(other.m.ram, other.p, v)} :: v < VPAGES ==>
                    At(other.m.ram, other.p, v) == At(old(other.m.ram), other.p, v))
              && (forall f {:trigger Cells(other.m.ram, f)} ::
                    f in other.owner ==> Cells(other.m.ram, f) == Cells(old(other.m.ram), f))
  {
    ghost var ram0, free0, theirs := t.m.ram, t.m.free, t.owner.Keys + t.m.free;
    forall f | f in other.owner ensures f !in free0 { assert PageOk(ram0, other.p, other.owner, free0, f); }
    assert other.owner.Keys !! theirs;
    ghost var lost;
    ok, lost := Run(t, ops);
    if !ok { return; }
    t.Delete();
    TableUntouched(ram0, t.m.ram, other.p, other.owner, free0, t.m.free, theirs);
  }

  lemma SameOwned(ram0: Ram, ram1: Ram, p: int, owner: map<int, Slot>, free0: set<int>)
    requires TableOk(ram0, p, owner, free0) && Outside(ram0, ram1, free0) && RamOk(ram1)
    ensures forall v: nat {:trigger At(ram1, p, v)} :: v < VPAGES ==> At(ram1, p, v) == At(ram0, p, v)
    ensures forall f {:trigger Cells(ram1, f)} :: f in owner ==> Cells(ram1, f) == Cells(ram0, f)
  {
    forall f | f in owner ensures Cells(ram1, f) == Cells(ram0, f) { assert PageOk(ram0, p, owner, free0, f); }
    SameTables(ram0, ram1, p, owner, free0);
  }

  lemma CopyUntouched(ram0: Ram, ram1: Ram, ram2: Ram, sp: int, cp: int, owner: map<int, Slot>, free0: set<int>,
                      free1: set<int>)
    requires TableOk(ram1, cp, owner, free1) && CopiedTo(ram0, ram1, sp, cp, free0, VPAGES)
    requires forall v: nat {:trigger At(ram2, cp, v)} :: v < VPAGES ==> At(ram2, cp, v) == At(ram1, cp, v)
    requires forall f {:trigger Cells(ram2, f)} :: f in owner ==> Cells(ram2, f) == Cells(ram1, f)
    ensures CopiedTo(ram0, ram2, sp, cp, free0, VPAGES)
  {
    forall w: nat ensures CopiedAt(ram0, ram2, sp, cp, free0, VPAGES, w) {
      assert CopiedAt(ram0, ram1, sp, cp, free0, VPAGES, w);
      if w < VPAGES {
        OwnedAt(ram1, cp, owner, free1, w);
        assert At(ram2, cp, w) == At(ram1, cp, w);
      }
    }
  }

  /** Two virtual pages whose pages came with the mapping never share one. */
  lemma OwnPagesDistinct(ram: Ram, p: int, owner: map<int, Slot>, free: set<int>, v: nat, w: nat)
    requires TableOk(ram, p, owner, free) && v < VPAGES && w < VPAGES && v != w
    requires At(ram, p, v).Mapped? && At(ram, p, v).alloc && At(ram, p, w).Mapped? && At(ram, p, w).alloc
    ensures At(ram, p, v).page != At(ram, p, w).page
  {
    OwnedAt(ram, p, owner, free, v);
    OwnedAt(ram, p, owner, free, w);
    assert v == v / TABLE * TABLE + v % TABLE && w == w / TABLE * TABLE + w % TABLE;
  }

  lemma CounterBack(a: word, b: word, n: nat, n': nat, k: nat)
    requires n' == n - k && Less(a, n') == Less(b, n)
    ensures a == Less(b, k)
  {
  }

  lemma AllBack(owner: map<int, Slot>, free0: set<int>, free1: set<int>)
    requires Balanced(map[], owner, free0, free1)
    ensures owner.Keys + free1 == free0
  {
    var none: map<int, Slot> := map[];
    assert none.Keys + free0 == free0;
  }

  /** A table runs in any way and is deleted: its pages, those it had and those it got, are free, but
      for those that were lost. */
  method RunThenDelete(t: Pagetable, ops: seq<Op>) returns (ok: bool, ghost lost: set<int>)
    requires t.Valid()
    modifies t, t.m, t.m.freemap
    ensures t.m.Valid() && t.m.Drift() == old(t.m.Drift())
    ensures lost <= old(t.owner.Keys + t.m.free) && (NoLoss(ops) ==> lost == {})
    ensures t.m.free == if ok then old(t.owner.Keys + t.m.free) - lost else {}
  {
    ok, lost := Run(t, ops);
    if ok { t.Delete(); }
  }

  lemma Sizes(s: set<int>, lost: set<int>)
    requires lost <= s
    ensures |lost| <= |s| && |s - lost| == |s| - |lost|
  {
    assert s == (s - lost) + lost;
  }

  /** Conservation: a table is created, runs in any way and is deleted; then the free pages and
      their counter are what they were, but for the pages that were lost on the way. None is lost
      in a run of allocations, frees and stores. */
  method CreateRunDelete(m: Machine, ops: seq<Op>) returns (ok: bool, ghost lost: set<int>)
    requires m.Valid()
    modifies m, m.freemap
    ensures m.Valid() && lost <= old(m.free) && (NoLoss(ops) ==> lost == {})
    ensures !ok ==> m.free == {}
    ensures ok ==> m.free == old(m.free) - lost && m.pagesFree == Less(old(m.pagesFree), |lost|)
  {
    hide Machine.Valid, Pagetable.Valid, Less;
    ghost var free0, counter := m.free, m.pagesFree;
    lost := {};
    var t := Create(m);
    if t == null { return false, {}; }
    AllBack(t.owner, free0, m.free);
    ok, lost := RunThenDelete(t, ops);
    if ok {
      Sizes(free0, lost);
      CounterBack(m.pagesFree, counter, |free0|, |m.free|, |lost|);
    }
  }
}
