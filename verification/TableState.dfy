/** Two-level page tables in physical memory: what they mean, and which pages belong to them. */
module TableState {
  import opened Pages

  const TABLE: nat := ENTRIES_PER_TABLE

  type Ram = map<int, cells>

  ghost predicate RamOk(ram: Ram) {
    forall f {:trigger f in ram} :: 0 <= f < ALL_PAGES ==> f in ram
  }

  ghost function Cells(ram: Ram, f: int): cells {
    if f in ram then ram[f] else ZeroPage()
  }

  /** A place in a table that owns a page: the root, an entry of the root, or an entry of a
      second-level table whose page was allocated with it. */
  datatype Slot = Root | Dir(a: nat) | Leaf(a: nat, b: nat)

  predicate SlotIn(s: Slot) {
    match s
    case Root => true
    case Dir(a) => a < TABLE
    case Leaf(a, b) => a < TABLE && b < TABLE
  }

  ghost function DirEntry(ram: Ram, p: int, a: nat): Entry
    requires a < TABLE
  {
    Cells(ram, p)[a]
  }

  ghost function LeafEntry(ram: Ram, p: int, a: nat, b: nat): Entry
    requires a < TABLE && b < TABLE
  {
    Cells(ram, DirEntry(ram, p, a).addr)[b]
  }

  /** Whether the place owns a page now. */
  ghost predicate Has(ram: Ram, p: int, s: Slot) {
    SlotIn(s) &&
    match s
    case Root => true
    case Dir(a) => DirEntry(ram, p, a).present
    case Leaf(a, b) => DirEntry(ram, p, a).present && LeafEntry(ram, p, a, b).present
                       && LeafEntry(ram, p, a, b).avail != 0
  }

  ghost function PageOf(ram: Ram, p: int, s: Slot): int
    requires SlotIn(s)
  {
    match s
    case Root => p
    case Dir(a) => DirEntry(ram, p, a).addr
    case Leaf(a, b) => LeafEntry(ram, p, a, b).addr
  }

  ghost predicate SlotOk(ram: Ram, p: int, owner: map<int, Slot>, s: Slot) {
    Has(ram, p, s) ==> PageOf(ram, p, s) in owner && owner[PageOf(ram, p, s)] == s
  }

  ghost predicate PageOk(ram: Ram, p: int, owner: map<int, Slot>, free: set<int>, f: int) {
    f in owner ==> Has(ram, p, owner[f]) && PageOf(ram, p, owner[f]) == f && f !in free && MAIN_MEMORY <= f < ALL_PAGES
  }

  /** Neither a cache nor the page size is set by an entry; the kernel's entries are global. */
  predicate Unadorned(e: Entry) {
    !e.writethrough && !e.nocache && !e.pagesize && e.globalpage == !e.user
  }

  /** An entry of the root, if it is present, leaves writing to the entries of its table. */
  predicate DirOk(e: Entry) {
    e.present ==> e.readwrite && e.avail == 0 && Unadorned(e)
  }

  predicate LeafOk(e: Entry) {
    e.present ==> e.avail <= 1 && Unadorned(e)
  }

  ghost predicate EntriesOk(ram: Ram, p: int, a: nat, b: nat) {
    a < TABLE && b < TABLE && DirEntry(ram, p, a).present ==>
      DirOk(DirEntry(ram, p, a)) && LeafOk(LeafEntry(ram, p, a, b))
  }

  /** owner maps every page that the table owns to the one place that owns it; none is free. */
  ghost predicate TableOk(ram: Ram, p: int, owner: map<int, Slot>, free: set<int>) {
    && RamOk(ram)
    && (forall s {:trigger SlotOk(ram, p, owner, s)} :: SlotOk(ram, p, owner, s))
    && (forall f {:trigger PageOk(ram, p, owner, free, f)} :: PageOk(ram, p, owner, free, f))
    && (forall a, b {:trigger EntriesOk(ram, p, a, b)} :: EntriesOk(ram, p, a, b))
  }

  // ---- what a table means

  /** readwrite and kernel are what the entry itself says; write and user are what both levels grant
      together. */
  datatype Mapping =
    | Absent
    | Mapped(page: int, readwrite: bool, kernel: bool, alloc: bool, write: bool, user: bool)

  const VPAGES: nat := 0x10_0000

  /** The page that virtual page number v is mapped to, and how. */
  ghost function At(ram: Ram, p: int, v: nat): Mapping
    requires v < VPAGES
  {
    var a, b := v / TABLE, v % TABLE;
    if DirEntry(ram, p, a).present then Meaning(DirEntry(ram, p, a), LeafEntry(ram, p, a, b)) else Absent
  }

  /** What entry e of a second-level table means below entry d of the root. */
  ghost function Meaning(d: Entry, e: Entry): Mapping {
    if e.present
      then Mapped(e.addr, e.readwrite, !e.user, e.avail % 2 == 1, d.readwrite && e.readwrite, d.user && e.user)
    else Absent
  }

  /** The entries of the root are as they were, but perhaps entry a. */
  ghost predicate DirsKept(ram: Ram, ram': Ram, p: int, a: int) {
    forall c: nat {:trigger DirEntry(ram', p, c)} :: c < TABLE && c != a ==> DirEntry(ram', p, c) == DirEntry(ram, p, c)
  }

  /** Every other virtual page is mapped as before. */
  ghost predicate OthersAt(ram: Ram, ram': Ram, p: int, v: int) {
    forall w: nat {:trigger At(ram', p, w)} :: w < VPAGES && w != v ==> At(ram', p, w) == At(ram, p, w)
  }

  // ---- steps

  /** Memory is the same but for the pages of the tables themselves and pages that were free. */
  ghost predicate Kept(ram: Ram, ram': Ram, owner: map<int, Slot>, free: set<int>) {
    forall f {:trigger Cells(ram', f)} ::
      0 <= f < ALL_PAGES && f !in free && (f in owner ==> owner[f].Leaf?) ==> Cells(ram', f) == Cells(ram, f)
  }

  /** The table reads as before when its root and its second-level tables do. */
  lemma SameTables(ram: Ram, ram': Ram, p: int, owner: map<int, Slot>, free: set<int>)
    requires TableOk(ram, p, owner, free) && RamOk(ram')
    requires forall f {:trigger Cells(ram', f)} :: f in owner && !owner[f].Leaf? ==> Cells(ram', f) == Cells(ram, f)
    ensures forall s {:trigger Has(ram', p, s)} :: Has(ram', p, s) <==> Has(ram, p, s)
    ensures forall s {:trigger PageOf(ram', p, s)} :: Has(ram, p, s) ==> PageOf(ram', p, s) == PageOf(ram, p, s)
    ensures forall w: nat {:trigger At(ram', p, w)} :: w < VPAGES ==> At(ram', p, w) == At(ram, p, w)
    ensures forall a, b {:trigger EntriesOk(ram', p, a, b)} :: EntriesOk(ram', p, a, b)
    ensures DirsKept(ram, ram', p, -1)
  {
    assert SlotOk(ram, p, owner, Root);
    forall a: nat | a < TABLE
      ensures DirEntry(ram', p, a) == DirEntry(ram, p, a)
      ensures DirEntry(ram, p, a).present ==>
                Cells(ram', DirEntry(ram, p, a).addr) == Cells(ram, DirEntry(ram, p, a).addr)
    {
      assert SlotOk(ram, p, owner, Dir(a));
    }
    forall a: nat, b: nat ensures EntriesOk(ram', p, a, b) { assert EntriesOk(ram, p, a, b); }
  }

  lemma TableKept(ram: Ram, ram': Ram, p: int, owner: map<int, Slot>, free: set<int>, free': set<int>)
    requires TableOk(ram, p, owner, free) && RamOk(ram')
    requires forall f {:trigger Cells(ram', f)} :: f in owner && !owner[f].Leaf? ==> Cells(ram', f) == Cells(ram, f)
    requires forall f {:trigger f in owner} :: f in owner ==> f !in free'
    ensures TableOk(ram', p, owner, free') && DirsKept(ram, ram', p, -1)
    ensures forall w: nat {:trigger At(ram', p, w)} :: w < VPAGES ==> At(ram', p, w) == At(ram, p, w)
  {
    SameTables(ram, ram', p, owner, free);
    forall s ensures SlotOk(ram', p, owner, s) { assert SlotOk(ram, p, owner, s); }
    forall f ensures PageOk(ram', p, owner, free', f) {
      assert PageOk(ram, p, owner, free, f);
      if f in owner { assert Has(ram', p, owner[f]) <==> Has(ram, p, owner[f]); }
    }
  }

  /** A page that is free is changed and leaves the free pages: no table notices. */
  lemma TakePage(ram: Ram, ram': Ram, p: int, owner: map<int, Slot>, free: set<int>, f: int)
    requires TableOk(ram, p, owner, free) && f in free && RamOk(ram')
    requires forall g {:trigger Cells(ram', g)} :: g != f ==> Cells(ram', g) == Cells(ram, g)
    ensures TableOk(ram', p, owner, free - {f}) && DirsKept(ram, ram', p, -1)
    ensures forall w: nat {:trigger At(ram', p, w)} :: w < VPAGES ==> At(ram', p, w) == At(ram, p, w)
  {
    forall g | g in owner ensures g !in free { assert PageOk(ram, p, owner, free, g); }
    TableKept(ram, ram', p, owner, free, free - {f});
  }

  ghost function SetCell(ram: Ram, t: int, i: nat, e: Entry): Ram
    requires i < TABLE
  {
    ram[t := Cells(ram, t)[i := e]]
  }

  /** A cleared page that no one owns becomes a second-level table. */
  lemma NewDir(ram: Ram, p: int, owner: map<int, Slot>, free: set<int>, a: nat, e: Entry)
    requires TableOk(ram, p, owner, free) && a < TABLE && !DirEntry(ram, p, a).present
    requires e.present && DirOk(e) && e.addr !in owner && e.addr !in free && MAIN_MEMORY <= e.addr
             && Cells(ram, e.addr) == ZeroPage()
    ensures var ram' := SetCell(ram, p, a, e);
            && TableOk(ram', p, owner[e.addr := Dir(a)], free)
            && DirEntry(ram', p, a) == e
            && (forall w: nat {:trigger At(ram', p, w)} :: w < VPAGES ==> At(ram', p, w) == At(ram, p, w))
  {
    var ram', owner' := SetCell(ram, p, a, e), owner[e.addr := Dir(a)];
    assert SlotOk(ram, p, owner, Root);
    assert PageOk(ram, p, owner, free, p);
    forall c: nat | c < TABLE
      ensures DirEntry(ram', p, c) == if c == a then e else DirEntry(ram, p, c)
      ensures DirEntry(ram', p, c).present ==>
                Cells(ram', DirEntry(ram', p, c).addr) == Cells(ram, DirEntry(ram', p, c).addr)
    {
      assert SlotOk(ram, p, owner, Dir(c));
    }
    forall s ensures SlotOk(ram', p, owner', s) { assert SlotOk(ram, p, owner, s); }
    forall f ensures PageOk(ram', p, owner', free, f) { assert PageOk(ram, p, owner, free, f); }
    forall c: nat, b: nat ensures EntriesOk(ram', p, c, b) { assert EntriesOk(ram, p, c, b); }
  }

  /** Whose pages are whose after the entry for a and b has been set. */
  ghost function OwnerAfter(ram: Ram, p: int, owner: map<int, Slot>, a: nat, b: nat, e: Entry): map<int, Slot>
    requires a < TABLE && b < TABLE
  {
    var less := if Has(ram, p, Leaf(a, b)) then owner - {LeafEntry(ram, p, a, b).addr} else owner;
    if e.present && e.avail != 0 then less[e.addr := Leaf(a, b)] else less
  }

  lemma LeafChange(ram: Ram, p: int, owner: map<int, Slot>, free: set<int>, a: nat, b: nat, e: Entry)
    requires TableOk(ram, p, owner, free) && a < TABLE && b < TABLE && DirEntry(ram, p, a).present
    ensures var ram' := SetCell(ram, DirEntry(ram, p, a).addr, b, e);
            && RamOk(ram')
            && (forall c: nat {:trigger DirEntry(ram', p, c)} ::
                  c < TABLE ==> DirEntry(ram', p, c) == DirEntry(ram, p, c))
            && (forall c: nat, d: nat {:trigger LeafEntry(ram', p, c, d)} ::
                  c < TABLE && d < TABLE && DirEntry(ram, p, c).present ==>
                  LeafEntry(ram', p, c, d) == if c == a && d == b then e else LeafEntry(ram, p, c, d))
  {
    var ram' := SetCell(ram, DirEntry(ram, p, a).addr, b, e);
    assert SlotOk(ram, p, owner, Root) && SlotOk(ram, p, owner, Dir(a));
    forall c: nat | c < TABLE
      ensures DirEntry(ram', p, c) == DirEntry(ram, p, c) { assert SlotOk(ram, p, owner, Dir(c)); }
    forall c: nat, d: nat | c < TABLE && d < TABLE && DirEntry(ram, p, c).present
      ensures LeafEntry(ram', p, c, d) == if c == a && d == b then e else LeafEntry(ram, p, c, d) {
      assert SlotOk(ram, p, owner, Dir(c));
    }
  }

  /** An entry of a second-level table is set: one virtual page changes its meaning. */
  lemma SetLeafAt(ram: Ram, p: int, owner: map<int, Slot>, free: set<int>, a: nat, b: nat, e: Entry)
    requires TableOk(ram, p, owner, free) && a < TABLE && b < TABLE && DirEntry(ram, p, a).present
    ensures var ram' := SetCell(ram, DirEntry(ram, p, a).addr, b, e);
            At(ram', p, a * TABLE + b) == Meaning(DirEntry(ram, p, a), e) && OthersAt(ram, ram', p, a * TABLE + b)
  {
    var ram', v := SetCell(ram, DirEntry(ram, p, a).addr, b, e), a * TABLE + b;
    LeafChange(ram, p, owner, free, a, b, e);
    assert v / TABLE == a && v % TABLE == b;
    forall w: nat | w < VPAGES && w != v ensures At(ram', p, w) == At(ram, p, w) {
      assert w / TABLE == a && w % TABLE == b ==> w == v;
      assert DirEntry(ram', p, w / TABLE) == DirEntry(ram, p, w / TABLE);
    }
  }

  lemma SetLeafOk(ram: Ram, p: int, owner: map<int, Slot>, free: set<int>, a: nat, b: nat, e: Entry)
    requires TableOk(ram, p, owner, free) && a < TABLE && b < TABLE && DirEntry(ram, p, a).present
    requires LeafOk(e)
    requires e.present && e.avail != 0 ==> e.addr !in owner && e.addr !in free && MAIN_MEMORY <= e.addr
    ensures TableOk(SetCell(ram, DirEntry(ram, p, a).addr, b, e), p, OwnerAfter(ram, p, owner, a, b, e), free)
  {
    var ram' := SetCell(ram, DirEntry(ram, p, a).addr, b, e);
    var owner' := OwnerAfter(ram, p, owner, a, b, e);
    LeafChange(ram, p, owner, free, a, b, e);
    forall s ensures SlotOk(ram', p, owner', s) { SetLeafSlot(ram, p, owner, free, a, b, e, s); }
    forall f ensures PageOk(ram', p, owner', free, f) { SetLeafPage(ram, p, owner, free, a, b, e, f); }
    forall c: nat, d: nat ensures EntriesOk(ram', p, c, d) { assert EntriesOk(ram, p, c, d); }
  }

  lemma SetLeafSlot(ram: Ram, p: int, owner: map<int, Slot>, free: set<int>, a: nat, b: nat, e: Entry, s: Slot)
    requires TableOk(ram, p, owner, free) && a < TABLE && b < TABLE && DirEntry(ram, p, a).present
    requires e.present && e.avail != 0 ==> e.addr !in owner && e.addr !in free && MAIN_MEMORY <= e.addr
    ensures SlotOk(SetCell(ram, DirEntry(ram, p, a).addr, b, e), p, OwnerAfter(ram, p, owner, a, b, e), s)
  {
    var ram' := SetCell(ram, DirEntry(ram, p, a).addr, b, e);
    LeafChange(ram, p, owner, free, a, b, e);
    assert SlotOk(ram, p, owner, s) && SlotOk(ram, p, owner, Leaf(a, b));
    match s {
      case Root =>
      case Dir(c) => if c < TABLE { assert DirEntry(ram', p, c) == DirEntry(ram, p, c); }
      case Leaf(c, d) => if c < TABLE && d < TABLE { assert DirEntry(ram', p, c) == DirEntry(ram, p, c); }
    }
  }

  lemma SetLeafPage(ram: Ram, p: int, owner: map<int, Slot>, free: set<int>, a: nat, b: nat, e: Entry, f: int)
    requires TableOk(ram, p, owner, free) && a < TABLE && b < TABLE && DirEntry(ram, p, a).present
    requires e.present && e.avail != 0 ==> e.addr !in owner && e.addr !in free && MAIN_MEMORY <= e.addr
    ensures PageOk(SetCell(ram, DirEntry(ram, p, a).addr, b, e), p, OwnerAfter(ram, p, owner, a, b, e), free, f)
  {
    var ram' := SetCell(ram, DirEntry(ram, p, a).addr, b, e);
    LeafChange(ram, p, owner, free, a, b, e);
    assert PageOk(ram, p, owner, free, f) && SlotOk(ram, p, owner, Leaf(a, b));
    if f in owner {
      match owner[f] {
        case Root =>
        case Dir(c) => assert DirEntry(ram', p, c) == DirEntry(ram, p, c);
        case Leaf(c, d) => assert DirEntry(ram', p, c) == DirEntry(ram, p, c);
      }
    }
  }
}
