/** kernel/memory/vm.cpp: two-level translation tables as they lie in memory, and the flat maps from
    virtual pages to physical pages that they stand for. */
module Translation {
  import opened Descriptors

  const LVL1_ENTRIES := 4096
  const LVL2_ENTRIES := 256
  const KERNEL_SLOT := 3072        // lvl1_index of the start of the kernel area
  const KERNEL_PAGE := 0xc_0000    // the first virtual page of the kernel area
  const VIRTUAL_PAGES := 0x10_0000

  /** Where physical memory lies: its first byte and the pages that the allocator manages. The
      kernel's first-level table is at kernelRoot. */
  datatype Layout = Layout(ramStart: int, lo: nat, hi: nat, kernelRoot: int) {
    /** RAM starts where a first-level table could start, and the managed pages have 32-bit addresses. */
    predicate Proper() {
      0 <= ramStart && ramStart % 0x4000 == 0 && AddrOf(hi) <= 0x1_0000_0000
    }

    function AddrOf(page: nat): int {
      ramStart + 1024 * page
    }

    function PageOf(addr: int): nat {
      if addr >= ramStart then (addr - ramStart) / 1024 else 0
    }
  }

  /** The tables in physical memory, by physical address. */
  datatype Tables = Tables(l1: map<int, seq<Entry1>>, l2: map<int, seq<Entry2>>)

  function Slot(t: Tables, root: int, i: int): Entry1 {
    if root in t.l1 && 0 <= i < |t.l1[root]| then t.l1[root][i] else Empty
  }

  function Cell(t: Tables, table: int, j: int): Entry2 {
    if table in t.l2 && 0 <= j < |t.l2[table]| then t.l2[table][j] else Absent
  }

  /** What the hardware finds for virtual page v when it walks the tables from root. */
  function Walk(t: Tables, root: int, v: int): Entry2 {
    match Slot(t, root, v / 256)
    case Empty => Absent
    case Section(base, p) => SmallPage(base + 0x1000 * (v % 256), p)
    case Coarse(table) => Cell(t, table, v % 256)
  }

  /** The flat map of an address space: user pages through its own tables, kernel pages through the
      kernel's, which page faults copy from. */
  function View(t: Tables, kernel: int, root: int, v: int): Entry2 {
    Walk(t, if v >= KERNEL_PAGE then kernel else root, v)
  }

  /** Where a second-level table hangs: in one slot of one address space, or in one kernel slot of
      every address space. */
  datatype Place = UserSlot(root: int, slot: int) | KernelSlot(slot: int)

  function PlaceOf(root: int, i: int): Place {
    if i < KERNEL_SLOT then UserSlot(root, i) else KernelSlot(i)
  }

  ghost predicate Shaped(t: Tables) {
    && (forall r :: r in t.l1 ==> |t.l1[r]| == LVL1_ENTRIES)
    && (forall a :: a in t.l2 ==> |t.l2[a]| == LVL2_ENTRIES)
  }

  ghost predicate Placed(t: Tables, place: map<int, Place>) {
    forall r, i {:trigger Slot(t, r, i)} :: Slot(t, r, i).Coarse? ==>
      var a := Slot(t, r, i).base;
      a in t.l2 && a in place && place[a] == PlaceOf(r, i)
  }

  /** A kernel slot of an address space is either the kernel's own entry or still empty; entries that
      map sections are everywhere the same. */
  ghost predicate KernelShared(t: Tables, kernel: int) {
    forall r, i {:trigger Slot(t, r, i)} :: r in t.l1 && KERNEL_SLOT <= i < LVL1_ENTRIES ==>
      Slot(t, r, i) == Slot(t, kernel, i) || (Slot(t, r, i).Empty? && !Slot(t, kernel, i).Section?)
  }

  ghost predicate Consistent(t: Tables, place: map<int, Place>, kernel: int) {
    kernel in t.l1 && Shaped(t) && Placed(t, place) && KernelShared(t, kernel)
  }

  // ----- Single updates of the tables -----

  // Writing outside a table has no meaning here; the steps of a consistent machine never do it.

  function PutSlot(t: Tables, root: int, i: int, e: Entry1): Tables {
    if root in t.l1 && 0 <= i < |t.l1[root]| then t.(l1 := t.l1[root := t.l1[root][i := e]]) else t
  }

  function PutCell(t: Tables, table: int, j: int, e: Entry2): Tables {
    if table in t.l2 && 0 <= j < |t.l2[table]| then t.(l2 := t.l2[table := t.l2[table][j := e]]) else t
  }

  function AddTable(t: Tables, table: int): Tables {
    t.(l2 := t.l2[table := seq(LVL2_ENTRIES, _ => Absent)])
  }

  lemma SlotsAfterPut(t: Tables, root: int, i: int, e: Entry1)
    requires root in t.l1 && 0 <= i < |t.l1[root]|
    ensures forall r, n :: Slot(PutSlot(t, root, i, e), r, n) == if r == root && n == i then e else Slot(t, r, n)
    ensures forall a, j :: Cell(PutSlot(t, root, i, e), a, j) == Cell(t, a, j)
  {
  }

  lemma CellsAfterPut(t: Tables, table: int, j: int, e: Entry2)
    requires table in t.l2 && 0 <= j < |t.l2[table]|
    ensures forall r, n :: Slot(PutCell(t, table, j, e), r, n) == Slot(t, r, n)
    ensures forall a, n :: Cell(PutCell(t, table, j, e), a, n) == if a == table && n == j then e else Cell(t, a, n)
  {
  }

  lemma CellsAfterAdd(t: Tables, table: int)
    requires table !in t.l2
    ensures forall r, n :: Slot(AddTable(t, table), r, n) == Slot(t, r, n)
    ensures forall a, n :: Cell(AddTable(t, table), a, n) == Cell(t, a, n)
  {
  }

  /** Whether virtual page v of the address space at root is the page of slot i, cell j, seen from
      the address space that the entry was changed through. */
  predicate SamePage(root: int, i: int, j: int, r: int, v: int) {
    v == 256 * i + j && (i >= KERNEL_SLOT || r == root)
  }

  /** Writing one cell of a table changes one page of the flat map: of one address space in the user
      area, of all of them in the kernel area. */
  lemma PutCellChangesOnePage(t: Tables, place: map<int, Place>, kernel: int, root: int, i: int, j: int, e: Entry2)
    requires Consistent(t, place, kernel) && root in t.l1 && 0 <= i < LVL1_ENTRIES && 0 <= j < LVL2_ENTRIES
    requires Slot(t, root, i).Coarse? && Slot(t, root, i).base in t.l2
    ensures var t' := PutCell(t, Slot(t, root, i).base, j, e);
      && Consistent(t', place, kernel)
      && (forall r, v :: r in t.l1 && 0 <= v < VIRTUAL_PAGES ==>
            View(t', kernel, r, v) == if SamePage(root, i, j, r, v) then e else View(t, kernel, r, v))
      && Walk(t', root, 256 * i + j) == e
  {
    var a := Slot(t, root, i).base;
    var t' := PutCell(t, a, j, e);
    CellsAfterPut(t, a, j, e);
    assert Placed(t', place) && KernelShared(t', kernel);
    forall r, v | r in t.l1 && 0 <= v < VIRTUAL_PAGES
      ensures View(t', kernel, r, v) == if SamePage(root, i, j, r, v) then e else View(t, kernel, r, v)
    {
      var from := if v >= KERNEL_PAGE then kernel else r;
      OnlyPlace(t, place, kernel, root, i, from, v / 256);
    }
  }

  lemma CellIsView(t: Tables, place: map<int, Place>, kernel: int, root: int, i: int, j: int)
    requires Consistent(t, place, kernel) && root in t.l1 && 0 <= i < LVL1_ENTRIES && 0 <= j < LVL2_ENTRIES
    requires Slot(t, root, i).Coarse?
    ensures View(t, kernel, root, 256 * i + j) == Cell(t, Slot(t, root, i).base, j)
    ensures Slot(t, root, i).base in t.l2
  {
    OnlyPlace(t, place, kernel, root, i, root, i);
  }

  /** A table hangs in one place only. */
  lemma OnlyPlace(t: Tables, place: map<int, Place>, kernel: int, root: int, i: int, r: int, n: int)
    requires Consistent(t, place, kernel) && root in t.l1 && 0 <= i < LVL1_ENTRIES && 0 <= n < LVL1_ENTRIES
    requires Slot(t, root, i).Coarse?
    ensures Slot(t, r, n) == Slot(t, root, i) ==> n == i && (i >= KERNEL_SLOT || r == root)
    ensures i >= KERNEL_SLOT ==> Slot(t, kernel, i) == Slot(t, root, i)
  {
  }

  /** Hanging a new, empty table in an empty user slot, or in an empty kernel slot of an address space
      and of the kernel at once, changes no view. */
  lemma NewTableChangesNothing(t: Tables, place: map<int, Place>, kernel: int, root: int, i: int, a: int)
    requires Consistent(t, place, kernel) && root in t.l1 && 0 <= i < LVL1_ENTRIES && a !in t.l2
    requires Slot(t, root, i).Empty? && (i >= KERNEL_SLOT ==> Slot(t, kernel, i).Empty?)
    ensures var t1 := PutSlot(AddTable(t, a), root, i, Coarse(a));
      var t' := if i >= KERNEL_SLOT then PutSlot(t1, kernel, i, Coarse(a)) else t1;
      && Consistent(t', place[a := PlaceOf(root, i)], kernel)
      && t'.l1.Keys == t.l1.Keys && t'.l2.Keys == t.l2.Keys + {a} && Slot(t', root, i) == Coarse(a)
      && (forall r, v :: r in t.l1 && 0 <= v < VIRTUAL_PAGES ==> View(t', kernel, r, v) == View(t, kernel, r, v))
  {
    var t0 := AddTable(t, a);
    CellsAfterAdd(t, a);
    assert forall r, n :: Slot(t, r, n) == Coarse(a) ==> false;
    SlotsAfterPut(t0, root, i, Coarse(a));
    var t1 := PutSlot(t0, root, i, Coarse(a));
    SlotsAfterPut(t1, kernel, i, Coarse(a));
  }

  /** Copying the kernel's entry into an empty kernel slot changes no flat map; it only lets the
      hardware see what was already there. */
  lemma CopySlotChangesNothing(t: Tables, place: map<int, Place>, kernel: int, root: int, i: int)
    requires Consistent(t, place, kernel) && root in t.l1 && KERNEL_SLOT <= i < LVL1_ENTRIES
    requires Slot(t, root, i).Empty?
    ensures var t' := PutSlot(t, root, i, Slot(t, kernel, i));
      && Consistent(t', place, kernel)
      && t'.l1.Keys == t.l1.Keys
      && (forall r, v :: r in t.l1 && 0 <= v < VIRTUAL_PAGES ==> View(t', kernel, r, v) == View(t, kernel, r, v))
      && (forall v :: v / 256 == i ==> Walk(t', root, v) == Walk(t', kernel, v))
      && !Slot(t', root, i).Section?
  {
    SlotsAfterPut(t, root, i, Slot(t, kernel, i));
  }

  /** No table serves slot i of root yet, not even the kernel's. */
  predicate NeedsTable(t: Tables, kernel: int, root: int, i: int) {
    Slot(t, root, i).Empty? && (i >= KERNEL_SLOT ==> Slot(t, kernel, i).Empty?)
  }

  function HangTable(t: Tables, kernel: int, root: int, i: int, a: int): Tables {
    var t1 := PutSlot(AddTable(t, a), root, i, Coarse(a));
    if i >= KERNEL_SLOT then PutSlot(t1, kernel, i, Coarse(a)) else t1
  }

  /** Taking an empty table out of its user slot changes no view. */
  lemma DropTableChangesNothing(t: Tables, place: map<int, Place>, kernel: int, root: int, i: int)
    requires Consistent(t, place, kernel) && root in t.l1 && 0 <= i < KERNEL_SLOT && Slot(t, root, i).Coarse?
    requires forall j :: 0 <= j < LVL2_ENTRIES ==> Cell(t, Slot(t, root, i).base, j).Absent?
    ensures var t' := RemoveTable(PutSlot(t, root, i, Empty), Slot(t, root, i).base);
      && Consistent(t', place, kernel)
      && (forall r, v :: r in t.l1 && 0 <= v < VIRTUAL_PAGES ==> View(t', kernel, r, v) == View(t, kernel, r, v))
  {
    var a := Slot(t, root, i).base;
    SlotsAfterPut(t, root, i, Empty);
    CellsAfterRemove(PutSlot(t, root, i, Empty), a);
  }

  function RemoveTable(t: Tables, table: int): Tables {
    t.(l2 := t.l2 - {table})
  }

  lemma CellsAfterRemove(t: Tables, table: int)
    ensures forall r, n :: Slot(RemoveTable(t, table), r, n) == Slot(t, r, n)
    ensures forall a, n :: Cell(RemoveTable(t, table), a, n) == if a == table then Absent else Cell(t, a, n)
  {
  }
}
