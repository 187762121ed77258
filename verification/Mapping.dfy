/** kernel/memory/vm.cpp: mapping, unmapping and repairing page faults, as steps of the tables and the
    page allocator together. */
module Mapping {
  import opened Basics
  import opened Descriptors
  import opened Translation
  import opened References
  import opened PhysicalAlloc
  import opened Lifetimes

  /** areas::kernel_area.contains: the end of the range, the last byte of memory, is not contained. */
  predicate KernelArea(virt: Word) {
    0xc000_0000 <= virt < 0xffff_ffff
  }

  /** The test on addresses agrees with the test on first-level slots except at the last byte. */
  lemma KernelAreaIsKernelSlots(virt: Word)
    ensures (KernelArea(virt) <==> Lvl1Index(virt) >= KERNEL_SLOT) <==> virt != 0xffff_ffff
    ensures Lvl1Index(virt) >= KERNEL_SLOT <==> virt / 0x1000 >= KERNEL_PAGE
  {
    IndicesSplitAddress(virt);
  }

  // ----- Steps -----

  /** Copying the kernel's entry of slot i. */
  function Copied(c: Layout, m: Machine, root: int, i: int): Machine {
    m.(tables := PutSlot(m.tables, root, i, Slot(m.tables, c.kernelRoot, i)))
  }

  lemma CopiedIsGood(c: Layout, m: Machine, root: int, i: int)
    requires Good(c, m) && root in m.tables.l1 && KERNEL_SLOT <= i < LVL1_ENTRIES && Slot(m.tables, root, i).Empty?
    ensures var m' := Copied(c, m, root, i);
      && Good(c, m') && m'.tables.l1.Keys == m.tables.l1.Keys && SameViews(c, m.tables, m'.tables)
      && Slot(m'.tables, root, i) == Slot(m.tables, c.kernelRoot, i) == Slot(m'.tables, c.kernelRoot, i)
      && !Slot(m'.tables, root, i).Section?
  {
    CopySlotChangesNothing(m.tables, m.place, c.kernelRoot, root, i);
    SlotsAfterPut(m.tables, root, i, Slot(m.tables, c.kernelRoot, i));
  }

  /** Hanging a newly allocated table in slot i, in the kernel area also in the kernel's own. */
  function Hung(c: Layout, m: Machine, root: int, i: int): Machine {
    match Take(m.pool.free, KB1)
    case OutOfMemory => m
    case Took(page, _) =>
      Machine(HangTable(m.tables, c.kernelRoot, root, i, c.AddrOf(page)), m.place[c.AddrOf(page) := PlaceOf(root, i)],
              Served(m.pool, Request.Alloc(KB1)))
  }

  lemma HungIsGood(c: Layout, m: Machine, root: int, i: int)
    requires Good(c, m) && root in m.tables.l1 && 0 <= i < LVL1_ENTRIES
    requires NeedsTable(m.tables, c.kernelRoot, root, i) && Take(m.pool.free, KB1).Took?
    ensures var m' := Hung(c, m, root, i);
      && Good(c, m') && m'.tables.l1.Keys == m.tables.l1.Keys && SameViews(c, m.tables, m'.tables)
      && Slot(m'.tables, root, i) == Coarse(c.AddrOf(Take(m.pool.free, KB1).page))
  {
    NewTableIsGood(c, m, root, i);
  }

  /** Writing one cell of the table in slot i. */
  function Filled(m: Machine, root: int, i: int, j: int, e: Entry2): Machine {
    var slot := Slot(m.tables, root, i);
    if slot.Coarse? then m.(tables := PutCell(m.tables, slot.base, j, e)) else m
  }

  lemma FilledIsGood(c: Layout, m: Machine, root: int, i: int, j: int, e: Entry2)
    requires Good(c, m) && root in m.tables.l1 && 0 <= i < LVL1_ENTRIES && 0 <= j < LVL2_ENTRIES
    requires Slot(m.tables, root, i).Coarse?
    ensures var m' := Filled(m, root, i, j, e);
      && Good(c, m') && m'.tables.l1 == m.tables.l1
      && OneViewChanged(c, m.tables, m'.tables, root, i, j, e) && Walk(m'.tables, root, 256 * i + j) == e
  {
    CellIsView(m.tables, m.place, c.kernelRoot, root, i, j);
    PutCellChangesOnePage(m.tables, m.place, c.kernelRoot, root, i, j, e);
  }

  /** The page of slot i and cell j has become e, in the address space at root or, if it is a kernel
      page, in all of them; every other page of every address space is as before. */
  ghost predicate OneViewChanged(c: Layout, t: Tables, t': Tables, root: int, i: int, j: int, e: Entry2) {
    forall r, v :: r in t.l1 && 0 <= v < VIRTUAL_PAGES ==>
      View(t', c.kernelRoot, r, v) == if SamePage(root, i, j, r, v) then e else View(t, c.kernelRoot, r, v)
  }

  // ----- vm_map_page -----

  datatype MapResult = Mapped | PanicSection | PanicMapped | PanicOutOfMemory

  /** The first half of vm_map_page: an empty kernel slot is filled from the kernel's table, and a slot
      that is still empty gets a new table, in the kernel area also in the kernel's own slot. */
  function Ensured(c: Layout, m: Machine, root: int, virt: Word): Machine {
    var i := Lvl1Index(virt);
    if !Slot(m.tables, root, i).Empty? then m
    else
      var m1 := if KernelArea(virt) then Copied(c, m, root, i) else m;
      if Slot(m1.tables, root, i).Empty? then Hung(c, m1, root, i) else m1
  }

  lemma EnsuredIsGood(c: Layout, m: Machine, root: int, virt: Word)
    requires Good(c, m) && root in m.tables.l1 && virt != 0xffff_ffff && !Slot(m.tables, root, Lvl1Index(virt)).Section?
    ensures var m' := Ensured(c, m, root, virt);
      && Good(c, m') && m'.tables.l1.Keys == m.tables.l1.Keys && SameViews(c, m.tables, m'.tables)
      && (Slot(m'.tables, root, Lvl1Index(virt)).Coarse? <==> !NoTable(c, m, root, virt))
      && !Slot(m'.tables, root, Lvl1Index(virt)).Section?
  {
    KernelAreaIsKernelSlots(virt);
    var i := Lvl1Index(virt);
    if Slot(m.tables, root, i).Empty? {
      var m1 := if KernelArea(virt) then Copied(c, m, root, i) else m;
      if KernelArea(virt) {
        CopiedIsGood(c, m, root, i);
      }
      if Slot(m1.tables, root, i).Empty? && Take(m1.pool.free, KB1).Took? {
        HungIsGood(c, m1, root, i);
      }
    }
  }

  /** A table is needed and there is no memory for it. */
  predicate NoTable(c: Layout, m: Machine, root: int, virt: Word) {
    NeedsTable(m.tables, c.kernelRoot, root, Lvl1Index(virt)) && Take(m.pool.free, KB1).OutOfMemory?
  }

  function MapStep(c: Layout, m: Machine, root: int, virt: Word, e: Entry2): (MapResult, Machine) {
    var i, j := Lvl1Index(virt), Lvl2Index(virt);
    if Slot(m.tables, root, i).Section? then (PanicSection, m)
    else
      var m1 := Ensured(c, m, root, virt);
      if Slot(m1.tables, root, i).Empty? then (PanicOutOfMemory, m1)
      else if UserCell(m1.tables, root, i, j).SmallPage? then (PanicMapped, m1)
      else (Mapped, Filled(m1, root, i, j, e))
  }

  /** Past the test for a section, mapping finds or makes the table and then looks at the cell, which
      holds what the page was mapped to before. */
  lemma MapStages(c: Layout, m: Machine, root: int, virt: Word, e: Entry2)
    requires Good(c, m) && root in m.tables.l1 && virt != 0xffff_ffff && !Slot(m.tables, root, Lvl1Index(virt)).Section?
    ensures var i, j, m1 := Lvl1Index(virt), Lvl2Index(virt), Ensured(c, m, root, virt);
      && Good(c, m1) && m1.tables.l1.Keys == m.tables.l1.Keys && SameViews(c, m.tables, m1.tables)
      && (Slot(m1.tables, root, i).Coarse? <==> !NoTable(c, m, root, virt)) && !Slot(m1.tables, root, i).Section?
      && View(m.tables, c.kernelRoot, root, virt / 0x1000) == UserCell(m1.tables, root, i, j)
      && MapStep(c, m, root, virt, e) ==
           if Slot(m1.tables, root, i).Empty? then (PanicOutOfMemory, m1)
           else if UserCell(m1.tables, root, i, j).SmallPage? then (PanicMapped, m1)
           else (Mapped, Filled(m1, root, i, j, e))
  {
    IndicesSplitAddress(virt);
    var i, j, m1 := Lvl1Index(virt), Lvl2Index(virt), Ensured(c, m, root, virt);
    EnsuredIsGood(c, m, root, virt);
    if Slot(m1.tables, root, i).Coarse? {
      PageInSlot(c, m1, root, virt);
    }
    if NoTable(c, m, root, virt) {
      NotMappedWithoutTable(c, m, root, virt);
    }
  }

  /** Where a table serves a slot, the flat map is what the table holds. */
  lemma PageInSlot(c: Layout, m: Machine, root: int, virt: Word)
    requires Good(c, m) && root in m.tables.l1 && Slot(m.tables, root, Lvl1Index(virt)).Coarse?
    ensures View(m.tables, c.kernelRoot, root, virt / 0x1000)
        == UserCell(m.tables, root, Lvl1Index(virt), Lvl2Index(virt))
  {
    IndicesSplitAddress(virt);
    CellIsView(m.tables, m.place, c.kernelRoot, root, Lvl1Index(virt), Lvl2Index(virt));
  }

  lemma NotMappedWithoutTable(c: Layout, m: Machine, root: int, virt: Word)
    requires NoTable(c, m, root, virt)
    ensures View(m.tables, c.kernelRoot, root, virt / 0x1000).Absent?
  {
    IndicesSplitAddress(virt);
  }

  /** Mapping panics on a section, when a table is needed that cannot be had and on a page that is
      mapped already, and never otherwise. */
  lemma MapResults(c: Layout, m: Machine, root: int, virt: Word, e: Entry2)
    requires Good(c, m) && root in m.tables.l1 && virt != 0xffff_ffff
    ensures var result := MapStep(c, m, root, virt, e).0;
      && (result.PanicSection? <==> Slot(m.tables, root, Lvl1Index(virt)).Section?)
      && (result.PanicOutOfMemory? <==> NoTable(c, m, root, virt))
      && (result.PanicMapped? <==>
            !result.PanicSection? && View(m.tables, c.kernelRoot, root, virt / 0x1000).SmallPage?)
  {
    if !Slot(m.tables, root, Lvl1Index(virt)).Section? {
      MapStages(c, m, root, virt, e);
    }
  }

  /** Mapping adds exactly the one entry that was asked for; in the kernel area it does so for every
      address space at once. */
  lemma MapAddsOneEntry(c: Layout, m: Machine, root: int, virt: Word, e: Entry2)
    requires Good(c, m) && root in m.tables.l1 && virt != 0xffff_ffff
    ensures var (result, m') := MapStep(c, m, root, virt, e);
      && Good(c, m') && m'.tables.l1.Keys == m.tables.l1.Keys
      && (result.Mapped? ==>
            && OneViewChanged(c, m.tables, m'.tables, root, Lvl1Index(virt), Lvl2Index(virt), e)
            && Walk(m'.tables, root, virt / 0x1000) == e)
      && (!result.Mapped? ==> SameViews(c, m.tables, m'.tables))
  {
    IndicesSplitAddress(virt);
    var i, j := Lvl1Index(virt), Lvl2Index(virt);
    if !Slot(m.tables, root, i).Section? {
      MapStages(c, m, root, virt, e);
      var m1 := Ensured(c, m, root, virt);
      if Slot(m1.tables, root, i).Coarse? {
        FilledAfter(c, m, m1, root, i, j, e);
      }
    }
  }

  lemma FilledAfter(c: Layout, m: Machine, m1: Machine, root: int, i: int, j: int, e: Entry2)
    requires Good(c, m1) && root in m1.tables.l1 && 0 <= i < LVL1_ENTRIES && 0 <= j < LVL2_ENTRIES
    requires Slot(m1.tables, root, i).Coarse? && m1.tables.l1.Keys == m.tables.l1.Keys
    requires SameViews(c, m.tables, m1.tables)
    ensures var m' := Filled(m1, root, i, j, e);
      && Good(c, m') && m'.tables.l1.Keys == m.tables.l1.Keys
      && OneViewChanged(c, m.tables, m'.tables, root, i, j, e) && Walk(m'.tables, root, 256 * i + j) == e
  {
    FilledIsGood(c, m1, root, i, j, e);
    SameThenOne(c, m.tables, m1.tables, Filled(m1, root, i, j, e).tables, root, i, j, e);
  }

  lemma SameThenOne(c: Layout, t: Tables, t1: Tables, t': Tables, root: int, i: int, j: int, e: Entry2)
    requires t1.l1.Keys == t.l1.Keys && SameViews(c, t, t1) && OneViewChanged(c, t1, t', root, i, j, e)
    ensures OneViewChanged(c, t, t', root, i, j, e)
  {
  }

  /** Writing an entry and taking it out again restores every view, if the page was free. */
  lemma OneThenBack(c: Layout, t: Tables, t1: Tables, t': Tables, root: int, i: int, j: int, e: Entry2)
    requires 0 <= i < LVL1_ENTRIES && 0 <= j < LVL2_ENTRIES && View(t, c.kernelRoot, root, 256 * i + j).Absent?
    requires t1.l1.Keys == t.l1.Keys && OneViewChanged(c, t, t1, root, i, j, e)
    requires OneViewChanged(c, t1, t', root, i, j, Absent)
    ensures SameViews(c, t, t')
  {
    forall r, v | r in t.l1 && 0 <= v < VIRTUAL_PAGES
      ensures View(t', c.kernelRoot, r, v) == View(t, c.kernelRoot, r, v)
    {
      if SamePage(root, i, j, r, v) {
        assert View(t, c.kernelRoot, r, v) == View(t, c.kernelRoot, root, 256 * i + j);
      }
    }
  }

  // ----- vm_unmap_page -----

  datatype UnmapResult = Done(previous: int, emptied: Option<int>) | PanicInSection

  predicate NothingIn(t: Tables, table: int) {
    forall j :: 0 <= j < LVL2_ENTRIES ==> Cell(t, table, j).Absent?
  }

  function UnmapStep(c: Layout, m: Machine, root: int, virt: Word): (UnmapResult, Machine) {
    var i, j := Lvl1Index(virt), Lvl2Index(virt);
    var from := if KernelArea(virt) then c.kernelRoot else root;
    var slot := Slot(m.tables, from, i);
    if slot.Section? then (PanicInSection, m)
    else if UserCell(m.tables, from, i, j).Absent? then (Done(0, None), m)
    else
      var m1 := Filled(m, from, i, j, Absent);
      var previous := UserCell(m.tables, from, i, j).base;
      if !KernelArea(virt) && NothingIn(m1.tables, slot.base)
      then (Done(previous, Some(slot.base)), Emptied(c, m1, root, i))
      else (Done(previous, None), m1)
  }

  /** A user table that was emptied is taken out of its slot and freed, as a page of 16 KB. */
  function Emptied(c: Layout, m: Machine, root: int, i: int): Machine {
    var slot := Slot(m.tables, root, i);
    if slot.Coarse? then
      Machine(RemoveTable(PutSlot(m.tables, root, i, Empty), slot.base), m.place,
              Served(m.pool, Request.Free(c.PageOf(slot.base), KB16)))
    else m
  }

  /** Unmapping would take the last page out of a user table. */
  predicate LastInTable(m: Machine, root: int, virt: Word) {
    && !KernelArea(virt) && UserCell(m.tables, root, Lvl1Index(virt), Lvl2Index(virt)).SmallPage?
    && forall j :: 0 <= j < LVL2_ENTRIES && j != Lvl2Index(virt) ==>
          UserCell(m.tables, root, Lvl1Index(virt), j).Absent?
  }

  /** Nothing else refers to that table, so that it becomes free. */
  predicate FreesTable(c: Layout, m: Machine, root: int, virt: Word) {
    LastInTable(m, root, virt) && m.pool.refs[c.PageOf(Slot(m.tables, root, Lvl1Index(virt)).base)] <= 1
  }

  /** The tables that unmapping looks at: the kernel's for kernel pages. */
  function ServedFrom(c: Layout, root: int, virt: Word): int {
    if KernelArea(virt) then c.kernelRoot else root
  }

  lemma EmptyButForOne(m: Machine, root: int, i: int, j: int)
    requires Shaped(m.tables) && UserCell(m.tables, root, i, j).SmallPage?
    ensures NothingIn(Filled(m, root, i, j, Absent).tables, Slot(m.tables, root, i).base)
      <==> forall k :: 0 <= k < LVL2_ENTRIES && k != j ==> UserCell(m.tables, root, i, k).Absent?
  {
    var t', table := Filled(m, root, i, j, Absent).tables, Slot(m.tables, root, i).base;
    CellsAfterPut(m.tables, table, j, Absent);
    assert forall k :: Cell(t', table, k) == if k == j then Absent else UserCell(m.tables, root, i, k);
  }

  /** Where the page is mapped, unmapping clears its cell and then, if that was the last one, gives up
      the table. */
  lemma UnmapStages(c: Layout, m: Machine, root: int, virt: Word)
    requires Good(c, m) && root in m.tables.l1 && virt != 0xffff_ffff
    requires UserCell(m.tables, ServedFrom(c, root, virt), Lvl1Index(virt), Lvl2Index(virt)).SmallPage?
    ensures var i, j, from := Lvl1Index(virt), Lvl2Index(virt), ServedFrom(c, root, virt);
      var m1 := Filled(m, from, i, j, Absent);
      && Good(c, m1) && m1.tables.l1 == m.tables.l1 && m1.pool == m.pool
      && OneViewChanged(c, m.tables, m1.tables, root, i, j, Absent)
      && View(m.tables, c.kernelRoot, root, virt / 0x1000) == UserCell(m.tables, from, i, j)
      && (LastInTable(m, root, virt) ==> i < KERNEL_SLOT && NothingIn(m1.tables, Slot(m1.tables, root, i).base))
      && UnmapStep(c, m, root, virt) ==
           if LastInTable(m, root, virt)
           then (Done(UserCell(m.tables, from, i, j).base, Some(Slot(m.tables, root, i).base)), Emptied(c, m1, root, i))
           else (Done(UserCell(m.tables, from, i, j).base, None), m1)
  {
    KernelAreaIsKernelSlots(virt);
    IndicesSplitAddress(virt);
    var i, j, from := Lvl1Index(virt), Lvl2Index(virt), ServedFrom(c, root, virt);
    CellIsView(m.tables, m.place, c.kernelRoot, from, i, j);
    FilledIsGood(c, m, from, i, j, Absent);
    SameChange(c, m.tables, Filled(m, from, i, j, Absent).tables, from, root, i, j);
    if !KernelArea(virt) {
      EmptyButForOne(m, root, i, j);
    }
  }

  lemma SameChange(c: Layout, t: Tables, t': Tables, from: int, root: int, i: int, j: int)
    requires OneViewChanged(c, t, t', from, i, j, Absent) && (from == root || i >= KERNEL_SLOT)
    ensures OneViewChanged(c, t, t', root, i, j, Absent)
  {
    assert forall r, v :: SamePage(from, i, j, r, v) <==> SamePage(root, i, j, r, v);
  }

  lemma NothingMapped(c: Layout, m: Machine, root: int, virt: Word)
    requires Good(c, m) && root in m.tables.l1 && virt != 0xffff_ffff
    requires UserCell(m.tables, ServedFrom(c, root, virt), Lvl1Index(virt), Lvl2Index(virt)).Absent?
    requires NotSection(c, m, root, virt)
    ensures UnmapStep(c, m, root, virt) == (Done(0, None), m) && !LastInTable(m, root, virt)
    ensures View(m.tables, c.kernelRoot, root, virt / 0x1000).Absent?
    ensures OneViewChanged(c, m.tables, m.tables, root, Lvl1Index(virt), Lvl2Index(virt), Absent)
  {
    KernelAreaIsKernelSlots(virt);
    IndicesSplitAddress(virt);
    var i, j, t := Lvl1Index(virt), Lvl2Index(virt), m.tables;
    forall r, v | r in t.l1 && 0 <= v < VIRTUAL_PAGES && SamePage(root, i, j, r, v)
      ensures View(t, c.kernelRoot, r, v).Absent?
    {
      assert v == 256 * i + j;
    }
  }

  /** Unmapping takes out exactly the one entry and reports the frame it named, or zero if there was
      none. A user table that this leaves empty is taken out of its slot. */
  lemma UnmapRemovesOneEntry(c: Layout, m: Machine, root: int, virt: Word)
    requires Good(c, m) && root in m.tables.l1 && virt != 0xffff_ffff
    ensures var (result, m') := UnmapStep(c, m, root, virt);
      var e := View(m.tables, c.kernelRoot, root, virt / 0x1000);
      && Consistent(m'.tables, m'.place, c.kernelRoot) && m'.tables.l1.Keys == m.tables.l1.Keys
      && (result.Done? ==>
            && OneViewChanged(c, m.tables, m'.tables, root, Lvl1Index(virt), Lvl2Index(virt), Absent)
            && result.previous == (if e.SmallPage? then e.base else 0)
            && (result.emptied.Some? <==> LastInTable(m, root, virt)))
      && (result.PanicInSection? ==> m' == m)
      && (result.Done? && result.emptied.Some? ==> Slot(m'.tables, root, Lvl1Index(virt)).Empty?)
  {
    var i, j, from := Lvl1Index(virt), Lvl2Index(virt), ServedFrom(c, root, virt);
    if UserCell(m.tables, from, i, j).SmallPage? {
      UnmapStages(c, m, root, virt);
      var m1 := Filled(m, from, i, j, Absent);
      if LastInTable(m, root, virt) {
        EmptiedViews(c, m1, root, i);
        OneThenSame(c, m.tables, m1.tables, Emptied(c, m1, root, i).tables, root, i, j, Absent);
      }
    } else if NotSection(c, m, root, virt) {
      NothingMapped(c, m, root, virt);
    }
  }

  lemma OneThenSame(c: Layout, t: Tables, t1: Tables, t': Tables, root: int, i: int, j: int, e: Entry2)
    requires t1.l1.Keys == t.l1.Keys && OneViewChanged(c, t, t1, root, i, j, e) && SameViews(c, t1, t')
    ensures OneViewChanged(c, t, t', root, i, j, e)
  {
  }

  /** Taking an empty user table out of its slot. */
  lemma EmptiedViews(c: Layout, m: Machine, root: int, i: int)
    requires Good(c, m) && root in m.tables.l1 && 0 <= i < KERNEL_SLOT && Slot(m.tables, root, i).Coarse?
    requires NothingIn(m.tables, Slot(m.tables, root, i).base)
    ensures var m' := Emptied(c, m, root, i);
      && Consistent(m'.tables, m'.place, c.kernelRoot) && m'.tables.l1.Keys == m.tables.l1.Keys
      && SameViews(c, m.tables, m'.tables) && Slot(m'.tables, root, i).Empty?
  {
    DropTableChangesNothing(m.tables, m.place, c.kernelRoot, root, i);
    SlotsAfterPut(m.tables, root, i, Empty);
    CellsAfterRemove(PutSlot(m.tables, root, i, Empty), Slot(m.tables, root, i).base);
  }

  /** The free at the wrong order: the machine stays good exactly if the table does not become free. */
  lemma EmptiedIsGood(c: Layout, m: Machine, root: int, i: int)
    requires Good(c, m) && root in m.tables.l1 && 0 <= i < KERNEL_SLOT && Slot(m.tables, root, i).Coarse?
    requires NothingIn(m.tables, Slot(m.tables, root, i).base)
    ensures Good(c, Emptied(c, m, root, i)) <==> m.pool.refs[c.PageOf(Slot(m.tables, root, i).base)] > 1
  {
    var table := Slot(m.tables, root, i).base;
    var m', p := Emptied(c, m, root, i), c.PageOf(table);
    EmptiedViews(c, m, root, i);
    if Block(p, KB1) in m.pool.live {
      FreeNeedsItsOrder(m.pool, Block(p, KB1), KB16, c.lo, c.hi);
      LiveAfterFree(m.pool, Block(p, KB1), KB16, c.lo, c.hi);
    } else {
      assert Backed(c, m.pool, table, KB1);
      OutsideIsNotLive(m.pool, p, c.lo, c.hi);
      assert m'.pool.free.kb16[0] == p;
      assert Block(p, KB16) in FreeBlocks(m'.pool.free) + m'.pool.live;
    }
  }

  lemma OutsideIsNotLive(pool: Pool, p: nat, lo: nat, hi: nat)
    requires Sound(pool, lo, hi) && p < lo
    ensures pool.refs[p] == 0
  {
    assert forall o :: Block(p, o) in pool.live ==> Block(p, o) in FreeBlocks(pool.free) + pool.live;
  }

  /** Unmapping keeps the machine good, the tiling of the memory included, exactly if it does not free a
      user table: that would be freed at an order at which it was not allocated. */
  lemma UnmapIsGood(c: Layout, m: Machine, root: int, virt: Word)
    requires Good(c, m) && root in m.tables.l1 && virt != 0xffff_ffff
    ensures Good(c, UnmapStep(c, m, root, virt).1) <==> !FreesTable(c, m, root, virt)
  {
    var i, j, from := Lvl1Index(virt), Lvl2Index(virt), ServedFrom(c, root, virt);
    if UserCell(m.tables, from, i, j).SmallPage? {
      UnmapStages(c, m, root, virt);
      if LastInTable(m, root, virt) {
        EmptiedIsGood(c, Filled(m, from, i, j, Absent), root, i);
      }
    } else if NotSection(c, m, root, virt) {
      NothingMapped(c, m, root, virt);
    }
  }

  /** After such a free, the next address space is given the page of the table for its own 16 KB table. */
  lemma FreedTableComesBack(c: Layout, m: Machine, root: int, virt: Word)
    requires Good(c, m) && root in m.tables.l1 && virt != 0xffff_ffff && FreesTable(c, m, root, virt)
    ensures var (result, m') := UnmapStep(c, m, root, virt);
      && result.Done? && result.emptied.Some?
      && Take(m'.pool.free, KB16).Took? && Take(m'.pool.free, KB16).page == c.PageOf(result.emptied.value)
  {
    UnmapStages(c, m, root, virt);
  }

  /** From m to m1 the page at virt, which was free, has been mapped, and unmapping can find it. */
  ghost predicate JustMapped(c: Layout, m: Machine, m1: Machine, root: int, virt: Word, e: Entry2) {
    var i, j := Lvl1Index(virt), Lvl2Index(virt);
    && root in m.tables.l1 && View(m.tables, c.kernelRoot, root, 256 * i + j).Absent?
    && Good(c, m1) && m1.tables.l1.Keys == m.tables.l1.Keys && OneViewChanged(c, m.tables, m1.tables, root, i, j, e)
    && NotSection(c, m1, root, virt) && View(m1.tables, c.kernelRoot, root, virt / 0x1000) == e
  }

  lemma MapJustMaps(c: Layout, m: Machine, root: int, virt: Word, e: Entry2)
    requires Good(c, m) && root in m.tables.l1 && virt != 0xffff_ffff && MapStep(c, m, root, virt, e).0.Mapped?
    ensures JustMapped(c, m, MapStep(c, m, root, virt, e).1, root, virt, e)
  {
    WasNotMapped(c, m, root, virt, e);
    MapAddsOneEntry(c, m, root, virt, e);
    MappedIsServed(c, m, root, virt, e);
  }

  lemma UnmapsWhatWasMapped(c: Layout, m: Machine, m1: Machine, root: int, virt: Word, e: Entry2)
    requires JustMapped(c, m, m1, root, virt, e) && virt != 0xffff_ffff && e.SmallPage?
    ensures var (result, m2) := UnmapStep(c, m1, root, virt);
      && result.Done? && result.previous == e.base && SameViews(c, m.tables, m2.tables)
  {
    UnmapsWhatIsMapped(c, m1, root, virt, e);
    OneThenBack(c, m.tables, m1.tables, UnmapStep(c, m1, root, virt).1.tables, root, Lvl1Index(virt), Lvl2Index(virt),
        e);
  }

  /** Mapping a page and unmapping it again gives every address space its old map back. */
  lemma UnmapUndoesMap(c: Layout, m: Machine, root: int, virt: Word, e: Entry2)
    requires Good(c, m) && root in m.tables.l1 && virt != 0xffff_ffff && e.SmallPage?
    requires MapStep(c, m, root, virt, e).0.Mapped?
    ensures var m1 := MapStep(c, m, root, virt, e).1;
      var (result, m2) := UnmapStep(c, m1, root, virt);
      && result.Done? && result.previous == e.base && SameViews(c, m.tables, m2.tables)
  {
    var m1 := MapStep(c, m, root, virt, e).1;
    MapJustMaps(c, m, root, virt, e);
    UnmapsWhatWasMapped(c, m, m1, root, virt, e);
  }

  lemma WasNotMapped(c: Layout, m: Machine, root: int, virt: Word, e: Entry2)
    requires Good(c, m) && root in m.tables.l1 && virt != 0xffff_ffff && MapStep(c, m, root, virt, e).0.Mapped?
    ensures View(m.tables, c.kernelRoot, root, 256 * Lvl1Index(virt) + Lvl2Index(virt)).Absent?
  {
    IndicesSplitAddress(virt);
    MapResults(c, m, root, virt, e);
  }

  lemma UnmapsWhatIsMapped(c: Layout, m: Machine, root: int, virt: Word, e: Entry2)
    requires Good(c, m) && root in m.tables.l1 && virt != 0xffff_ffff && e.SmallPage?
    requires NotSection(c, m, root, virt) && View(m.tables, c.kernelRoot, root, virt / 0x1000) == e
    ensures var (result, m') := UnmapStep(c, m, root, virt);
      && result.Done? && result.previous == e.base
      && OneViewChanged(c, m.tables, m'.tables, root, Lvl1Index(virt), Lvl2Index(virt), Absent)
  {
    UnmapRemovesOneEntry(c, m, root, virt);
  }

  /** Unmapping would not meet a section. */
  predicate NotSection(c: Layout, m: Machine, root: int, virt: Word) {
    !Slot(m.tables, if KernelArea(virt) then c.kernelRoot else root, Lvl1Index(virt)).Section?
  }

  /** After mapping, the slot that unmapping looks at holds a table, and the page is mapped there. */
  lemma MappedIsServed(c: Layout, m: Machine, root: int, virt: Word, e: Entry2)
    requires Good(c, m) && root in m.tables.l1 && virt != 0xffff_ffff
    requires MapStep(c, m, root, virt, e).0.Mapped?
    ensures var m1 := MapStep(c, m, root, virt, e).1;
      NotSection(c, m1, root, virt) && View(m1.tables, c.kernelRoot, root, virt / 0x1000) == e
  {
    IndicesSplitAddress(virt);
    var i, j := Lvl1Index(virt), Lvl2Index(virt);
    MapAddsOneEntry(c, m, root, virt, e);
    ChangedView(c, m.tables, MapStep(c, m, root, virt, e).1.tables, root, i, j, e);
    ServedAfterMap(c, m, root, virt, e);
  }

  lemma ChangedView(c: Layout, t: Tables, t': Tables, root: int, i: int, j: int, e: Entry2)
    requires root in t.l1 && 0 <= i < LVL1_ENTRIES && 0 <= j < LVL2_ENTRIES && OneViewChanged(c, t, t', root, i, j, e)
    ensures View(t', c.kernelRoot, root, 256 * i + j) == e
  {
    assert SamePage(root, i, j, root, 256 * i + j);
  }

  lemma ServedAfterMap(c: Layout, m: Machine, root: int, virt: Word, e: Entry2)
    requires Good(c, m) && root in m.tables.l1 && virt != 0xffff_ffff
    requires MapStep(c, m, root, virt, e).0.Mapped?
    ensures NotSection(c, MapStep(c, m, root, virt, e).1, root, virt)
  {
    EnsuredIsGood(c, m, root, virt);
    KernelSlotServed(c, m, root, virt);
    var m1 := Ensured(c, m, root, virt);
    CellsAfterPut(m1.tables, Slot(m1.tables, root, Lvl1Index(virt)).base, Lvl2Index(virt), e);
  }

  /** Once a table serves the slot of an address space, it serves the kernel's slot too. */
  lemma KernelSlotServed(c: Layout, m: Machine, root: int, virt: Word)
    requires Good(c, m) && root in m.tables.l1 && virt != 0xffff_ffff
    requires !Slot(m.tables, root, Lvl1Index(virt)).Section? && !NoTable(c, m, root, virt)
    ensures var m1 := Ensured(c, m, root, virt);
      KernelArea(virt) ==> Slot(m1.tables, c.kernelRoot, Lvl1Index(virt)) == Slot(m1.tables, root, Lvl1Index(virt))
  {
    KernelAreaIsKernelSlots(virt);
    var m1, i := Ensured(c, m, root, virt), Lvl1Index(virt);
    EnsuredIsGood(c, m, root, virt);
    if KernelArea(virt) {
      OnlyPlace(m1.tables, m1.place, c.kernelRoot, root, i, root, i);
    }
  }

  // ----- vm_try_fix_page_fault -----

  datatype FaultResult = Fixed | ProcessFatal | KernelFatal

  function FaultStep(c: Layout, m: Machine, current: int, instruction: Word, fault: Word): (FaultResult, Machine) {
    var i := Lvl1Index(fault);
    if !KernelArea(instruction) then (ProcessFatal, m)
    else if !KernelArea(fault) then (KernelFatal, m)
    else if Slot(m.tables, c.kernelRoot, i).Empty? then (KernelFatal, m)
    else if Slot(m.tables, current, i).Empty? then (Fixed, Copied(c, m, current, i))
    else (KernelFatal, m)
  }

  /** A fault is repaired exactly when kernel code missed a kernel slot that the kernel's own table
      serves; afterwards the hardware sees the kernel's translations there, which the flat maps had all
      along, and no other slot has changed. */
  lemma FaultRepaired(c: Layout, m: Machine, current: int, instruction: Word, fault: Word)
    requires Good(c, m) && current in m.tables.l1
    ensures var (result, m') := FaultStep(c, m, current, instruction, fault);
      && Good(c, m') && m'.tables.l1.Keys == m.tables.l1.Keys
      && (result.ProcessFatal? <==> !KernelArea(instruction))
      && (result.Fixed? <==>
            && KernelArea(instruction) && KernelArea(fault)
            && !Slot(m.tables, c.kernelRoot, Lvl1Index(fault)).Empty?
                  && Slot(m.tables, current, Lvl1Index(fault)).Empty?)
      && (result.Fixed? ==> forall v :: v / 256 == Lvl1Index(fault) ==>
            Walk(m.tables, current, v).Absent? && Walk(m'.tables, current, v) == Walk(m.tables, c.kernelRoot, v))
      && SameViews(c, m.tables, m'.tables)
      && (forall r, n :: (r, n) != (current, Lvl1Index(fault)) ==> Slot(m'.tables, r, n) == Slot(m.tables, r, n))
  {
    KernelAreaIsKernelSlots(fault);
    var i := Lvl1Index(fault);
    if Slot(m.tables, current, i).Empty? && KernelArea(fault) {
      CopiedIsGood(c, m, current, i);
      SlotsAfterPut(m.tables, current, i, Slot(m.tables, c.kernelRoot, i));
    }
  }
}
