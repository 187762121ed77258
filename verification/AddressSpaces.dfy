/** kernel/memory/vm.cpp: the virtual memory of the kernel, updated in place, and its runs. */
module AddressSpaces {
  import opened Basics
  import opened Descriptors
  import opened Translation
  import opened References
  import opened PhysicalAlloc
  import opened Lifetimes
  import opened Mapping
  import opened Creation
  import opened Forking

  datatype ForkResult = ForkDone | ForkOutOfMemory | PanicForkSection

  /** How far vm_fork has come, or why it has stopped. */
  ghost predicate ForkedSlots(c: Layout, m0: Machine, f0: Frames, m: Machine, f: Frames, parent: int, child: int,
          i: nat, result: ForkResult) {
    match result
    case ForkDone => Forkable(c, m0, parent, child) && CopyingSlots(c, m0, f0, m, f, parent, child, i)
    case ForkOutOfMemory => Forkable(c, m0, parent, child) && Abandoned(c, m0, f0, m, f, parent, child)
    case PanicForkSection => exists n :: 0 <= n < KERNEL_SLOT && Slot(m0.tables, parent, n).Section?
  }

  ghost predicate ForkEnds(c: Layout, m0: Machine, f0: Frames, m: Machine, f: Frames, parent: int, child: int,
          result: ForkResult) {
    match result
    case ForkDone => Forked(c, m0, f0, m, f, parent, child)
    case ForkOutOfMemory => Unforked(c, m0, f0, m, f, child)
    case PanicForkSection => exists n :: 0 <= n < KERNEL_SLOT && Slot(m0.tables, parent, n).Section?
  }

  lemma CopiedAll(c: Layout, m0: Machine, f0: Frames, m: Machine, f: Frames, parent: int, child: int)
    requires ForkedSlots(c, m0, f0, m, f, parent, child, KERNEL_SLOT, ForkDone)
    ensures ForkEnds(c, m0, f0, m, f, parent, child, ForkDone) && Good(c, m) && m.tables.l1.Keys == m0.tables.l1.Keys
  {
    ForkCopies(c, m0, f0, m, f, parent, child);
  }

  class VirtualMemory {
    const layout: Layout
    var current: int
    var tables: Tables
    ghost var place: map<int, Place>
    var pool: Pool      // the page allocator, through the requests that class PageAllocator serves
    var frames: Frames

    ghost function M(): Machine
      reads this
    {
      Machine(tables, place, pool)
    }

    ghost predicate Valid()
      reads this
    {
      Good(layout, M()) && current in tables.l1
    }

    /** vm_init: takes over the boot loader's tables and clears the slots of its identity map of RAM. */
    constructor (layout: Layout, ramSize: nat, boot: Tables, ghost place: map<int, Place>, pool: Pool, frames: Frames)
      requires 0 <= layout.ramStart && layout.ramStart + ramSize <= 0x1_0000_0000
      requires Good(layout, Machine(boot, place, pool)) && boot.l1.Keys == {layout.kernelRoot}
      ensures Valid() && this.layout == layout && current == layout.kernelRoot && this.pool == pool
      ensures this.frames == frames
      ensures tables.l1.Keys == {layout.kernelRoot} && tables.l2 == boot.l2
      ensures forall i ::
        Slot(tables, layout.kernelRoot, i) == Cleared(boot, layout, LastSlot(layout.ramStart, ramSize), i)
    {
      this.layout, this.current, this.place, this.pool, this.frames := layout, layout.kernelRoot, place, pool, frames;
      tables := boot;
      new;
      var cleared := ClearIdentityMap(layout, ramSize, boot, place);
      tables := cleared;
    }

    static method ClearIdentityMap(layout: Layout, ramSize: nat, boot: Tables, ghost place: map<int, Place>)
      returns (t: Tables)
      requires 0 <= layout.ramStart && layout.ramStart + ramSize <= 0x1_0000_0000
      requires Consistent(boot, place, layout.kernelRoot) && boot.l1.Keys == {layout.kernelRoot}
      ensures Consistent(t, place, layout.kernelRoot) && t.l1.Keys == {layout.kernelRoot} && t.l2 == boot.l2
      ensures forall i :: Slot(t, layout.kernelRoot, i) == Cleared(boot, layout, LastSlot(layout.ramStart, ramSize), i)
    {
      t := boot;
      var i := 0;
      while i < ramSize
        invariant 0 <= i && i % 0x10_0000 == 0 && (i > 0 ==> i - 0x10_0000 < ramSize)
        invariant t.l1.Keys == {layout.kernelRoot} && t.l2 == boot.l2 && Consistent(t, place, layout.kernelRoot)
        invariant forall n ::
          Slot(t, layout.kernelRoot, n) == Cleared(boot, layout, (layout.ramStart + i) / 0x10_0000, n)
      {
        var n := Lvl1Index(layout.ramStart + i);
        SlotsAfterPut(t, layout.kernelRoot, n, Empty);
        t := PutSlot(t, layout.kernelRoot, n, Empty);
        assert (layout.ramStart + i + 0x10_0000) / 0x10_0000 == n + 1;
        i := i + 0x10_0000;
      }
    }

    /** The kernel's slot i once the slots of RAM below end are cleared. */
    static function Cleared(boot: Tables, layout: Layout, end: int, i: int): Entry1 {
      if layout.ramStart / 0x10_0000 <= i < end then Empty else Slot(boot, layout.kernelRoot, i)
    }

    /** One past the last megabyte that the clearing loop reaches. */
    static function LastSlot(ramStart: int, ramSize: nat): int {
      (ramStart + (ramSize + 0xf_ffff) / 0x10_0000 * 0x10_0000) / 0x10_0000
    }

    method SwitchTo(root: int)
      requires Valid() && root in tables.l1
      modifies this`current
      ensures Valid() && current == root
    {
      current := root;
    }

    /** virt2phys: inside a section or a mapped page, the physical address of the byte; zero where
        no second-level table exists; the bare page offset where the table has no entry. */
    method Virt2Phys(virt: Word) returns (phys: int)
      requires Valid()
      ensures var e := Walk(tables, current, virt / 0x1000);
        phys == if e.SmallPage? then e.base + virt % 0x1000
                else if Slot(tables, current, Lvl1Index(virt)).Empty? then 0
                else virt % 0x1000
    {
      IndicesSplitAddress(virt);
      match Slot(tables, current, Lvl1Index(virt)) {
        case Empty => phys := 0;
        case Section(base, _) => phys := base + virt % 0x10_0000;
        case Coarse(table) =>
          var e := Cell(tables, table, Lvl2Index(virt));
          phys := (if e.SmallPage? then e.base else 0) + virt % 0x1000;
      }
    }

    /** The first half of vm_map_page: finds or makes the table for virt. */
    method EnsureTable(root: int, virt: Word)
      requires Valid() && root in tables.l1 && virt != 0xffff_ffff && !Slot(tables, root, Lvl1Index(virt)).Section?
      modifies this`tables, this`place, this`pool
      ensures M() == Ensured(layout, old(M()), root, virt)
    {
      var i := Lvl1Index(virt);
      if Slot(tables, root, i).Empty? {
        if KernelArea(virt) {
          tables := PutSlot(tables, root, i, Slot(tables, layout.kernelRoot, i));
        }
        if Slot(tables, root, i).Empty? {
          assert KernelArea(virt) ==> Slot(tables, layout.kernelRoot, i).Empty?;    // the kassert
          HangNewTable(root, i);
        }
      }
    }

    /** A new table for slot i, which in the kernel area also goes into the kernel's slot. */
    method HangNewTable(root: int, i: int)
      modifies this`tables, this`place, this`pool
      ensures M() == Hung(layout, old(M()), root, i)
    {
      var t := Take(pool.free, KB1);
      if t.Took? {
        var table := layout.AddrOf(t.page);
        pool := Served(pool, Request.Alloc(KB1));
        tables := PutSlot(AddTable(tables, table), root, i, Coarse(table));
        if i >= KERNEL_SLOT {
          tables := PutSlot(tables, layout.kernelRoot, i, Coarse(table));
        }
        place := place[table := PlaceOf(root, i)];
      }
    }

    /** vm_map_page. */
    method MapPage(root: int, physAddr: Word, virt: Word, permissions: Permissions) returns (result: MapResult)
      requires Valid() && root in tables.l1 && virt != 0xffff_ffff
      modifies this`tables, this`place, this`pool
      ensures (result, M()) == MapStep(layout, old(M()), root, virt, SmallPage(physAddr / 0x1000 * 0x1000, permissions))
      ensures Valid()
    {
      MapAddsOneEntry(layout, M(), root, virt, SmallPage(physAddr / 0x1000 * 0x1000, permissions));
      var i, j := Lvl1Index(virt), Lvl2Index(virt);
      if Slot(tables, root, i).Section? {
        return PanicSection;
      }
      EnsureTable(root, virt);
      if Slot(tables, root, i).Empty? {
        return PanicOutOfMemory;
      }
      if UserCell(tables, root, i, j).SmallPage? {
        return PanicMapped;
      }
      WriteCell(root, i, j, SmallPage(physAddr / 0x1000 * 0x1000, permissions));
      result := Mapped;
    }

    method WriteCell(root: int, i: int, j: int, e: Entry2)
      modifies this`tables
      ensures M() == Filled(old(M()), root, i, j, e)
    {
      var slot := Slot(tables, root, i);
      if slot.Coarse? {
        tables := PutCell(tables, slot.base, j, e);
      }
    }

    /** Whether every cell of a second-level table is free. */
    method TableIsEmpty(table: int) returns (empty: bool)
      ensures empty <==> NothingIn(tables, table)
    {
      empty := true;
      var i := 0;
      while i < LVL2_ENTRIES
        invariant 0 <= i <= LVL2_ENTRIES && empty
        invariant forall j :: 0 <= j < i ==> Cell(tables, table, j).Absent?
      {
        if Cell(tables, table, i).SmallPage? {
          empty := false;
          break;
        }
        i := i + 1;
      }
    }

    /** vm_unmap_page: kernel pages are unmapped in the kernel's tables, user pages in those of root.
        A user table that this empties is taken out, returned in emptied and freed, as a page of 16 KB;
        the state stays valid exactly if that does not make it free. */
    method UnmapPage(root: int, virt: Word) returns (result: UnmapResult)
      requires Valid() && root in tables.l1 && virt != 0xffff_ffff
      modifies this`tables, this`pool
      ensures (result, M()) == UnmapStep(layout, old(M()), root, virt)
      ensures Valid() <==> !FreesTable(layout, old(M()), root, virt)
    {
      UnmapRemovesOneEntry(layout, M(), root, virt);
      UnmapIsGood(layout, M(), root, virt);
      var i, j := Lvl1Index(virt), Lvl2Index(virt);
      var from := if KernelArea(virt) then layout.kernelRoot else root;
      var slot := Slot(tables, from, i);
      if slot.Section? {
        return PanicInSection;
      }
      if UserCell(tables, from, i, j).Absent? {
        return Done(0, None);
      }
      var previous := UserCell(tables, from, i, j).base;
      WriteCell(from, i, j, Absent);
      result := Done(previous, None);
      if !KernelArea(virt) {
        var empty := TableIsEmpty(slot.base);
        if empty {
          GiveUpTable(root, i);
          result := Done(previous, Some(slot.base));
        }
      }
    }

    method GiveUpTable(root: int, i: int)
      modifies this`tables, this`pool
      ensures M() == Emptied(layout, old(M()), root, i)
    {
      var slot := Slot(tables, root, i);
      if slot.Coarse? {
        pool := Served(pool, Request.Free(layout.PageOf(slot.base), KB16));
        tables := RemoveTable(PutSlot(tables, root, i, Empty), slot.base);
      }
    }

    /** vm_try_fix_page_fault. */
    method TryFixPageFault(instruction: Word, fault: Word) returns (result: FaultResult)
      requires Valid()
      modifies this`tables
      ensures (result, M()) == FaultStep(layout, old(M()), current, instruction, fault)
      ensures Valid()
    {
      FaultRepaired(layout, M(), current, instruction, fault);
      var i := Lvl1Index(fault);
      if !KernelArea(instruction) {
        return ProcessFatal;
      }
      if !KernelArea(fault) {
        return KernelFatal;
      }
      if Slot(tables, layout.kernelRoot, i).Empty? {
        return KernelFatal;
      }
      if Slot(tables, current, i).Empty? {
        tables := PutSlot(tables, current, i, Slot(tables, layout.kernelRoot, i));
        return Fixed;
      }
      result := KernelFatal;
    }

    /** vm_create_address_space. */
    method CreateAddressSpace() returns (root: Option<int>)
      requires Valid() && VectorReady(layout, M())
      modifies this`tables, this`place, this`pool
      ensures (root, M()) == CreateStep(layout, old(M()))
      ensures Valid()
    {
      CreateMakesSpace(layout, M());
      root := MakeSpace();
    }

    method MakeSpace() returns (root: Option<int>)
      requires Good(layout, M())
      modifies this`tables, this`place, this`pool
      ensures (root, M()) == CreateStep(layout, old(M()))
    {
      var taken := Take(pool.free, KB16);
      if taken.OutOfMemory? {
        return None;
      }
      var served := Served(pool, Request.Alloc(KB16));
      if Take(served.free, KB1).OutOfMemory? {
        pool := Served(served, Request.Free(taken.page, KB16));
        return None;
      }
      FillSpace(layout.AddrOf(taken.page));
      root := Some(layout.AddrOf(taken.page));
    }

    method FillSpace(root: int)
      requires Good(layout, M()) && Take(pool.free, KB16).Took?
      modifies this`tables, this`place, this`pool
      ensures M() == WithVector(layout, Hung(layout, Rooted(layout, old(M())), root, 0), root)
    {
      MakeRoot();
      HangNewTable(root, 0);
      ShareVectorPage(root);
    }

    /** Clears a new first-level table and copies the kernel's half of the kernel's table into it. */
    method MakeRoot()
      requires Shaped(tables)
      modifies this`tables, this`pool
      ensures M() == Rooted(layout, old(M()))
    {
      var taken := Take(pool.free, KB16);
      if taken.Took? {
        var slots := seq(LVL1_ENTRIES, _ => Empty);
        var i := KERNEL_SLOT;
        while i < LVL1_ENTRIES
          invariant KERNEL_SLOT <= i <= LVL1_ENTRIES == |slots|
          invariant forall n :: 0 <= n < LVL1_ENTRIES ==>
            slots[n] == if KERNEL_SLOT <= n < i then Slot(tables, layout.kernelRoot, n) else Empty
        {
          slots := slots[i := Slot(tables, layout.kernelRoot, i)];
          i := i + 1;
        }
        pool := Served(pool, Request.Alloc(KB16));
        assert slots == NewRoot(layout, tables, layout.AddrOf(taken.page)).l1[layout.AddrOf(taken.page)];
        tables := tables.(l1 := tables.l1[layout.AddrOf(taken.page) := slots]);
      }
    }

    /** Counts one more reference to the page of the vector table and maps it at address zero. */
    method ShareVectorPage(root: int)
      modifies this`tables, this`pool
      ensures M() == WithVector(layout, old(M()), root)
    {
      var e := UserCell(tables, layout.kernelRoot, 0, 0);
      if e.SmallPage? {
        var page := layout.PageOf(e.base);
        pool := Served(pool, Request.AddRef(page));
        WriteCell(root, 0, 0, SmallPage(layout.AddrOf(page), PriviledgedOnly));
      }
    }

    /** Gives back the page mapped by cell j of the table in slot i. */
    method FreePage(root: int, i: int, j: int)
      requires UserCell(tables, root, i, j).SmallPage?
      modifies this`tables, this`pool
      ensures M() == ClearCell(layout, old(M()), root, i, j)
    {
      var table := Slot(tables, root, i).base;
      pool := Served(pool, Request.Free(layout.PageOf(Cell(tables, table, j).base), KB4));
      tables := PutCell(tables, table, j, Absent);
    }

    /** The inner loop of vm_free. */
    method FreePages(root: int, i: int)
      requires Good(layout, M()) && root in tables.l1 && Owned(layout, tables, pool, root)
      requires 0 <= i < KERNEL_SLOT && Slot(tables, root, i).Coarse?
      modifies this`tables, this`pool
      ensures Clearing(layout, old(M()), M(), root, i, LVL2_ENTRIES)
    {
      ghost var m0 := M();
      BalancedNothing(layout, m0, root);
      var j := 0;
      while j < LVL2_ENTRIES
        invariant 0 <= j <= LVL2_ENTRIES
        invariant Clearing(layout, m0, M(), root, i, j)
      {
        ClearingStep(layout, m0, M(), root, i, j);
        if UserCell(tables, root, i, j).SmallPage? {
          FreePage(root, i, j);
        }
        j := j + 1;
      }
    }

    /** Gives back the table in slot i. */
    method FreeTable(root: int, i: int)
      requires root in tables.l1 && 0 <= i < |tables.l1[root]| && Slot(tables, root, i).Coarse?
      modifies this`tables, this`pool
      ensures M() == DropTable(layout, old(M()), root, i)
    {
      var table := Slot(tables, root, i).base;
      pool := Served(pool, Request.Free(layout.PageOf(table), KB1));
      tables := RemoveTable(PutSlot(tables, root, i, Empty), table);
    }

    /** Gives back the first-level table. */
    method FreeRoot(root: int)
      modifies this`tables, this`pool
      ensures M() == DropRoot(layout, old(M()), root)
    {
      pool := Served(pool, Request.Free(layout.PageOf(root), KB16));
      tables := tables.(l1 := tables.l1 - {root});
    }

    /** The outer loop of vm_free. */
    method FreeTables(root: int)
      requires Good(layout, M()) && root in tables.l1 && Owned(layout, tables, pool, root)
      modifies this`tables, this`pool
      ensures Dropping(layout, old(M()), M(), root, KERNEL_SLOT)
    {
      ghost var m0 := M();
      DroppingBegins(layout, m0, root);
      var i := 0;
      while i < KERNEL_SLOT
        invariant 0 <= i <= KERNEL_SLOT && root in tables.l1
        invariant Dropping(layout, m0, M(), root, i)
      {
        if Slot(tables, root, i).Coarse? {
          FreeSlot(root, i, m0);
        } else {
          SkipSlot(layout, m0, M(), root, i);
        }
        i := i + 1;
      }
    }

    /** Gives back what hangs in slot i. */
    method FreeSlot(root: int, i: int, ghost m0: Machine)
      requires Dropping(layout, m0, M(), root, i) && root in tables.l1
      requires 0 <= i < KERNEL_SLOT && Slot(tables, root, i).Coarse?
      modifies this`tables, this`pool
      ensures Dropping(layout, m0, M(), root, i + 1) && root in tables.l1
    {
      ghost var m := M();
      FreePages(root, i);
      DroppingStep(layout, m0, m, M(), root, i);
      FreeTable(root, i);
    }

    /** vm_free: every reference of the address space is given back, each page at the order at which it
        was allocated, and no other address space changes. */
    method FreeSpace(root: int)
      requires Valid() && root in tables.l1 && root != layout.kernelRoot && root != current
      requires Owned(layout, tables, pool, root)
      modifies this`tables, this`pool
      ensures Valid() && Freed(layout, old(M()), M(), root)
    {
      GiveBackAll(root);
    }

    method GiveBackAll(root: int)
      requires Good(layout, M()) && root in tables.l1 && root != layout.kernelRoot
      requires Owned(layout, tables, pool, root)
      modifies this`tables, this`pool
      ensures Freed(layout, old(M()), M(), root)
    {
      FreeTables(root);
      DroppedAll(layout, old(M()), M(), root);
      FreeRoot(root);
    }

    /** The inner loop of vm_fork: the pages of the parent's table in slot i. */
    method ForkPages(parent: int, child: int, i: int, ghost m0: Machine, ghost f0: Frames) returns (ok: bool)
      requires 0 <= i < KERNEL_SLOT && Forkable(layout, m0, parent, child)
      requires CopyingCells(layout, m0, f0, M(), frames, parent, child, i, 0)
      modifies this`tables, this`pool, this`frames
      ensures ok ==> CopyingCells(layout, m0, f0, M(), frames, parent, child, i, LVL2_ENTRIES)
      ensures !ok ==> Abandoned(layout, m0, f0, M(), frames, parent, child)
    {
      var j := 0;
      while j < LVL2_ENTRIES
        invariant 0 <= j <= LVL2_ENTRIES
        invariant CopyingCells(layout, m0, f0, M(), frames, parent, child, i, j)
      {
        var e := UserCell(tables, parent, i, j);
        if e.Absent? {
          SkipEmptyCell(layout, m0, f0, M(), frames, parent, child, i, j);
        } else {
          if Take(pool.free, KB4).OutOfMemory? {
            return false;
          }
          CopyCell(layout, m0, f0, M(), frames, parent, child, i, j);
          ForkPage(child, i, j, e);
        }
        j := j + 1;
      }
      ok := true;
    }

    /** Allocates a frame, copies the page into it and maps it. */
    method ForkPage(child: int, i: int, j: int, e: Entry2)
      requires e.SmallPage? && Take(pool.free, KB4).Took?
      modifies this`tables, this`pool, this`frames
      ensures M() == PageForked(layout, old(M()), child, i, j, e)
      ensures frames == FrameForked(layout, old(M()), old(frames), e)
    {
      var page := Take(pool.free, KB4).page;
      pool := Served(pool, Request.Alloc(KB4));
      frames := frames[layout.AddrOf(page) := FrameAt(frames, e.base)];
      WriteCell(child, i, j, SmallPage(layout.AddrOf(page), e.permissions));
    }

    /** Allocates a table and hangs it in slot i of the child, over whatever was there. */
    method ForkTable(child: int, i: int)
      requires child in tables.l1 && 0 <= i < |tables.l1[child]| && i < KERNEL_SLOT
      modifies this`tables, this`place, this`pool
      ensures M() == TableForked(layout, old(M()), child, i)
    {
      tables := PutSlot(tables, child, i, Empty);
      HangNewTable(child, i);
    }

    /** The loop of vm_fork over the slots of the parent. */
    method ForkSlots(parent: int, child: int) returns (result: ForkResult)
      requires Forkable(layout, M(), parent, child)
      modifies this`tables, this`place, this`pool, this`frames
      ensures ForkedSlots(layout, old(M()), old(frames), M(), frames, parent, child, KERNEL_SLOT, result)
    {
      ghost var m0, f0 := M(), frames;
      ForkBegins(layout, m0, f0, parent, child);
      result := ForkDone;
      var i := 0;
      while i < KERNEL_SLOT && result.ForkDone?
        invariant 0 <= i <= KERNEL_SLOT
        invariant ForkedSlots(layout, m0, f0, M(), frames, parent, child, i, result)
      {
        result := VisitSlot(parent, child, i, m0, f0);
        i := i + 1;
      }
    }

    /** The body of that loop. */
    method VisitSlot(parent: int, child: int, i: int, ghost m0: Machine, ghost f0: Frames) returns (result: ForkResult)
      requires 0 <= i < KERNEL_SLOT && ForkedSlots(layout, m0, f0, M(), frames, parent, child, i, ForkDone)
      modifies this`tables, this`place, this`pool, this`frames
      ensures ForkedSlots(layout, m0, f0, M(), frames, parent, child, i + 1, result)
    {
      var slot := Slot(tables, parent, i);
      assert Untouched(m0.tables, tables, parent);
      if slot.Section? {
        result := PanicForkSection;
      } else if slot.Empty? {
        SkipEmptySlot(layout, m0, f0, M(), frames, parent, child, i);
        result := ForkDone;
      } else if Take(pool.free, KB1).Took? {
        var ok := ForkSlot(parent, child, i, m0, f0);
        result := if ok then ForkDone else ForkOutOfMemory;
      } else {
        assert Overwrote(layout, m0, M(), child, i);
        result := ForkOutOfMemory;
      }
    }

    /** Slot i of vm_fork: a new table for the child, and copies of the pages. */
    method ForkSlot(parent: int, child: int, i: int, ghost m0: Machine, ghost f0: Frames) returns (ok: bool)
      requires 0 <= i < KERNEL_SLOT && Forkable(layout, m0, parent, child) && Slot(tables, parent, i).Coarse?
      requires CopyingSlots(layout, m0, f0, M(), frames, parent, child, i) && Take(pool.free, KB1).Took?
      modifies this`tables, this`place, this`pool, this`frames
      ensures ok ==> CopyingSlots(layout, m0, f0, M(), frames, parent, child, i + 1)
      ensures !ok ==> Abandoned(layout, m0, f0, M(), frames, parent, child)
    {
      EnterForkedTable(parent, child, i, m0, f0);
      ok := ForkPages(parent, child, i, m0, f0);
      if ok {
        LeaveTable(layout, m0, f0, M(), frames, parent, child, i);
      }
    }

    method EnterForkedTable(parent: int, child: int, i: int, ghost m0: Machine, ghost f0: Frames)
      requires 0 <= i < KERNEL_SLOT && Forkable(layout, m0, parent, child) && Slot(tables, parent, i).Coarse?
      requires CopyingSlots(layout, m0, f0, M(), frames, parent, child, i) && Take(pool.free, KB1).Took?
      modifies this`tables, this`place, this`pool
      ensures CopyingCells(layout, m0, f0, M(), frames, parent, child, i, 0)
    {
      ghost var m := M();
      ForkTable(child, i);
      EnterTable(layout, m0, f0, m, frames, M(), parent, child, i);
    }

    /** vm_fork: either the child becomes a copy of the parent, or there is no memory and the child is
        freed; a section below the kernel makes it panic. */
    method Fork(parent: int, child: int) returns (result: ForkResult)
      requires Valid() && Forkable(layout, M(), parent, child) && child != current
      modifies this`tables, this`place, this`pool, this`frames
      ensures ForkEnds(layout, old(M()), old(frames), M(), frames, parent, child, result)
      ensures !result.PanicForkSection? ==> Valid()
    {
      ghost var m0, f0 := M(), frames;
      result := ForkSlots(parent, child);
      FinishFork(parent, child, result, m0, f0);
    }

    method FinishFork(parent: int, child: int, result: ForkResult, ghost m0: Machine, ghost f0: Frames)
      requires current in m0.tables.l1 && child != current
      requires ForkedSlots(layout, m0, f0, M(), frames, parent, child, KERNEL_SLOT, result)
      modifies this`tables, this`pool
      ensures ForkEnds(layout, m0, f0, M(), frames, parent, child, result)
      ensures !result.PanicForkSection? ==> Valid()
    {
      match result {
        case ForkDone => CopiedAll(layout, m0, f0, M(), frames, parent, child);
        case ForkOutOfMemory => AbandonFork(parent, child, m0, f0);
        case PanicForkSection =>
      }
    }

    /** The failure path of vm_fork: the child is freed. */
    method AbandonFork(parent: int, child: int, ghost m0: Machine, ghost f0: Frames)
      requires current in m0.tables.l1 && child != current
      requires ForkedSlots(layout, m0, f0, M(), frames, parent, child, KERNEL_SLOT, ForkOutOfMemory)
      modifies this`tables, this`pool
      ensures Valid() && ForkEnds(layout, m0, f0, M(), frames, parent, child, ForkOutOfMemory)
    {
      ghost var abandoned := M();
      FreeSpace(child);
      AbandonedThenFreed(layout, m0, f0, abandoned, frames, M(), parent, child);
    }
  }
}
