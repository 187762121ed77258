/** kernel/memory/vm.cpp: the kernel's page zero, the vector table, which every new address space maps. The
    kernel has a reference of its own to it. */
module VectorPage {
  import opened Descriptors
  import opened Translation
  import opened References
  import opened PhysicalAlloc
  import opened Lifetimes
  import opened Mapping
  import opened Creation
  import opened Forking
  import opened Accounts

  ghost function VectorRefs(c: Layout, m: Machine): multiset<nat> {
    CellRefs(c, VectorEntry(c, m))
  }

  /** Address spaces can be created, and one reference to the vector page is no process's. */
  ghost predicate VectorKept(c: Layout, m: Machine) {
    VectorReady(c, m) && VectorRefs(c, m) <= Share(c, m)
  }

  /** While there are no processes, the kernel's reference is its own. */
  lemma VectorKeptAtFirst(c: Layout, m: Machine)
    requires Good(c, m) && VectorReady(c, m) && m.tables.l1.Keys == {c.kernelRoot}
    ensures AllOwned(c, m) && VectorKept(c, m)
  {
    NoProcesses(c, m);
    assert Live(m.pool.live, c.PageOf(VectorEntry(c, m).base));
  }

  /** The entry is as it was, and so is the kernel's reference. */
  lemma EntryKept(c: Layout, m: Machine, m': Machine)
    requires VectorKept(c, m) && VectorEntry(c, m') == VectorEntry(c, m) && Good(c, m')
    requires SameOrders(m.pool, m'.pool) && VectorRefs(c, m) <= Share(c, m')
    ensures VectorKept(c, m')
  {
    var p := c.PageOf(VectorEntry(c, m).base);
    assert p in VectorRefs(c, m) && p in Share(c, m') && p in m'.pool.refs;
    assert Live(m'.pool.live, p);
  }

  lemma AtLeast(x: multiset<nat>, a: multiset<nat>, b: multiset<nat>, a': multiset<nat>, given: multiset<nat>)
    requires given + x <= a && a' + given == a + b
    ensures x <= a'
  {
    forall p: nat
      ensures x[p] <= a'[p]
    {
      assert (given + x)[p] <= a[p] && (a' + given)[p] == (a + b)[p];
    }
  }

  /** Only the address space at root has changed, and the kernel has lost nothing. */
  lemma ElsewhereKept(c: Layout, m: Machine, m': Machine, root: int, back: multiset<nat>)
    requires VectorKept(c, m) && Good(c, m') && root != c.kernelRoot && OthersUntouched(m.tables, m'.tables, root)
    requires SameOrders(m.pool, m'.pool) && Share(c, m') == Share(c, m) + back
    ensures VectorKept(c, m')
  {
    assert Untouched(m.tables, m'.tables, c.kernelRoot);
    EntryKept(c, m, m');
  }

  // ----- Mapping -----

  /** The table that serves page zero is still there. */
  ghost predicate SlotKept(c: Layout, m: Machine, m': Machine) {
    Slot(m'.tables, c.kernelRoot, 0) == Slot(m.tables, c.kernelRoot, 0) && m.pool.live <= m'.pool.live
  }

  lemma HungKeepsSlot(c: Layout, m: Machine, root: int, i: int)
    requires Good(c, m) && root in m.tables.l1 && 0 <= i < LVL1_ENTRIES && (root != c.kernelRoot || i != 0)
    ensures SlotKept(c, m, Hung(c, m, root, i))
  {
    if Take(m.pool.free, KB1).Took? {
      var a := c.AddrOf(Take(m.pool.free, KB1).page);
      SlotsAfterPut(AddTable(m.tables, a), root, i, Coarse(a));
      SlotsAfterPut(PutSlot(AddTable(m.tables, a), root, i, Coarse(a)), c.kernelRoot, i, Coarse(a));
    }
  }

  lemma EnsuredKeepsSlot(c: Layout, m: Machine, root: int, virt: Word)
    requires Good(c, m) && root in m.tables.l1 && virt != 0xffff_ffff && Slot(m.tables, c.kernelRoot, 0).Coarse?
    ensures SlotKept(c, m, Ensured(c, m, root, virt))
  {
    KernelAreaIsKernelSlots(virt);
    var i := Lvl1Index(virt);
    if Slot(m.tables, root, i).Empty? {
      if KernelArea(virt) {
        CopiedIsGood(c, m, root, i);
        SlotsAfterPut(m.tables, root, i, Slot(m.tables, c.kernelRoot, i));
        HungKeepsSlot(c, Copied(c, m, root, i), root, i);
      } else {
        HungKeepsSlot(c, m, root, i);
      }
    }
  }

  lemma MapKeepsSlot(c: Layout, m: Machine, root: int, virt: Word, e: Entry2)
    requires Good(c, m) && root in m.tables.l1 && virt != 0xffff_ffff && Slot(m.tables, c.kernelRoot, 0).Coarse?
    ensures SlotKept(c, m, MapStep(c, m, root, virt, e).1)
  {
    EnsuredKeepsSlot(c, m, root, virt);
  }

  /** Mapping does not change what is mapped at the kernel's page zero: it panics when asked to. */
  lemma MapKeepsEntry(c: Layout, m: Machine, root: int, virt: Word, e: Entry2)
    requires Good(c, m) && root in m.tables.l1 && virt != 0xffff_ffff && VectorEntry(c, m).SmallPage?
    ensures VectorEntry(c, MapStep(c, m, root, virt, e).1) == VectorEntry(c, m)
  {
    var (result, m') := MapStep(c, m, root, virt, e);
    MapKeepsSlot(c, m, root, virt, e);
    MapAddsOneEntry(c, m, root, virt, e);
    MapResults(c, m, root, virt, e);
    IndicesSplitAddress(virt);
    assert VectorEntry(c, m) == View(m.tables, c.kernelRoot, c.kernelRoot, 0);
    assert VectorEntry(c, m') == View(m'.tables, c.kernelRoot, c.kernelRoot, 0);
  }

  /** A process must not be given the last reference to the vector page. */
  lemma MapKeepsVector(c: Layout, m: Machine, root: int, virt: Word, e: Entry2)
    requires Good(c, m) && AllOwned(c, m) && root in m.tables.l1 && virt != 0xffff_ffff && Handed(c, m, root, virt, e)
    requires VectorKept(c, m) && Given(c, m, root, virt, e) + VectorRefs(c, m) <= Share(c, m)
    ensures VectorKept(c, MapStep(c, m, root, virt, e).1)
  {
    var m' := MapStep(c, m, root, virt, e).1;
    MapKeeps(c, m, root, virt, e);
    MapAddsOneEntry(c, m, root, virt, e);
    MapKeepsEntry(c, m, root, virt, e);
    MapKeepsSlot(c, m, root, virt, e);
    AtLeast(VectorRefs(c, m), Share(c, m), KeptTable(c, m, root, virt), Share(c, m'), Given(c, m, root, virt, e));
    EntryKept(c, m, m');
  }

  // ----- Unmapping -----

  /** Where the vector page is mapped. */
  predicate AtVector(c: Layout, root: int, virt: Word) {
    root == c.kernelRoot && virt < 0x1000
  }

  lemma UnmapEntry(c: Layout, m: Machine, root: int, virt: Word)
    requires Good(c, m) && root in m.tables.l1 && virt != 0xffff_ffff && !LastInTable(m, root, virt)
    ensures var m' := UnmapStep(c, m, root, virt).1;
      && VectorEntry(c, m') == (if AtVector(c, root, virt) then Absent else VectorEntry(c, m))
      && m'.pool == m.pool
  {
    var i, j, from := Lvl1Index(virt), Lvl2Index(virt), ServedFrom(c, root, virt);
    KernelAreaIsKernelSlots(virt);
    IndicesSplitAddress(virt);
    if UserCell(m.tables, from, i, j).SmallPage? {
      UnmapStages(c, m, root, virt);
      CellWritten(m.tables, m.place, c.kernelRoot, from, i, j, Absent);
    }
  }

  /** Unmapping keeps the vector page exactly if it is not the vector page that is unmapped. */
  lemma UnmapKeepsVector(c: Layout, m: Machine, root: int, virt: Word)
    requires Good(c, m) && AllOwned(c, m) && root in m.tables.l1 && virt != 0xffff_ffff && !LastInTable(m, root, virt)
    requires VectorKept(c, m)
    ensures VectorKept(c, UnmapStep(c, m, root, virt).1) <==> !AtVector(c, root, virt)
  {
    var m' := UnmapStep(c, m, root, virt).1;
    UnmapEntry(c, m, root, virt);
    if !AtVector(c, root, virt) {
      UnmapKeeps(c, m, root, virt);
      UnmapIsGood(c, m, root, virt);
      EntryKept(c, m, m');
    }
  }

  // ----- The other operations -----

  lemma CreateKeepsVector(c: Layout, m: Machine)
    requires Good(c, m) && AllOwned(c, m) && VectorKept(c, m)
    ensures VectorKept(c, CreateStep(c, m).1)
  {
    var (root, m') := CreateStep(c, m);
    CreateMakesSpace(c, m);
    CreateKeeps(c, m);
    if root.Some? {
      NothingAdded(Share(c, m));
      ElsewhereKept(c, m, m', root.value, multiset{});
    } else {
      EntryKept(c, m, m');
    }
  }

  lemma FaultKeepsVector(c: Layout, m: Machine, current: int, instruction: Word, fault: Word)
    requires Good(c, m) && AllOwned(c, m) && current in m.tables.l1 && VectorKept(c, m)
    ensures VectorKept(c, FaultStep(c, m, current, instruction, fault).1)
  {
    var (result, m') := FaultStep(c, m, current, instruction, fault);
    KernelAreaIsKernelSlots(fault);
    FaultKeeps(c, m, current, instruction, fault);
    FaultRepaired(c, m, current, instruction, fault);
    if result.Fixed? {
      SlotsAfterPut(m.tables, current, Lvl1Index(fault), Slot(m.tables, c.kernelRoot, Lvl1Index(fault)));
      EntryKept(c, m, m');
    }
  }

  lemma ForkKeepsVector(c: Layout, m: Machine, f: Frames, m': Machine, f': Frames, parent: int, child: int)
    requires Good(c, m) && AllOwned(c, m) && child in Spaces(c, m.tables) && VectorKept(c, m)
    requires Forked(c, m, f, m', f', parent, child) || Unforked(c, m, f, m', f', child)
    ensures VectorKept(c, m')
  {
    ForkKeeps(c, m, f, m', f', parent, child);
    assert SameOrders(m.pool, m'.pool);
    ElsewhereKept(c, m, m', child, LeftByFork(c, m, m', child));
  }

  lemma ReleaseKeepsVector(c: Layout, m: Machine, m': Machine, root: int)
    requires Good(c, m) && AllOwned(c, m) && root in Spaces(c, m.tables) && Freed(c, m, m', root) && VectorKept(c, m)
    ensures VectorKept(c, m')
  {
    ReleaseKeeps(c, m, m', root);
    ShrunkOrders(m.pool, m'.pool, c.lo, c.hi);
    NothingAdded(Share(c, m));
    ElsewhereKept(c, m, m', root, multiset{});
  }
}
