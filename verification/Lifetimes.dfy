/** kernel/memory/vm.cpp: the steps from which creating, freeing and forking an address space are
    made, on the tables and the allocator together. */
module Lifetimes {
  import opened Descriptors
  import opened Translation
  import opened References
  import opened PhysicalAlloc

  /** The tables with the places of the second-level tables, and the page allocator. */
  datatype Machine = Machine(tables: Tables, place: map<int, Place>, pool: Pool)

  /** A table lies in memory that the boot loader reserved or in a live block of its size. */
  ghost predicate Backed(c: Layout, pool: Pool, addr: int, order: Order) {
    && addr == c.AddrOf(c.PageOf(addr))
    && (c.PageOf(addr) < c.lo || Block(c.PageOf(addr), order) in pool.live)
  }

  ghost predicate AllBacked(c: Layout, m: Machine) {
    && (forall r :: r in m.tables.l1 ==> Backed(c, m.pool, r, KB16))
    && (forall a :: a in m.tables.l2 ==> Backed(c, m.pool, a, KB1))
  }

  ghost predicate Good(c: Layout, m: Machine) {
    && c.Proper()
    && Sound(m.pool, c.lo, c.hi)
    && Consistent(m.tables, m.place, c.kernelRoot)
    && AllBacked(c, m)
  }

  ghost predicate SameViews(c: Layout, t: Tables, t': Tables) {
    forall r, v :: r in t.l1 && 0 <= v < VIRTUAL_PAGES ==> View(t', c.kernelRoot, r, v) == View(t, c.kernelRoot, r, v)
  }

  /** A newly allocated table is at an address where no table is yet. */
  lemma AllocatedTableIsNew(c: Layout, m: Machine, o: Order)
    requires Good(c, m) && Take(m.pool.free, o).Took?
    ensures var p, pool := Take(m.pool.free, o).page, Served(m.pool, Request.Alloc(o));
      && c.PageOf(c.AddrOf(p)) == p
      && (o == KB1 ==> c.AddrOf(p) !in m.tables.l2) && (o == KB16 ==> c.AddrOf(p) !in m.tables.l1)
      && Backed(c, pool, c.AddrOf(p), o)
      && Sound(pool, c.lo, c.hi) && AllBacked(c, m.(pool := pool))
  {
    AllocatedIsNew(m.pool, o, c.lo, c.hi);
    ServedIsSound(m.pool, Request.Alloc(o), c.lo, c.hi);
  }

  lemma NewTableIsGood(c: Layout, m: Machine, root: int, i: int)
    requires Good(c, m) && root in m.tables.l1 && 0 <= i < LVL1_ENTRIES
    requires NeedsTable(m.tables, c.kernelRoot, root, i) && Take(m.pool.free, KB1).Took?
    ensures var a := c.AddrOf(Take(m.pool.free, KB1).page);
      var t' := HangTable(m.tables, c.kernelRoot, root, i, a);
      && Good(c, Machine(t', m.place[a := PlaceOf(root, i)], Served(m.pool, Request.Alloc(KB1))))
      && SameViews(c, m.tables, t') && t'.l1.Keys == m.tables.l1.Keys && Slot(t', root, i) == Coarse(a)
  {
    AllocatedTableIsNew(c, m, KB1);
    NewTableChangesNothing(m.tables, m.place, c.kernelRoot, root, i, c.AddrOf(Take(m.pool.free, KB1).page));
  }

  // ----- Giving up an address space -----

  /** From m to m' the references that the address space at root holds and the references that are
      counted have changed alike; the address space can be freed, and no other one and no kernel page
      has changed. */
  ghost predicate Balanced(c: Layout, m: Machine, m': Machine, root: int) {
    && Good(c, m') && Owned(c, m'.tables, m'.pool, root)
    && m'.tables.l1.Keys == m.tables.l1.Keys
    && m'.pool.refs + SpaceRefs(c, m.tables, root) == m.pool.refs + SpaceRefs(c, m'.tables, root)
    && OtherViewsKept(c, m.tables, m'.tables, root)
  }

  ghost predicate OtherViewsKept(c: Layout, t: Tables, t': Tables, root: int) {
    forall r, v :: r in t.l1 && (r != root || v >= KERNEL_PAGE) && 0 <= v < VIRTUAL_PAGES ==>
      View(t', c.kernelRoot, r, v) == View(t, c.kernelRoot, r, v)
  }

  lemma BalancedNothing(c: Layout, m: Machine, root: int)
    requires Good(c, m) && Owned(c, m.tables, m.pool, root)
    ensures Balanced(c, m, m, root)
  {
  }

  lemma BalancedTwice(c: Layout, m: Machine, m': Machine, m'': Machine, root: int)
    requires Balanced(c, m, m', root) && Balanced(c, m', m'', root)
    ensures Balanced(c, m, m'', root)
  {
    Telescope(m.pool.refs, m'.pool.refs, m''.pool.refs,
              SpaceRefs(c, m.tables, root), SpaceRefs(c, m'.tables, root), SpaceRefs(c, m''.tables, root));
  }

  lemma Telescope(a: multiset<nat>, a': multiset<nat>, a'': multiset<nat>, s: multiset<nat>, s': multiset<nat>,
          s'': multiset<nat>)
    requires a' + s == a + s' && a'' + s' == a' + s''
    ensures a'' + s == a + s''
  {
    forall p: nat
      ensures (a'' + s)[p] == (a + s'')[p]
    {
      assert (a' + s)[p] == (a + s')[p] && (a'' + s')[p] == (a' + s'')[p];
    }
  }

  /** Freeing a mapped page and clearing its cell. */
  function ClearCell(c: Layout, m: Machine, root: int, i: int, j: int): Machine
    requires UserCell(m.tables, root, i, j).SmallPage?
  {
    Machine(PutCell(m.tables, Slot(m.tables, root, i).base, j, Absent), m.place,
            Served(m.pool, Request.Free(c.PageOf(UserCell(m.tables, root, i, j).base), KB4)))
  }

  lemma ClearCellRefs(c: Layout, m: Machine, root: int, i: int, j: int)
    requires Good(c, m) && root in m.tables.l1
    requires 0 <= i < KERNEL_SLOT && UserCell(m.tables, root, i, j).SmallPage?
    ensures var t' := PutCell(m.tables, Slot(m.tables, root, i).base, j, Absent);
      && SpaceRefs(c, m.tables, root)
            == SpaceRefs(c, t', root) + multiset{c.PageOf(UserCell(m.tables, root, i, j).base)}
      && Fewer(m.tables, t', root) && Shaped(t')
  {
    PutCellRefs(c, m.tables, m.place, root, i, j, Absent, root);
    CellsAfterPut(m.tables, Slot(m.tables, root, i).base, j, Absent);
  }

  /** Once the tables no longer name a page, freeing it keeps the machine good and sheds its reference. */
  lemma FreeBalances(c: Layout, m: Machine, t': Tables, root: int, b: Block)
    requires Good(c, m) && root in m.tables.l1 && Owned(c, m.tables, m.pool, root) && b in m.pool.live
    requires Consistent(t', m.place, c.kernelRoot) && t'.l1.Keys == m.tables.l1.Keys && t'.l2.Keys <= m.tables.l2.Keys
    requires SpaceRefs(c, m.tables, root) == SpaceRefs(c, t', root) + multiset{b.start}
    requires Fewer(m.tables, t', root) && OtherViewsKept(c, m.tables, t', root)
    requires b.order != KB16 && (b.order == KB1 ==> forall a :: a in t'.l2 ==> c.PageOf(a) != b.start)
    ensures Balanced(c, m, Machine(t', m.place, Served(m.pool, Request.Free(b.start, b.order))), root)
  {
    FreeKeepsOwned(c, m.tables, t', m.pool, root, b);
    FreedBalance(m.pool.refs, SpaceRefs(c, m.tables, root), SpaceRefs(c, t', root), b.start);
    var m' := Machine(t', m.place, Served(m.pool, Request.Free(b.start, b.order)));
    assert AllBacked(c, m');
  }

  lemma ClearCellBalances(c: Layout, m: Machine, root: int, i: int, j: int)
    requires Good(c, m) && root in m.tables.l1 && Owned(c, m.tables, m.pool, root)
    requires 0 <= i < KERNEL_SLOT && UserCell(m.tables, root, i, j).SmallPage?
    ensures Balanced(c, m, ClearCell(c, m, root, i, j), root)
  {
    var t' := PutCell(m.tables, Slot(m.tables, root, i).base, j, Absent);
    PutCellChangesOnePage(m.tables, m.place, c.kernelRoot, root, i, j, Absent);
    ClearCellRefs(c, m, root, i, j);
    FreeBalances(c, m, t', root, Block(c.PageOf(UserCell(m.tables, root, i, j).base), KB4));
  }

  lemma FreedBalance(refs: multiset<nat>, s: multiset<nat>, s': multiset<nat>, p: nat)
    requires s <= refs && s == s' + multiset{p}
    ensures refs - multiset{p} + s == refs + s'
  {
    assert p in s;
  }

  /** Freeing an empty second-level table and clearing its slot. */
  function DropTable(c: Layout, m: Machine, root: int, i: int): Machine
    requires Slot(m.tables, root, i).Coarse?
  {
    var a := Slot(m.tables, root, i).base;
    Machine(RemoveTable(PutSlot(m.tables, root, i, Empty), a), m.place, Served(m.pool, Request.Free(c.PageOf(a), KB1)))
  }

  lemma DropTableRefs(c: Layout, m: Machine, root: int, i: int)
    requires Good(c, m) && root in m.tables.l1 && 0 <= i < KERNEL_SLOT && Slot(m.tables, root, i).Coarse?
    requires forall j :: 0 <= j < LVL2_ENTRIES ==> Cell(m.tables, Slot(m.tables, root, i).base, j).Absent?
    ensures var a := Slot(m.tables, root, i).base;
      var t' := RemoveTable(PutSlot(m.tables, root, i, Empty), a);
      && SpaceRefs(c, m.tables, root) == SpaceRefs(c, t', root) + multiset{c.PageOf(a)}
      && Fewer(m.tables, t', root) && Shaped(t')
  {
    var t, a := m.tables, Slot(m.tables, root, i).base;
    var t1 := PutSlot(t, root, i, Empty);
    EmptySlotRefs(c, m, root, i);
    NoOtherSlot(t, m.place, c.kernelRoot, root, i);
    LooseTableRefs(c, t1, RemoveTable(t1, a), a, root);
    TakenOutFewer(t, root, i);
  }

  lemma TakenOutFewer(t: Tables, root: int, i: int)
    requires Shaped(t) && root in t.l1 && 0 <= i < LVL1_ENTRIES && Slot(t, root, i).Coarse?
    ensures var t' := RemoveTable(PutSlot(t, root, i, Empty), Slot(t, root, i).base);
      Fewer(t, t', root) && Shaped(t')
  {
    SlotsAfterPut(t, root, i, Empty);
    CellsAfterRemove(PutSlot(t, root, i, Empty), Slot(t, root, i).base);
  }

  lemma EmptySlotRefs(c: Layout, m: Machine, root: int, i: int)
    requires Good(c, m) && root in m.tables.l1 && 0 <= i < KERNEL_SLOT && Slot(m.tables, root, i).Coarse?
    requires forall j :: 0 <= j < LVL2_ENTRIES ==> Cell(m.tables, Slot(m.tables, root, i).base, j).Absent?
    ensures SpaceRefs(c, m.tables, root)
      == SpaceRefs(c, PutSlot(m.tables, root, i, Empty), root) + multiset{c.PageOf(Slot(m.tables, root, i).base)}
  {
    var s, s' := SpaceRefs(c, m.tables, root), SpaceRefs(c, PutSlot(m.tables, root, i, Empty), root);
    EmptyTableRefs(c, m.tables, Slot(m.tables, root, i).base);
    PutSlotRefs(c, m.tables, root, i, Empty, root);
    assert s + multiset{} == s;
  }

  lemma EmptyTableRefs(c: Layout, t: Tables, a: int)
    requires forall j :: 0 <= j < LVL2_ENTRIES ==> Cell(t, a, j).Absent?
    requires a in t.l2 ==> |t.l2[a]| == LVL2_ENTRIES
    ensures SlotRefs(c, t, Coarse(a)) == multiset{c.PageOf(a)} && SlotRefs(c, t, Empty) == multiset{}
  {
    assert forall j :: 0 <= j < |CellsOf(t, a)| ==> CellsOf(t, a)[j] == Cell(t, a, j);
    EmptyTableHoldsNothing(c, CellsOf(t, a));
  }

  lemma NoOtherSlot(t: Tables, place: map<int, Place>, kernel: int, root: int, i: int)
    requires Consistent(t, place, kernel) && root in t.l1 && 0 <= i < LVL1_ENTRIES && Slot(t, root, i).Coarse?
    ensures forall n :: Slot(PutSlot(t, root, i, Empty), root, n) != Coarse(Slot(t, root, i).base)
  {
    forall n | n != i
      ensures Slot(t, root, n) != Slot(t, root, i)
    {
      if 0 <= n < LVL1_ENTRIES {
        OnlyPlace(t, place, kernel, root, i, root, n);
      }
    }
    SlotsAfterPut(t, root, i, Empty);
  }

  lemma DropTableBalances(c: Layout, m: Machine, root: int, i: int)
    requires Good(c, m) && root in m.tables.l1 && Owned(c, m.tables, m.pool, root)
    requires 0 <= i < KERNEL_SLOT && Slot(m.tables, root, i).Coarse?
    requires forall j :: 0 <= j < LVL2_ENTRIES ==> Cell(m.tables, Slot(m.tables, root, i).base, j).Absent?
    ensures Balanced(c, m, DropTable(c, m, root, i), root)
  {
    var a := Slot(m.tables, root, i).base;
    DropTableChangesNothing(m.tables, m.place, c.kernelRoot, root, i);
    DropTableRefs(c, m, root, i);
    FreeBalances(c, m, RemoveTable(PutSlot(m.tables, root, i, Empty), a), root, Block(c.PageOf(a), KB1));
  }

  /** Freeing the first-level table of an address space without second-level tables. */
  function DropRoot(c: Layout, m: Machine, root: int): Machine {
    Machine(m.tables.(l1 := m.tables.l1 - {root}), m.place, Served(m.pool, Request.Free(c.PageOf(root), KB16)))
  }

  lemma DropRootEnds(c: Layout, m: Machine, root: int)
    requires Good(c, m) && root in m.tables.l1 && root != c.kernelRoot && Owned(c, m.tables, m.pool, root)
    requires forall i :: 0 <= i < KERNEL_SLOT ==> !Slot(m.tables, root, i).Coarse?
    ensures var m' := DropRoot(c, m, root);
      && Good(c, m') && m'.pool.refs == m.pool.refs - SpaceRefs(c, m.tables, root)
      && OtherViewsKept(c, m.tables, m'.tables, root)
  {
    BareSpaceRefs(c, m.tables, root);
    RemoveSpaceChangesNothing(m.tables, m.place, c.kernelRoot, root);
    RootFreed(c, m, root);
  }

  lemma RootFreed(c: Layout, m: Machine, root: int)
    requires Good(c, m) && root in m.tables.l1 && Owned(c, m.tables, m.pool, root)
    ensures var m' := DropRoot(c, m, root);
      && Sound(m'.pool, c.lo, c.hi) && AllBacked(c, m') && m'.pool.refs == m.pool.refs - multiset{c.PageOf(root)}
  {
    ServedIsSound(m.pool, Request.Free(c.PageOf(root), KB16), c.lo, c.hi);
    LiveAfterFree(m.pool, Block(c.PageOf(root), KB16), KB16, c.lo, c.hi);
  }

  lemma BareSpaceRefs(c: Layout, t: Tables, root: int)
    requires forall i :: 0 <= i < KERNEL_SLOT ==> !Slot(t, root, i).Coarse?
    ensures SpaceRefs(c, t, root) == multiset{c.PageOf(root)}
  {
    forall e | e in UserSlots(t, root)
      ensures !e.Coarse?
    {
      var k :| 0 <= k < |UserSlots(t, root)| && UserSlots(t, root)[k] == e;
      assert Slot(t, root, k) == e;
    }
    NoTablesNoRefs(c, t, UserSlots(t, root));
  }

  lemma RemoveSpaceChangesNothing(t: Tables, place: map<int, Place>, kernel: int, root: int)
    requires Consistent(t, place, kernel) && root != kernel
    ensures var t' := t.(l1 := t.l1 - {root});
      && Consistent(t', place, kernel)
      && forall r, v :: r in t.l1 && r != root ==> View(t', kernel, r, v) == View(t, kernel, r, v)
  {
    var t' := t.(l1 := t.l1 - {root});
    assert forall r, n :: Slot(t', r, n) == if r == root then Empty else Slot(t, r, n);
    assert forall a, j :: Cell(t', a, j) == Cell(t, a, j);
  }

  /** The first j cells of the table in slot i map nothing. */
  ghost predicate CellsClear(t: Tables, root: int, i: int, j: int) {
    forall k :: 0 <= k < j ==> UserCell(t, root, i, k).Absent?
  }

  /** Clearing one cell of a table leaves the others of that table as they are. */
  lemma CellsOfOneTable(t: Tables, root: int, i: int, j: int, k: int)
    requires UserCell(t, root, i, j).SmallPage? && Shaped(t)
    ensures var t' := PutCell(t, Slot(t, root, i).base, j, Absent);
      UserCell(t', root, i, k) == if k == j then Absent else UserCell(t, root, i, k)
  {
    CellsAfterPut(t, Slot(t, root, i).base, j, Absent);
  }

  lemma OneMoreClear(t: Tables, root: int, i: int, j: int)
    requires CellsClear(t, root, i, j) && UserCell(t, root, i, j).SmallPage? && Shaped(t)
    ensures CellsClear(PutCell(t, Slot(t, root, i).base, j, Absent), root, i, j + 1)
  {
    var t' := PutCell(t, Slot(t, root, i).base, j, Absent);
    forall k | 0 <= k < j + 1
      ensures UserCell(t', root, i, k).Absent?
    {
      CellsOfOneTable(t, root, i, j, k);
    }
  }

  /** The inner loop of vm_free before cell j. */
  ghost predicate Clearing(c: Layout, m0: Machine, m: Machine, root: int, i: int, j: int) {
    && Balanced(c, m0, m, root) && m.tables.l1 == m0.tables.l1 && CellsClear(m.tables, root, i, j)
    && OthersUntouched(m0.tables, m.tables, root) && m.pool.live <= m0.pool.live
  }

  lemma ClearingStep(c: Layout, m0: Machine, m: Machine, root: int, i: int, j: int)
    requires Clearing(c, m0, m, root, i, j) && root in m.tables.l1 && 0 <= i < KERNEL_SLOT && 0 <= j < LVL2_ENTRIES
    ensures UserCell(m.tables, root, i, j).Absent? ==> Clearing(c, m0, m, root, i, j + 1)
    ensures UserCell(m.tables, root, i, j).SmallPage? ==> Clearing(c, m0, ClearCell(c, m, root, i, j), root, i, j + 1)
  {
    if UserCell(m.tables, root, i, j).SmallPage? {
      OneMoreClear(m.tables, root, i, j);
      ClearCellBalances(c, m, root, i, j);
      BalancedTwice(c, m0, m, ClearCell(c, m, root, i, j), root);
      ClearCellFrees(c, m, root, i, j);
      UntouchedTwice(m0.tables, m.tables, ClearCell(c, m, root, i, j).tables, root);
    }
  }

  lemma ClearCellFrees(c: Layout, m: Machine, root: int, i: int, j: int)
    requires Good(c, m) && root in m.tables.l1 && 0 <= i < KERNEL_SLOT && 0 <= j < LVL2_ENTRIES
    requires UserCell(m.tables, root, i, j).SmallPage?
    ensures var m' := ClearCell(c, m, root, i, j);
      OthersUntouched(m.tables, m'.tables, root) && m'.pool.live <= m.pool.live
  {
    CellWritten(m.tables, m.place, c.kernelRoot, root, i, j, Absent);
  }

  /** The first i slots hold no table. */
  ghost predicate SlotsClear(t: Tables, root: int, i: int) {
    forall n :: 0 <= n < i ==> !Slot(t, root, n).Coarse?
  }

  /** The outer loop of vm_free before slot i. */
  ghost predicate Dropping(c: Layout, m0: Machine, m: Machine, root: int, i: int) {
    && Balanced(c, m0, m, root) && SlotsClear(m.tables, root, i)
    && OthersUntouched(m0.tables, m.tables, root) && m.pool.live <= m0.pool.live
  }

  lemma DroppingBegins(c: Layout, m: Machine, root: int)
    requires Good(c, m) && Owned(c, m.tables, m.pool, root)
    ensures Dropping(c, m, m, root, 0)
  {
  }

  lemma SkipSlot(c: Layout, m0: Machine, m: Machine, root: int, i: int)
    requires Dropping(c, m0, m, root, i) && !Slot(m.tables, root, i).Coarse?
    ensures Dropping(c, m0, m, root, i + 1)
  {
  }

  lemma OneMoreSlotClear(t: Tables, t': Tables, root: int, i: int)
    requires SlotsClear(t, root, i) && t'.l1 == t.l1 && root in t.l1 && 0 <= i < |t.l1[root]|
    requires Slot(t', root, i).Coarse?
    ensures SlotsClear(RemoveTable(PutSlot(t', root, i, Empty), Slot(t', root, i).base), root, i + 1)
  {
    var t1, a := PutSlot(t', root, i, Empty), Slot(t', root, i).base;
    SlotsAfterPut(t', root, i, Empty);
    CellsAfterRemove(t1, a);
    forall n | 0 <= n < i + 1
      ensures !Slot(RemoveTable(t1, a), root, n).Coarse?
    {
      assert Slot(RemoveTable(t1, a), root, n) == Slot(t1, root, n) && Slot(t', root, n) == Slot(t, root, n);
    }
  }

  lemma DroppingStep(c: Layout, m0: Machine, m: Machine, m': Machine, root: int, i: int)
    requires Dropping(c, m0, m, root, i) && Clearing(c, m, m', root, i, LVL2_ENTRIES)
    requires root in m.tables.l1 && 0 <= i < KERNEL_SLOT && Slot(m'.tables, root, i).Coarse?
    ensures Dropping(c, m0, DropTable(c, m', root, i), root, i + 1)
  {
    NothingLeftInTable(m'.tables, root, i);
    DropTableBalances(c, m', root, i);
    BalancedTwice(c, m0, m, m', root);
    BalancedTwice(c, m0, m', DropTable(c, m', root, i), root);
    OneMoreSlotClear(m.tables, m'.tables, root, i);
    DropTableElsewhere(c, m0, m, m', root, i);
  }

  lemma NothingLeftInTable(t: Tables, root: int, i: int)
    requires CellsClear(t, root, i, LVL2_ENTRIES) && Slot(t, root, i).Coarse?
    ensures forall j :: 0 <= j < LVL2_ENTRIES ==> Cell(t, Slot(t, root, i).base, j).Absent?
  {
    forall j | 0 <= j < LVL2_ENTRIES
      ensures Cell(t, Slot(t, root, i).base, j).Absent?
    {
      assert UserCell(t, root, i, j).Absent?;
    }
  }

  lemma DropTableElsewhere(c: Layout, m0: Machine, m: Machine, m': Machine, root: int, i: int)
    requires OthersUntouched(m0.tables, m.tables, root) && m.pool.live <= m0.pool.live
    requires OthersUntouched(m.tables, m'.tables, root) && m'.pool.live <= m.pool.live
    requires Good(c, m') && root in m'.tables.l1 && 0 <= i < KERNEL_SLOT && Slot(m'.tables, root, i).Coarse?
    ensures var m'' := DropTable(c, m', root, i);
      OthersUntouched(m0.tables, m''.tables, root) && m''.pool.live <= m0.pool.live
  {
    UntouchedTwice(m0.tables, m.tables, m'.tables, root);
    TableTakenOut(m'.tables, m'.place, c.kernelRoot, root, i);
    UntouchedTwice(m0.tables, m'.tables, DropTable(c, m', root, i).tables, root);
  }

  /** What vm_free leaves behind. */
  ghost predicate Freed(c: Layout, m0: Machine, m: Machine, root: int) {
    && Good(c, m) && m.tables.l1.Keys == m0.tables.l1.Keys - {root}
    && m.pool.refs == m0.pool.refs - SpaceRefs(c, m0.tables, root)
    && OtherViewsKept(c, m0.tables, m.tables, root)
    && OthersUntouched(m0.tables, m.tables, root) && m.pool.live <= m0.pool.live
  }

  lemma DroppedAll(c: Layout, m0: Machine, m: Machine, root: int)
    requires Dropping(c, m0, m, root, KERNEL_SLOT) && root in m0.tables.l1 && root != c.kernelRoot
    ensures Freed(c, m0, DropRoot(c, m, root), root)
  {
    DropRootEnds(c, m, root);
    AllGivenBack(m0.pool.refs, m.pool.refs, SpaceRefs(c, m0.tables, root), SpaceRefs(c, m.tables, root));
    RootTakenOut(c, m, root);
    UntouchedTwice(m0.tables, m.tables, DropRoot(c, m, root).tables, root);
  }

  lemma RootTakenOut(c: Layout, m: Machine, root: int)
    ensures var m' := DropRoot(c, m, root);
      OthersUntouched(m.tables, m'.tables, root) && m'.pool.live <= m.pool.live
  {
    var t, t' := m.tables, DropRoot(c, m, root).tables;
    assert forall r, n :: r != root ==> Slot(t', r, n) == Slot(t, r, n);
    assert forall a, j :: Cell(t', a, j) == Cell(t, a, j);
  }

  lemma AllGivenBack(a: multiset<nat>, a': multiset<nat>, s: multiset<nat>, s': multiset<nat>)
    requires a' + s == a + s' && s' <= a'
    ensures a' - s' == a - s
  {
    forall p: nat
      ensures (a' - s')[p] == (a - s)[p]
    {
      assert (a' + s)[p] == (a + s')[p];
    }
  }
}
