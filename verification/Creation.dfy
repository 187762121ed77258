/** kernel/memory/vm.cpp: vm_create_address_space, and the life of an address space from its creation
    to vm_free. */
module Creation {
  import opened Basics
  import opened Descriptors
  import opened Translation
  import opened References
  import opened PhysicalAlloc
  import opened Lifetimes
  import opened Mapping

  // ----- Steps that take references for an address space -----

  lemma OwnedAfterHang(c: Layout, m: Machine, root: int, i: int)
    requires Good(c, m) && root in m.tables.l1 && 0 <= i < KERNEL_SLOT && Slot(m.tables, root, i).Empty?
    requires Take(m.pool.free, KB1).Took? && Owned(c, m.tables, m.pool, root)
    ensures Owned(c, Hung(c, m, root, i).tables, Hung(c, m, root, i).pool, root)
  {
    var p, m' := Take(m.pool.free, KB1).page, Hung(c, m, root, i);
    var a := c.AddrOf(p);
    AllocatedTableIsNew(c, m, KB1);
    AllocatedIsNew(m.pool, KB1, c.lo, c.hi);
    HangTableRefs(c, m.tables, m.place, root, i, a);
    HungCells(m.tables, c.kernelRoot, root, i, a);
    assert SpaceRefs(c, m'.tables, root) == SpaceRefs(c, m.tables, root) + multiset{p};
  }

  lemma HungCells(t: Tables, kernel: int, root: int, i: int, a: int)
    requires Shaped(t) && root in t.l1 && 0 <= i < KERNEL_SLOT && a !in t.l2
    ensures var t' := HangTable(t, kernel, root, i, a);
      && (forall n :: Slot(t', root, n) == if n == i then Coarse(a) else Slot(t, root, n))
      && (forall j :: UserCell(t', root, i, j).Absent?)
      && (forall n, j :: n != i ==> UserCell(t', root, n, j) == UserCell(t, root, n, j))
  {
    CellsAfterAdd(t, a);
    SlotsAfterPut(AddTable(t, a), root, i, Coarse(a));
    assert forall j :: Cell(AddTable(t, a), a, j) == Cell(t, a, j) == Absent;
  }

  /** Cells of other address spaces do not see a new table. */
  lemma HungElsewhere(c: Layout, m: Machine, child: int, i: int)
    requires Good(c, m) && child in m.tables.l1 && 0 <= i < KERNEL_SLOT && Slot(m.tables, child, i).Empty?
    requires Take(m.pool.free, KB1).Took?
    ensures var m' := Hung(c, m, child, i);
      && (forall r, n :: r != child ==> Slot(m'.tables, r, n) == Slot(m.tables, r, n))
      && (forall r, n, k :: r != child ==> UserCell(m'.tables, r, n, k) == UserCell(m.tables, r, n, k))
  {
    AllocatedTableIsNew(c, m, KB1);
    var a := c.AddrOf(Take(m.pool.free, KB1).page);
    CellsAfterAdd(m.tables, a);
    SlotsAfterPut(AddTable(m.tables, a), child, i, Coarse(a));
  }

  /** A new second-level table brings its address space the one reference that it costs. */
  lemma HungBalances(c: Layout, m: Machine, root: int, i: int)
    requires Good(c, m) && root in m.tables.l1 && 0 <= i < KERNEL_SLOT && Slot(m.tables, root, i).Empty?
    requires Take(m.pool.free, KB1).Took? && Owned(c, m.tables, m.pool, root)
    ensures Balanced(c, m, Hung(c, m, root, i), root)
  {
    HungIsGood(c, m, root, i);
    OwnedAfterHang(c, m, root, i);
    AllocatedTableIsNew(c, m, KB1);
    AllocatedIsNew(m.pool, KB1, c.lo, c.hi);
    HangTableRefs(c, m.tables, m.place, root, i, c.AddrOf(Take(m.pool.free, KB1).page));
    var p, m' := Take(m.pool.free, KB1).page, Hung(c, m, root, i);
    OneMoreBoth(m.pool.refs, SpaceRefs(c, m.tables, root), p);
  }

  /** A page mapped where the address space had no table yet, and unmapped again: its table, which was made
      for it, is freed, at an order at which it was not allocated. */
  lemma MapAndUnmapFreesTable(c: Layout, m: Machine, root: int, virt: Word, e: Entry2)
    requires Good(c, m) && root in m.tables.l1 && !KernelArea(virt) && virt != 0xffff_ffff && e.SmallPage?
    requires Slot(m.tables, root, Lvl1Index(virt)).Empty? && Take(m.pool.free, KB1).Took?
    ensures var (result, m') := MapStep(c, m, root, virt, e);
      && result.Mapped? && Good(c, m') && FreesTable(c, m', root, virt)
      && !Good(c, UnmapStep(c, m', root, virt).1)
  {
    var i, j := Lvl1Index(virt), Lvl2Index(virt);
    KernelAreaIsKernelSlots(virt);
    OnlyPageOfNewTable(c, m, root, i, j, e);
    MapAddsOneEntry(c, m, root, virt, e);
    var m' := MapStep(c, m, root, virt, e).1;
    assert m' == Filled(Hung(c, m, root, i), root, i, j, e);
    UnmapIsGood(c, m', root, virt);
  }

  lemma OnlyPageOfNewTable(c: Layout, m: Machine, root: int, i: int, j: int, e: Entry2)
    requires Good(c, m) && root in m.tables.l1 && 0 <= i < KERNEL_SLOT && 0 <= j < LVL2_ENTRIES && e.SmallPage?
    requires Slot(m.tables, root, i).Empty? && Take(m.pool.free, KB1).Took?
    ensures var m1 := Hung(c, m, root, i);
      var m' := Filled(m1, root, i, j, e);
      && Slot(m1.tables, root, i).Coarse? && UserCell(m1.tables, root, i, j).Absent?
      && (forall k :: 0 <= k < LVL2_ENTRIES ==> UserCell(m'.tables, root, i, k) == if k == j then e else Absent)
      && m'.pool.refs[c.PageOf(Slot(m'.tables, root, i).base)] <= 1
  {
    var page, m1 := Take(m.pool.free, KB1).page, Hung(c, m, root, i);
    AllocatedIsNew(m.pool, KB1, c.lo, c.hi);
    AllocatedTableIsNew(c, m, KB1);
    HungIsGood(c, m, root, i);
    HungCells(m.tables, c.kernelRoot, root, i, c.AddrOf(page));
    CellWritten(m1.tables, m1.place, c.kernelRoot, root, i, j, e);
  }

  lemma OneMoreBoth(a: multiset<nat>, s: multiset<nat>, p: nat)
    ensures (a + multiset{p}) + s == a + (s + multiset{p})
  {
  }

  /** There is a reference to the page that no entry of the address space accounts for. */
  ghost predicate Spare(c: Layout, m: Machine, root: int, page: nat) {
    SpaceRefs(c, m.tables, root) + multiset{page} <= m.pool.refs && Block(page, KB4) in m.pool.live
  }

  /** Mapping a page hands a spare reference over to the address space. */
  lemma HandOver(c: Layout, m: Machine, root: int, i: int, j: int, e: Entry2)
    requires Good(c, m) && root in m.tables.l1 && 0 <= i < KERNEL_SLOT && 0 <= j < LVL2_ENTRIES
    requires Slot(m.tables, root, i).Coarse? && UserCell(m.tables, root, i, j).Absent?
    requires e.SmallPage? && Owned(c, m.tables, m.pool, root) && Spare(c, m, root, c.PageOf(e.base))
    ensures var t' := Filled(m, root, i, j, e).tables;
      && Owned(c, t', m.pool, root)
      && SpaceRefs(c, t', root) == SpaceRefs(c, m.tables, root) + multiset{c.PageOf(e.base)}
  {
    var t' := Filled(m, root, i, j, e).tables;
    CellIsView(m.tables, m.place, c.kernelRoot, root, i, j);
    PutCellGains(c, m.tables, m.place, root, i, j, e);
    CellsAfterPut(m.tables, Slot(m.tables, root, i).base, j, e);
    assert forall n, k :: UserCell(t', root, n, k).SmallPage? ==>
        UserCell(t', root, n, k) == UserCell(m.tables, root, n, k) || UserCell(t', root, n, k) == e;
  }

  /** A page that comes with one reference. */
  ghost predicate Brought(c: Layout, pool: Pool, pool': Pool, page: nat) {
    && Sound(pool', c.lo, c.hi) && pool'.refs == pool.refs + multiset{page}
    && pool.live <= pool'.live && Block(page, KB4) in pool'.live
  }

  lemma BroughtIsSpare(c: Layout, m: Machine, pool': Pool, root: int, page: nat)
    requires Good(c, m) && Owned(c, m.tables, m.pool, root) && Brought(c, m.pool, pool', page)
    ensures Good(c, m.(pool := pool')) && Owned(c, m.tables, pool', root) && Spare(c, m.(pool := pool'), root, page)
  {
    assert AllBacked(c, m.(pool := pool'));
  }

  /** Mapping a page that comes with one reference. */
  lemma FilledBalances(c: Layout, m: Machine, pool': Pool, root: int, i: int, j: int, e: Entry2)
    requires Good(c, m) && root in m.tables.l1 && 0 <= i < KERNEL_SLOT && 0 <= j < LVL2_ENTRIES
    requires Slot(m.tables, root, i).Coarse? && UserCell(m.tables, root, i, j).Absent?
    requires e.SmallPage? && Brought(c, m.pool, pool', c.PageOf(e.base)) && Owned(c, m.tables, m.pool, root)
    ensures Balanced(c, m, Filled(m, root, i, j, e).(pool := pool'), root)
  {
    var m1 := m.(pool := pool');
    BroughtIsSpare(c, m, pool', root, c.PageOf(e.base));
    FilledIsGood(c, m1, root, i, j, e);
    HandOver(c, m1, root, i, j, e);
    OneMoreBoth(m.pool.refs, SpaceRefs(c, m.tables, root), c.PageOf(e.base));
    assert Filled(m, root, i, j, e).(pool := pool') == Filled(m1, root, i, j, e);
  }

  lemma AllocationBrings(c: Layout, pool: Pool)
    requires Sound(pool, c.lo, c.hi) && Take(pool.free, KB4).Took?
    ensures Brought(c, pool, Served(pool, Request.Alloc(KB4)), Take(pool.free, KB4).page)
  {
    AllocatedIsNew(pool, KB4, c.lo, c.hi);
    ServedIsSound(pool, Request.Alloc(KB4), c.lo, c.hi);
  }

  lemma SharingBrings(c: Layout, pool: Pool, page: nat)
    requires Sound(pool, c.lo, c.hi) && Block(page, KB4) in pool.live
    ensures Brought(c, pool, Served(pool, Request.AddRef(page)), page)
  {
    ServedIsSound(pool, Request.AddRef(page), c.lo, c.hi);
  }

  // ----- vm_create_address_space -----

  /** A first-level table without user entries and with all of the kernel's. */
  function NewRoot(c: Layout, t: Tables, root: int): Tables {
    t.(l1 := t.l1[root := seq(LVL1_ENTRIES, i => if i < KERNEL_SLOT then Empty else Slot(t, c.kernelRoot, i))])
  }

  lemma SlotsOfNewRoot(c: Layout, t: Tables, root: int)
    ensures var t' := NewRoot(c, t, root);
      && (forall r, n :: r != root ==> Slot(t', r, n) == Slot(t, r, n))
      && (forall n :: Slot(t', root, n) == if KERNEL_SLOT <= n < LVL1_ENTRIES then Slot(t, c.kernelRoot, n) else Empty)
      && (forall a, j :: Cell(t', a, j) == Cell(t, a, j))
  {
  }

  /** After the first-level table is made, before anything is mapped. */
  function Rooted(c: Layout, m: Machine): Machine {
    match Take(m.pool.free, KB16)
    case OutOfMemory => m
    case Took(page, _) => Machine(NewRoot(c, m.tables, c.AddrOf(page)), m.place, Served(m.pool, Request.Alloc(KB16)))
  }

  lemma RootedIsGood(c: Layout, m: Machine)
    requires Good(c, m) && Take(m.pool.free, KB16).Took?
    ensures var m', root := Rooted(c, m), c.AddrOf(Take(m.pool.free, KB16).page);
      && root !in m.tables.l1 && Good(c, m') && m'.tables.l1.Keys == m.tables.l1.Keys + {root}
      && SameViews(c, m.tables, m'.tables)
      && (forall n :: Slot(m'.tables, root, n)
            == if KERNEL_SLOT <= n < LVL1_ENTRIES then Slot(m.tables, c.kernelRoot, n) else Empty)
  {
    var root := c.AddrOf(Take(m.pool.free, KB16).page);
    AllocatedTableIsNew(c, m, KB16);
    SlotsOfNewRoot(c, m.tables, root);
    var t' := NewRoot(c, m.tables, root);
    assert Shaped(t') && Placed(t', m.place) && KernelShared(t', c.kernelRoot);
  }

  lemma RootedRefs(c: Layout, m: Machine)
    requires Good(c, m) && Take(m.pool.free, KB16).Took?
    ensures var m', root := Rooted(c, m), c.AddrOf(Take(m.pool.free, KB16).page);
      && Owned(c, m'.tables, m'.pool, root)
      && m'.pool.refs == m.pool.refs + SpaceRefs(c, m'.tables, root)
  {
    var p, m' := Take(m.pool.free, KB16).page, Rooted(c, m);
    var root := c.AddrOf(p);
    AllocatedTableIsNew(c, m, KB16);
    AllocatedIsNew(m.pool, KB16, c.lo, c.hi);
    SlotsOfNewRoot(c, m.tables, root);
    BareSpaceRefs(c, m'.tables, root);
  }

  /** The page of the vector table, which the kernel has mapped at address zero. */
  function VectorEntry(c: Layout, m: Machine): Entry2 {
    UserCell(m.tables, c.kernelRoot, 0, 0)
  }

  ghost predicate VectorReady(c: Layout, m: Machine) {
    var e := VectorEntry(c, m);
    e.SmallPage? && e.base == c.AddrOf(c.PageOf(e.base)) && Block(c.PageOf(e.base), KB4) in m.pool.live
  }

  /** Mapping the vector page once more, as the first page of the new address space. */
  function WithVector(c: Layout, m: Machine, root: int): Machine {
    var e := VectorEntry(c, m);
    if e.Absent? then m
    else
      var page := c.PageOf(e.base);
      Filled(m, root, 0, 0, SmallPage(c.AddrOf(page), PriviledgedOnly)).(pool := Served(m.pool, Request.AddRef(page)))
  }

  function CreateStep(c: Layout, m: Machine): (Option<int>, Machine) {
    match Take(m.pool.free, KB16)
    case OutOfMemory => (None, m)
    case Took(page, _) =>
      var m1 := Rooted(c, m);
      if Take(m1.pool.free, KB1).OutOfMemory? then (None, m.(pool := Served(m1.pool, Request.Free(page, KB16))))
      else (Some(c.AddrOf(page)), WithVector(c, Hung(c, m1, c.AddrOf(page), 0), c.AddrOf(page)))
  }

  /** The same page, for the kernel only. */
  function Shared(e: Entry2): Entry2 {
    if e.SmallPage? then e.(permissions := PriviledgedOnly) else e
  }

  /** What the new address space is: the vector page and the kernel's half, nothing of it shared with
      another address space but these, every reference counted. */
  ghost predicate Created(c: Layout, m: Machine, m': Machine, root: int) {
    && root !in m.tables.l1 && m'.tables.l1.Keys == m.tables.l1.Keys + {root}
    && Good(c, m') && Owned(c, m'.tables, m'.pool, root)
    && m'.pool.refs == m.pool.refs + SpaceRefs(c, m'.tables, root)
    && SameViews(c, m.tables, m'.tables)
    && OthersUntouched(m.tables, m'.tables, root) && m.pool.live <= m'.pool.live
    && (forall v :: 0 <= v < KERNEL_PAGE ==>
          View(m'.tables, c.kernelRoot, root, v) == if v == 0 then Shared(VectorEntry(c, m)) else Absent)
    && (forall n :: KERNEL_SLOT <= n < LVL1_ENTRIES ==> Slot(m'.tables, root, n) == Slot(m'.tables, c.kernelRoot, n))
  }

  lemma VectorStays(c: Layout, m: Machine)
    requires Good(c, m) && VectorReady(c, m)
    requires Take(m.pool.free, KB16).Took? && Take(Rooted(c, m).pool.free, KB1).Took?
    ensures var m1, root := Rooted(c, m), c.AddrOf(Take(m.pool.free, KB16).page);
      var m2 := Hung(c, m1, root, 0);
      && VectorEntry(c, m2) == VectorEntry(c, m) && VectorReady(c, m2) && root != c.kernelRoot
  {
    var m1, root := Rooted(c, m), c.AddrOf(Take(m.pool.free, KB16).page);
    RootedIsGood(c, m);
    AllocatedIsNew(m.pool, KB16, c.lo, c.hi);
    SlotsOfNewRoot(c, m.tables, root);
    AllocatedTableIsNew(c, m1, KB1);
    AllocatedIsNew(m1.pool, KB1, c.lo, c.hi);
    var a := c.AddrOf(Take(m1.pool.free, KB1).page);
    CellsAfterAdd(m1.tables, a);
    SlotsAfterPut(AddTable(m1.tables, a), root, 0, Coarse(a));
  }

  lemma KernelHalfKept(c: Layout, m: Machine, root: int, i: int, e: Entry2)
    requires Good(c, m) && root in m.tables.l1 && root != c.kernelRoot && Slot(m.tables, root, 0).Empty?
    requires Take(m.pool.free, KB1).Took?
    requires i == 0
    ensures var m' := Filled(Hung(c, m, root, i), root, i, 0, e);
      && (forall n :: KERNEL_SLOT <= n < LVL1_ENTRIES ==> Slot(m'.tables, root, n) == Slot(m.tables, root, n))
      && (forall n :: Slot(m'.tables, c.kernelRoot, n) == Slot(m.tables, c.kernelRoot, n))
  {
    AllocatedTableIsNew(c, m, KB1);
    var a := c.AddrOf(Take(m.pool.free, KB1).page);
    CellsAfterAdd(m.tables, a);
    SlotsAfterPut(AddTable(m.tables, a), root, i, Coarse(a));
    var t := Hung(c, m, root, i).tables;
    assert a in t.l2 && |t.l2[a]| == LVL2_ENTRIES;
    CellsAfterPut(t, a, 0, e);
  }

  lemma WithVectorBalances(c: Layout, m: Machine, root: int)
    requires Good(c, m) && VectorReady(c, m) && root in m.tables.l1 && Owned(c, m.tables, m.pool, root)
    requires Slot(m.tables, root, 0).Coarse? && UserCell(m.tables, root, 0, 0).Absent?
    ensures var m' := WithVector(c, m, root);
      Balanced(c, m, m', root) && OneViewChanged(c, m.tables, m'.tables, root, 0, 0, Shared(VectorEntry(c, m)))
  {
    var e := VectorEntry(c, m);
    SharingBrings(c, m.pool, c.PageOf(e.base));
    FilledBalances(c, m, Served(m.pool, Request.AddRef(c.PageOf(e.base))), root, 0, 0, Shared(e));
    FilledIsGood(c, m, root, 0, 0, Shared(e));
  }

  lemma BroughtUp(a: multiset<nat>, a1: multiset<nat>, a': multiset<nat>, s1: multiset<nat>, s': multiset<nat>)
    requires a1 == a + s1 && a' + s1 == a1 + s'
    ensures a' == a + s'
  {
    forall p: nat
      ensures a'[p] == (a + s')[p]
    {
      assert a1[p] == (a + s1)[p] && (a' + s1)[p] == (a1 + s')[p];
    }
  }

  /** Creating an address space yields one that maps the vector page and nothing else below the kernel,
      shares all of the kernel's slots and can be freed; if there is no memory it leaves no trace. */
  lemma CreateMakesSpace(c: Layout, m: Machine)
    requires Good(c, m) && VectorReady(c, m)
    ensures var (root, m') := CreateStep(c, m);
      && (root.Some? ==> Created(c, m, m', root.value))
      && (root.None? ==>
            Good(c, m') && m'.tables == m.tables && m'.pool.refs == m.pool.refs && m'.pool.live == m.pool.live)
  {
    if Take(m.pool.free, KB16).Took? {
      if Take(Rooted(c, m).pool.free, KB1).Took? {
        CreatedFromScratch(c, m);
      } else {
        NothingLeft(c, m);
      }
    }
  }

  lemma NothingLeft(c: Layout, m: Machine)
    requires Good(c, m) && Take(m.pool.free, KB16).Took?
    ensures var p, pool := Take(m.pool.free, KB16).page, Served(m.pool, Request.Alloc(KB16));
      var pool' := Served(pool, Request.Free(p, KB16));
      Good(c, m.(pool := pool')) && pool'.refs == m.pool.refs && pool'.live == m.pool.live
  {
    var p, pool := Take(m.pool.free, KB16).page, Served(m.pool, Request.Alloc(KB16));
    AllocatedIsNew(m.pool, KB16, c.lo, c.hi);
    ServedIsSound(m.pool, Request.Alloc(KB16), c.lo, c.hi);
    ServedIsSound(pool, Request.Free(p, KB16), c.lo, c.hi);
    var m' := m.(pool := Served(pool, Request.Free(p, KB16)));
    OneLiveOrder(pool, Block(p, KB16), c.lo, c.hi);
    assert m'.pool.live == m.pool.live;
  }

  /** The references of a new address space. */
  lemma CreatedAccounts(c: Layout, m: Machine)
    requires Good(c, m) && VectorReady(c, m)
    requires Take(m.pool.free, KB16).Took? && Take(Rooted(c, m).pool.free, KB1).Took?
    ensures var root := c.AddrOf(Take(m.pool.free, KB16).page);
      var m2 := Hung(c, Rooted(c, m), root, 0);
      var m3 := WithVector(c, m2, root);
      && Good(c, m3) && Owned(c, m3.tables, m3.pool, root) && m3.tables.l1.Keys == m.tables.l1.Keys + {root}
      && m3.pool.refs == m.pool.refs + SpaceRefs(c, m3.tables, root)
      && OneViewChanged(c, m2.tables, m3.tables, root, 0, 0, Shared(VectorEntry(c, m)))
  {
    var m1, root := Rooted(c, m), c.AddrOf(Take(m.pool.free, KB16).page);
    RootedIsGood(c, m);
    RootedRefs(c, m);
    var m2 := Hung(c, m1, root, 0);
    HungIsGood(c, m1, root, 0);
    HungBalances(c, m1, root, 0);
    VectorStays(c, m);
    AllocatedTableIsNew(c, m1, KB1);
    HungCells(m1.tables, c.kernelRoot, root, 0, c.AddrOf(Take(m1.pool.free, KB1).page));
    WithVectorBalances(c, m2, root);
    var m3 := WithVector(c, m2, root);
    BalancedTwice(c, m1, m2, m3, root);
    BroughtUp(m.pool.refs, m1.pool.refs, m3.pool.refs, SpaceRefs(c, m1.tables, root), SpaceRefs(c, m3.tables, root));
  }

  lemma CreatedFromScratch(c: Layout, m: Machine)
    requires Good(c, m) && VectorReady(c, m)
    requires Take(m.pool.free, KB16).Took? && Take(Rooted(c, m).pool.free, KB1).Took?
    ensures var (root, m') := CreateStep(c, m);
      root.Some? && Created(c, m, m', root.value)
  {
    var m1, root := Rooted(c, m), c.AddrOf(Take(m.pool.free, KB16).page);
    CreatedAccounts(c, m);
    RootedIsGood(c, m);
    HungIsGood(c, m1, root, 0);
    VectorStays(c, m);
    KernelHalfKept(c, m1, root, 0, Shared(VectorEntry(c, m)));
    var m2 := Hung(c, m1, root, 0);
    CreatedViews(c, m, m1, m2, WithVector(c, m2, root), root);
    CreatedElsewhere(c, m);
  }

  /** Creating an address space does not touch another one, and frees nothing. */
  lemma CreatedElsewhere(c: Layout, m: Machine)
    requires Good(c, m) && VectorReady(c, m)
    requires Take(m.pool.free, KB16).Took? && Take(Rooted(c, m).pool.free, KB1).Took?
    ensures var root := c.AddrOf(Take(m.pool.free, KB16).page);
      var m' := WithVector(c, Hung(c, Rooted(c, m), root, 0), root);
      OthersUntouched(m.tables, m'.tables, root) && m.pool.live <= m'.pool.live
  {
    var m1, root := Rooted(c, m), c.AddrOf(Take(m.pool.free, KB16).page);
    var m2 := Hung(c, m1, root, 0);
    RootedIsGood(c, m);
    SlotsOfNewRoot(c, m.tables, root);
    HungIsGood(c, m1, root, 0);
    HungElsewhere(c, m1, root, 0);
    UntouchedTwice(m.tables, m1.tables, m2.tables, root);
    WrittenElsewhere(c, m2, root);
    UntouchedTwice(m.tables, m2.tables, WithVector(c, m2, root).tables, root);
  }

  lemma WrittenElsewhere(c: Layout, m: Machine, root: int)
    requires Good(c, m) && root in m.tables.l1 && Slot(m.tables, root, 0).Coarse?
    ensures OthersUntouched(m.tables, WithVector(c, m, root).tables, root)
    ensures m.pool.live <= WithVector(c, m, root).pool.live
  {
    var e := VectorEntry(c, m);
    if e.SmallPage? {
      CellWritten(m.tables, m.place, c.kernelRoot, root, 0, 0, SmallPage(c.AddrOf(c.PageOf(e.base)), PriviledgedOnly));
    }
  }

  lemma CreatedViews(c: Layout, m: Machine, m1: Machine, m2: Machine, m3: Machine, root: int)
    requires root !in m.tables.l1 && m1.tables.l1.Keys == m2.tables.l1.Keys == m.tables.l1.Keys + {root}
    requires forall n :: n < KERNEL_SLOT ==> Slot(m1.tables, root, n).Empty?
    requires SameViews(c, m.tables, m1.tables) && SameViews(c, m1.tables, m2.tables)
    requires OneViewChanged(c, m2.tables, m3.tables, root, 0, 0, Shared(VectorEntry(c, m)))
    ensures SameViews(c, m.tables, m3.tables)
    ensures forall v :: 0 <= v < KERNEL_PAGE ==>
      View(m3.tables, c.kernelRoot, root, v) == if v == 0 then Shared(VectorEntry(c, m)) else Absent
  {
    forall v | 0 <= v < KERNEL_PAGE
      ensures View(m2.tables, c.kernelRoot, root, v).Absent?
    {
      assert View(m2.tables, c.kernelRoot, root, v) == View(m1.tables, c.kernelRoot, root, v);
      assert Slot(m1.tables, root, v / 256).Empty?;
    }
  }

  // ----- From creation to vm_free -----

  /** Freeing an address space after any steps that account for their references restores the reference
      count of every page: of its own tables and pages, of the shared vector page, of the kernel's tables. */
  lemma LifeLeavesNoTrace(c: Layout, before: Machine, created: Machine, used: Machine, freed: Machine, root: int)
    requires Created(c, before, created, root) && Balanced(c, created, used, root) && Freed(c, used, freed, root)
    ensures Good(c, freed) && freed.pool.refs == before.pool.refs
    ensures freed.tables.l1.Keys == before.tables.l1.Keys && SameViews(c, before.tables, freed.tables)
  {
    ReferencesRestored(before.pool.refs, created.pool.refs, used.pool.refs, SpaceRefs(c, created.tables, root),
        SpaceRefs(c, used.tables, root));
    ViewsRestored(c, before.tables, created.tables, used.tables, freed.tables, root);
  }

  lemma ReferencesRestored(a: multiset<nat>, a1: multiset<nat>, a2: multiset<nat>, s1: multiset<nat>, s2: multiset<nat>)
    requires a1 == a + s1 && a2 + s1 == a1 + s2
    ensures a2 - s2 == a
  {
    BroughtUp(a, a1, a2, s1, s2);
    NothingRemains(a, s2);
  }

  lemma ViewsRestored(c: Layout, t: Tables, t1: Tables, t2: Tables, t3: Tables, root: int)
    requires root !in t.l1 && t1.l1.Keys == t2.l1.Keys == t.l1.Keys + {root} && t3.l1.Keys == t2.l1.Keys - {root}
    requires SameViews(c, t, t1) && OtherViewsKept(c, t1, t2, root) && OtherViewsKept(c, t2, t3, root)
    ensures t3.l1.Keys == t.l1.Keys && SameViews(c, t, t3)
  {
  }

  lemma NothingRemains(a: multiset<nat>, s: multiset<nat>)
    ensures (a + s) - s == a
  {
  }

  /** A page allocated and mapped, as the program loader and the user stack do it. */
  function MapNewStep(c: Layout, m: Machine, root: int, virt: Word, permissions: Permissions): (MapResult, Machine) {
    match Take(m.pool.free, KB4)
    case OutOfMemory => (PanicOutOfMemory, m)
    case Took(page, _) =>
      MapStep(c, m.(pool := Served(m.pool, Request.Alloc(KB4))), root, virt, SmallPage(c.AddrOf(page), permissions))
  }

  lemma EnsuredBalances(c: Layout, m: Machine, root: int, virt: Word)
    requires Good(c, m) && root in m.tables.l1 && Lvl1Index(virt) < KERNEL_SLOT && Owned(c, m.tables, m.pool, root)
    requires !Slot(m.tables, root, Lvl1Index(virt)).Section?
    ensures Balanced(c, m, Ensured(c, m, root, virt), root)
    ensures forall page :: Spare(c, m, root, page) ==> Spare(c, Ensured(c, m, root, virt), root, page)
  {
    KernelAreaIsKernelSlots(virt);
    var i, m' := Lvl1Index(virt), Ensured(c, m, root, virt);
    if Slot(m.tables, root, i).Empty? && Take(m.pool.free, KB1).Took? {
      HungBalances(c, m, root, i);
      AllocatedIsNew(m.pool, KB1, c.lo, c.hi);
      forall page | Spare(c, m, root, page)
        ensures Spare(c, m', root, page)
      {
        StillSpare(m.pool.refs, m'.pool.refs, SpaceRefs(c, m.tables, root), SpaceRefs(c, m'.tables, root), page);
      }
    } else {
      BalancedNothing(c, m, root);
    }
  }

  lemma StillSpare(a: multiset<nat>, a': multiset<nat>, s: multiset<nat>, s': multiset<nat>, p: nat)
    requires a' + s == a + s' && s + multiset{p} <= a
    ensures s' + multiset{p} <= a'
  {
    forall q: nat
      ensures (s' + multiset{p})[q] <= a'[q]
    {
      assert (a' + s)[q] == (a + s')[q] && (s + multiset{p})[q] <= a[q];
    }
  }

  lemma NewPageBalance(a: multiset<nat>, a1: multiset<nat>, a': multiset<nat>, s: multiset<nat>, s1: multiset<nat>,
          p: nat)
    requires a1 == a + multiset{p} && a' + s == a1 + s1
    ensures a' + s == a + (s1 + multiset{p})
  {
  }

  /** A page is allocated, a table is found for it, and it is mapped. */
  lemma ThreeStepsBalance(c: Layout, m: Machine, m1: Machine, m2: Machine, root: int, i: int, j: int, e: Entry2)
    requires m1.tables == m.tables && e.SmallPage? && m1.pool.refs == m.pool.refs + multiset{c.PageOf(e.base)}
    requires root in m.tables.l1 && Balanced(c, m1, m2, root) && Spare(c, m2, root, c.PageOf(e.base))
    requires 0 <= i < KERNEL_SLOT && 0 <= j < LVL2_ENTRIES
    requires Slot(m2.tables, root, i).Coarse? && UserCell(m2.tables, root, i, j).Absent?
    ensures Balanced(c, m, Filled(m2, root, i, j, e), root)
  {
    FilledIsGood(c, m2, root, i, j, e);
    HandOver(c, m2, root, i, j, e);
    NewPageBalance(m.pool.refs, m1.pool.refs, m2.pool.refs, SpaceRefs(c, m.tables, root), SpaceRefs(c, m2.tables, root),
        c.PageOf(e.base));
    assert OtherViewsKept(c, m2.tables, Filled(m2, root, i, j, e).tables, root);
  }

  /** After the page is allocated, and after a table is found for it. */
  function PageTaken(m: Machine): Machine {
    m.(pool := Served(m.pool, Request.Alloc(KB4)))
  }

  lemma MapNewStages(c: Layout, m: Machine, root: int, virt: Word, permissions: Permissions)
    requires Good(c, PageTaken(m)) && root in m.tables.l1 && virt != 0xffff_ffff
    requires MapNewStep(c, m, root, virt, permissions).0.Mapped?
    ensures Take(m.pool.free, KB4).Took? && !Slot(m.tables, root, Lvl1Index(virt)).Section?
    ensures var m2, i, j := Ensured(c, PageTaken(m), root, virt), Lvl1Index(virt), Lvl2Index(virt);
      && Slot(m2.tables, root, i).Coarse? && UserCell(m2.tables, root, i, j).Absent?
      && MapNewStep(c, m, root, virt, permissions).1 ==
           Filled(m2, root, i, j, SmallPage(c.AddrOf(Take(m.pool.free, KB4).page), permissions))
  {
    EnsuredIsGood(c, PageTaken(m), root, virt);
  }

  lemma PageAtItsAddress(c: Layout, page: nat)
    ensures c.PageOf(c.AddrOf(page)) == page
  {
  }

  /** Allocating a page and mapping it into the user area accounts for every reference it takes. */
  lemma MapNewBalances(c: Layout, m: Machine, root: int, virt: Word, permissions: Permissions)
    requires Good(c, m) && root in m.tables.l1 && Lvl1Index(virt) < KERNEL_SLOT && Owned(c, m.tables, m.pool, root)
    requires MapNewStep(c, m, root, virt, permissions).0.Mapped?
    ensures Balanced(c, m, MapNewStep(c, m, root, virt, permissions).1, root)
  {
    var page, i, j := Take(m.pool.free, KB4).page, Lvl1Index(virt), Lvl2Index(virt);
    var m1 := PageTaken(m);
    AllocationBrings(c, m.pool);
    BroughtIsSpare(c, m, m1.pool, root, page);
    MapNewStages(c, m, root, virt, permissions);
    EnsuredBalances(c, m1, root, virt);
    PageAtItsAddress(c, page);
    ThreeStepsBalance(c, m, m1, Ensured(c, m1, root, virt), root, i, j, SmallPage(c.AddrOf(page), permissions));
  }

  /** A program: pages to be mapped, in order. */
  datatype UserPage = UserPage(virt: Word, permissions: Permissions)

  function MapAll(c: Layout, m: Machine, root: int, pages: seq<UserPage>): Machine {
    if pages == [] then m
    else MapNewStep(c, MapAll(c, m, root, pages[..|pages| - 1]), root, pages[|pages| - 1].virt,
        pages[|pages| - 1].permissions).1
  }

  /** Every one of the pages can be mapped: it is a user page, not mapped before, and there is memory. */
  ghost predicate AllMapped(c: Layout, m: Machine, root: int, pages: seq<UserPage>) {
    pages == [] || (
      var before, last := pages[..|pages| - 1], pages[|pages| - 1];
      && AllMapped(c, m, root, before)
      && Lvl1Index(last.virt) < KERNEL_SLOT
      && MapNewStep(c, MapAll(c, m, root, before), root, last.virt, last.permissions).0.Mapped?)
  }

  lemma {:induction false} MapAllBalances(c: Layout, m: Machine, root: int, pages: seq<UserPage>)
    requires Good(c, m) && root in m.tables.l1 && Owned(c, m.tables, m.pool, root) && AllMapped(c, m, root, pages)
    ensures Balanced(c, m, MapAll(c, m, root, pages), root)
  {
    if pages == [] {
      BalancedNothing(c, m, root);
    } else {
      var before, last := pages[..|pages| - 1], pages[|pages| - 1];
      MapAllBalances(c, m, root, before);
      var m1 := MapAll(c, m, root, before);
      MapNewBalances(c, m1, root, last.virt, last.permissions);
      BalancedTwice(c, m, m1, MapAll(c, m, root, pages), root);
    }
  }

  /** Creating an address space, mapping any pages into it and freeing it leaves every page with the
      reference count it had, and every other address space with the map it had. */
  lemma ProcessLeavesNoTrace(c: Layout, m: Machine, pages: seq<UserPage>, freed: Machine)
    requires Good(c, m) && VectorReady(c, m) && CreateStep(c, m).0.Some?
    requires var (root, created) := CreateStep(c, m);
      AllMapped(c, created, root.value, pages) && Freed(c, MapAll(c, created, root.value, pages), freed, root.value)
    ensures freed.pool.refs == m.pool.refs && freed.tables.l1.Keys == m.tables.l1.Keys
    ensures SameViews(c, m.tables, freed.tables)
  {
    var (root, created) := CreateStep(c, m);
    CreateMakesSpace(c, m);
    MapAllBalances(c, created, root.value, pages);
    LifeLeavesNoTrace(c, m, created, MapAll(c, created, root.value, pages), freed, root.value);
  }

  // ----- Where it all starts -----

  /** The kernel's table as the boot loader and vm_init leave it, in reserved memory: sections, or nothing. */
  ghost predicate OnlySections(entries: seq<Entry1>) {
    |entries| == LVL1_ENTRIES && forall i :: 0 <= i < |entries| ==> !entries[i].Coarse?
  }

  /** That table, and the allocator as initialised. */
  ghost function AtBoot(c: Layout, entries: seq<Entry1>): Machine
    requires c.lo % 16 == 0 && c.hi % 16 == 0
  {
    Machine(Tables(map[c.kernelRoot := entries], map[]), map[], Initial(c.lo, c.hi))
  }

  lemma BootIsGood(c: Layout, entries: seq<Entry1>)
    requires c.Proper() && c.lo % 16 == 0 && c.hi % 16 == 0 && OnlySections(entries)
    requires c.PageOf(c.kernelRoot) < c.lo && c.kernelRoot == c.AddrOf(c.PageOf(c.kernelRoot))
    ensures Good(c, AtBoot(c, entries))
  {
    InitialIsSound(c.lo, c.hi);
    var t := AtBoot(c, entries).tables;
    assert forall r, i :: !Slot(t, r, i).Coarse?;
  }

  lemma StillLiveAfterEnsured(c: Layout, m: Machine, root: int, virt: Word, b: Block)
    requires b in m.pool.live
    ensures b in Ensured(c, m, root, virt).pool.live
  {
  }

  /** Once the kernel has mapped a page of its own at address zero for the vector table, address spaces
      can be created. */
  lemma VectorMapped(c: Layout, m: Machine)
    requires Good(c, m) && MapNewStep(c, m, c.kernelRoot, 0, PriviledgedOnly).0.Mapped?
    ensures VectorReady(c, MapNewStep(c, m, c.kernelRoot, 0, PriviledgedOnly).1)
  {
    PageTakenIsGood(c, m);
    VectorPageMapped(c, PageTaken(m), Take(m.pool.free, KB4).page);
  }

  lemma VectorPageMapped(c: Layout, m: Machine, page: nat)
    requires Good(c, m) && Block(page, KB4) in m.pool.live
    requires MapStep(c, m, c.kernelRoot, 0, SmallPage(c.AddrOf(page), PriviledgedOnly)).0.Mapped?
    ensures VectorReady(c, MapStep(c, m, c.kernelRoot, 0, SmallPage(c.AddrOf(page), PriviledgedOnly)).1)
  {
    var e, m1 := SmallPage(c.AddrOf(page), PriviledgedOnly), Ensured(c, m, c.kernelRoot, 0);
    MapStages(c, m, c.kernelRoot, 0, e);
    TableForVector(c, m, m1, page);
    VectorFilled(c, m1, MapStep(c, m, c.kernelRoot, 0, e).1, page);
  }

  lemma PageTakenIsGood(c: Layout, m: Machine)
    requires Good(c, m) && Take(m.pool.free, KB4).Took?
    ensures Good(c, PageTaken(m)) && Block(Take(m.pool.free, KB4).page, KB4) in PageTaken(m).pool.live
  {
    AllocationBrings(c, m.pool);
    assert AllBacked(c, PageTaken(m));
  }

  lemma TableForVector(c: Layout, m: Machine, m': Machine, page: nat)
    requires Good(c, m) && Block(page, KB4) in m.pool.live && !Slot(m.tables, c.kernelRoot, 0).Section?
    requires m' == Ensured(c, m, c.kernelRoot, 0)
    ensures Good(c, m') && Block(page, KB4) in m'.pool.live
  {
    EnsuredIsGood(c, m, c.kernelRoot, 0);
    StillLiveAfterEnsured(c, m, c.kernelRoot, 0, Block(page, KB4));
  }

  lemma VectorFilled(c: Layout, m: Machine, m': Machine, page: nat)
    requires Good(c, m) && Slot(m.tables, c.kernelRoot, 0).Coarse? && Block(page, KB4) in m.pool.live
    requires m' == Filled(m, c.kernelRoot, 0, 0, SmallPage(c.AddrOf(page), PriviledgedOnly))
    ensures VectorReady(c, m')
  {
    CellIsView(m.tables, m.place, c.kernelRoot, c.kernelRoot, 0, 0);
    CellsAfterPut(m.tables, Slot(m.tables, c.kernelRoot, 0).base, 0, SmallPage(c.AddrOf(page), PriviledgedOnly));
    PageAtItsAddress(c, page);
  }
}
