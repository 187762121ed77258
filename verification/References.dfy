/** kernel/memory/vm.cpp: the references to physical pages that an address space holds. */
module References {
  import opened Descriptors
  import opened Translation
  import opened PhysicalAlloc

  function CellRefs(c: Layout, e: Entry2): multiset<nat> {
    if e.SmallPage? then multiset{c.PageOf(e.base)} else multiset{}
  }

  /** The pages mapped by the cells of a table. */
  function CellsRefs(c: Layout, cells: seq<Entry2>): multiset<nat> {
    if cells == [] then multiset{} else CellsRefs(c, cells[..|cells| - 1]) + CellRefs(c, cells[|cells| - 1])
  }

  function CellsOf(t: Tables, table: int): seq<Entry2> {
    if table in t.l2 then t.l2[table] else []
  }

  /** A slot holds its table and every page that the table maps. */
  function SlotRefs(c: Layout, t: Tables, e: Entry1): multiset<nat> {
    if e.Coarse? then multiset{c.PageOf(e.base)} + CellsRefs(c, CellsOf(t, e.base)) else multiset{}
  }

  function SlotsRefs(c: Layout, t: Tables, slots: seq<Entry1>): multiset<nat> {
    if slots == [] then multiset{} else SlotsRefs(c, t, slots[..|slots| - 1]) + SlotRefs(c, t, slots[|slots| - 1])
  }

  function UserSlots(t: Tables, root: int): seq<Entry1> {
    if root in t.l1 && |t.l1[root]| >= KERNEL_SLOT then t.l1[root][..KERNEL_SLOT] else []
  }

  /** Every page that an address space holds a reference to: its first-level table, its second-level
      tables and the pages they map, each as often as it occurs. */
  function SpaceRefs(c: Layout, t: Tables, root: int): multiset<nat> {
    multiset{c.PageOf(root)} + SlotsRefs(c, t, UserSlots(t, root))
  }

  lemma {:induction false} SlotsAgree(c: Layout, t: Tables, t': Tables, slots: seq<Entry1>)
    requires forall e :: e in slots && e.Coarse? ==> CellsOf(t', e.base) == CellsOf(t, e.base)
    ensures SlotsRefs(c, t', slots) == SlotsRefs(c, t, slots)
  {
    if slots != [] {
      SlotsAgree(c, t, t', slots[..|slots| - 1]);
    }
  }

  lemma AddBoth(a: multiset<nat>, a': multiset<nat>, x: multiset<nat>, y: multiset<nat>, z: multiset<nat>)
    requires a' + x == a + y
    ensures a' + z + x == a + z + y
  {
    forall p: nat
      ensures (a' + z + x)[p] == (a + z + y)[p]
    {
      assert (a' + x)[p] == (a + y)[p];
    }
  }

  lemma AddFront(a: multiset<nat>, a': multiset<nat>, x: multiset<nat>, y: multiset<nat>, r: multiset<nat>)
    requires a' + x == a + y
    ensures r + a' + x == r + a + y
  {
    assert r + a' + x == r + (a' + x);
    assert r + a + y == r + (a + y);
  }

  lemma Swap(a: multiset<nat>, x: multiset<nat>, y: multiset<nat>)
    ensures a + y + x == a + x + y
  {
  }

  lemma {:induction false} OneCellDiffers(c: Layout, cells: seq<Entry2>, j: nat, e: Entry2)
    requires j < |cells|
    ensures CellsRefs(c, cells[j := e]) + CellRefs(c, cells[j]) == CellsRefs(c, cells) + CellRefs(c, e)
  {
    var n, cells' := |cells| - 1, cells[j := e];
    var a := CellsRefs(c, cells[..n]);
    if j == n {
      assert cells'[..n] == cells[..n];
      Swap(a, CellRefs(c, cells[j]), CellRefs(c, e));
    } else {
      assert cells'[..n] == cells[..n][j := e];
      OneCellDiffers(c, cells[..n], j, e);
      var a', z := CellsRefs(c, cells'[..n]), CellRefs(c, cells[n]);
      AddBoth(a, a', CellRefs(c, cells[j]), CellRefs(c, e), z);
      assert CellsRefs(c, cells') == a' + z && CellsRefs(c, cells) == a + z;
    }
  }

  lemma {:induction false} OneSlotDiffers(c: Layout, t: Tables, slots: seq<Entry1>, i: nat, e: Entry1)
    requires i < |slots|
    ensures SlotsRefs(c, t, slots[i := e]) + SlotRefs(c, t, slots[i]) == SlotsRefs(c, t, slots) + SlotRefs(c, t, e)
  {
    var n, slots' := |slots| - 1, slots[i := e];
    var a := SlotsRefs(c, t, slots[..n]);
    if i == n {
      assert slots'[..n] == slots[..n];
      Swap(a, SlotRefs(c, t, slots[i]), SlotRefs(c, t, e));
    } else {
      assert slots'[..n] == slots[..n][i := e];
      OneSlotDiffers(c, t, slots[..n], i, e);
      var a', z := SlotsRefs(c, t, slots'[..n]), SlotRefs(c, t, slots[n]);
      AddBoth(a, a', SlotRefs(c, t, slots[i]), SlotRefs(c, t, e), z);
      assert SlotsRefs(c, t, slots') == a' + z && SlotsRefs(c, t, slots) == a + z;
    }
  }

  /** Writing a cell of the table in slot i exchanges the reference that the cell holds. */
  lemma {:induction false} CellOfSlotDiffers(c: Layout, t: Tables, t': Tables, slots: seq<Entry1>, i: nat,
          x: multiset<nat>, y: multiset<nat>)
    requires i < |slots| && slots[i].Coarse?
    requires forall k :: 0 <= k < |slots| && slots[k].Coarse? && k != i ==>
        CellsOf(t', slots[k].base) == CellsOf(t, slots[k].base)
    requires CellsRefs(c, CellsOf(t', slots[i].base)) + x == CellsRefs(c, CellsOf(t, slots[i].base)) + y
    ensures SlotsRefs(c, t', slots) + x == SlotsRefs(c, t, slots) + y
  {
    var rest, last := slots[..|slots| - 1], slots[|slots| - 1];
    if i == |rest| {
      SlotsAgree(c, t, t', rest);
      CellOfTableDiffers(c, t, t', last, x, y);
      LastSlotDiffers(c, t, t', slots, x, y);
    } else {
      assert rest[i] == slots[i];
      CellOfSlotDiffers(c, t, t', rest, i, x, y);
      assert SlotRefs(c, t', last) == SlotRefs(c, t, last);
      EarlierSlotDiffers(c, t, t', slots, x, y);
    }
  }

  lemma LastSlotDiffers(c: Layout, t: Tables, t': Tables, slots: seq<Entry1>, x: multiset<nat>, y: multiset<nat>)
    requires slots != []
    requires var rest, last := slots[..|slots| - 1], slots[|slots| - 1];
      SlotsRefs(c, t', rest) == SlotsRefs(c, t, rest) && SlotRefs(c, t', last) + x == SlotRefs(c, t, last) + y
    ensures SlotsRefs(c, t', slots) + x == SlotsRefs(c, t, slots) + y
  {
    var rest, last := slots[..|slots| - 1], slots[|slots| - 1];
    AddFront(SlotRefs(c, t, last), SlotRefs(c, t', last), x, y, SlotsRefs(c, t, rest));
  }

  lemma EarlierSlotDiffers(c: Layout, t: Tables, t': Tables, slots: seq<Entry1>, x: multiset<nat>, y: multiset<nat>)
    requires slots != []
    requires var rest, last := slots[..|slots| - 1], slots[|slots| - 1];
      SlotsRefs(c, t', rest) + x == SlotsRefs(c, t, rest) + y && SlotRefs(c, t', last) == SlotRefs(c, t, last)
    ensures SlotsRefs(c, t', slots) + x == SlotsRefs(c, t, slots) + y
  {
    var rest, last := slots[..|slots| - 1], slots[|slots| - 1];
    AddBoth(SlotsRefs(c, t, rest), SlotsRefs(c, t', rest), x, y, SlotRefs(c, t, last));
  }

  lemma CellOfTableDiffers(c: Layout, t: Tables, t': Tables, e: Entry1, x: multiset<nat>, y: multiset<nat>)
    requires e.Coarse? && CellsRefs(c, CellsOf(t', e.base)) + x == CellsRefs(c, CellsOf(t, e.base)) + y
    ensures SlotRefs(c, t', e) + x == SlotRefs(c, t, e) + y
  {
    AddFront(CellsRefs(c, CellsOf(t, e.base)), CellsRefs(c, CellsOf(t', e.base)), x, y, multiset{c.PageOf(e.base)});
  }

  /** Writing a cell exchanges the reference it holds, in the one address space that owns the table;
      kernel tables are owned by none. */
  lemma PutCellRefs(c: Layout, t: Tables, place: map<int, Place>, root: int, i: int, j: int, e: Entry2, r: int)
    requires Consistent(t, place, c.kernelRoot) && root in t.l1 && 0 <= i < LVL1_ENTRIES && 0 <= j < LVL2_ENTRIES
    requires Slot(t, root, i).Coarse? && Slot(t, root, i).base in t.l2
    ensures var a := Slot(t, root, i).base;
      var t' := PutCell(t, a, j, e);
      if r == root && i < KERNEL_SLOT
      then SpaceRefs(c, t', r) + CellRefs(c, Cell(t, a, j)) == SpaceRefs(c, t, r) + CellRefs(c, e)
      else SpaceRefs(c, t', r) == SpaceRefs(c, t, r)
  {
    var a, slots := Slot(t, root, i).base, UserSlots(t, r);
    var t' := PutCell(t, a, j, e);
    OtherTablesKept(t, place, c.kernelRoot, root, i, j, e, r);
    if r == root && i < KERNEL_SLOT {
      OneCellDiffers(c, t.l2[a], j, e);
      CellOfSlotDiffers(c, t, t', slots, i, CellRefs(c, t.l2[a][j]), CellRefs(c, e));
      AddFront(SlotsRefs(c, t, slots), SlotsRefs(c, t', slots), CellRefs(c, t.l2[a][j]), CellRefs(c, e),
          multiset{c.PageOf(r)});
    } else {
      SlotsAgree(c, t, t', slots);
    }
  }

  lemma OtherTablesKept(t: Tables, place: map<int, Place>, kernel: int, root: int, i: int, j: int, e: Entry2, r: int)
    requires Consistent(t, place, kernel) && root in t.l1 && 0 <= i < LVL1_ENTRIES && Slot(t, root, i).Coarse?
    ensures var t', slots := PutCell(t, Slot(t, root, i).base, j, e), UserSlots(t, r);
      && UserSlots(t', r) == slots
      && forall k :: 0 <= k < |slots| && slots[k].Coarse? && !(r == root && k == i) ==>
           CellsOf(t', slots[k].base) == CellsOf(t, slots[k].base)
  {
    var t', slots := PutCell(t, Slot(t, root, i).base, j, e), UserSlots(t, r);
    forall k | 0 <= k < |slots| && slots[k].Coarse? && !(r == root && k == i)
      ensures CellsOf(t', slots[k].base) == CellsOf(t, slots[k].base)
    {
      assert slots[k] == Slot(t, r, k);
      OnlyPlace(t, place, kernel, root, i, r, k);
    }
  }

  lemma UserSlotsAfterPut(t: Tables, root: int, i: int, e: Entry1, r: int)
    requires root in t.l1 && 0 <= i < |t.l1[root]| == LVL1_ENTRIES
    ensures UserSlots(PutSlot(t, root, i, e), r) == if r == root && i < KERNEL_SLOT then UserSlots(t, r)[i := e]
        else UserSlots(t, r)
    ensures PutSlot(t, root, i, e).l2 == t.l2
  {
  }

  /** Writing a slot exchanges the references that hang from it. */
  lemma PutSlotRefs(c: Layout, t: Tables, root: int, i: int, e: Entry1, r: int)
    requires root in t.l1 && 0 <= i < |t.l1[root]| == LVL1_ENTRIES
    ensures var t' := PutSlot(t, root, i, e);
      if r == root && i < KERNEL_SLOT
      then SpaceRefs(c, t', r) + SlotRefs(c, t, Slot(t, root, i)) == SpaceRefs(c, t, r) + SlotRefs(c, t, e)
      else SpaceRefs(c, t', r) == SpaceRefs(c, t, r)
  {
    var t', slots := PutSlot(t, root, i, e), UserSlots(t, r);
    UserSlotsAfterPut(t, root, i, e, r);
    SlotsAgree(c, t, t', UserSlots(t', r));
    if r == root && i < KERNEL_SLOT {
      OneSlotDiffers(c, t, slots, i, e);
      AddFront(SlotsRefs(c, t, slots), SlotsRefs(c, t', slots[i := e]), SlotRefs(c, t, slots[i]), SlotRefs(c, t, e),
          multiset{c.PageOf(r)});
    }
  }

  /** A table that no slot of r refers to holds no reference for it. */
  lemma LooseTableRefs(c: Layout, t: Tables, t': Tables, table: int, r: int)
    requires t'.l1 == t.l1 && forall a :: a != table ==> CellsOf(t', a) == CellsOf(t, a)
    requires forall n :: Slot(t, r, n) != Coarse(table)
    ensures SpaceRefs(c, t', r) == SpaceRefs(c, t, r)
  {
    var slots := UserSlots(t, r);
    forall e | e in slots && e.Coarse?
      ensures CellsOf(t', e.base) == CellsOf(t, e.base)
    {
      var k :| 0 <= k < |slots| && slots[k] == e;
      assert Slot(t, r, k) == e;
    }
    SlotsAgree(c, t, t', slots);
  }

  /** The address space at root has gained the given references, the others are as before. */
  ghost predicate RefsGained(c: Layout, t: Tables, t': Tables, root: int, gained: multiset<nat>) {
    forall r :: SpaceRefs(c, t', r) == if r == root then SpaceRefs(c, t, r) + gained else SpaceRefs(c, t, r)
  }

  /** A new table adds one reference to the address space whose user slot it hangs in. */
  lemma HangTableRefs(c: Layout, t: Tables, place: map<int, Place>, root: int, i: int, a: int)
    requires Consistent(t, place, c.kernelRoot) && root in t.l1 && 0 <= i < LVL1_ENTRIES && a !in t.l2
    requires Slot(t, root, i).Empty? && (i >= KERNEL_SLOT ==> Slot(t, c.kernelRoot, i).Empty?)
    ensures RefsGained(c, t, HangTable(t, c.kernelRoot, root, i, a), root,
                       if i < KERNEL_SLOT then multiset{c.PageOf(a)} else multiset{})
  {
    AddTableRefs(c, t, place, a);
    EmptyTableHoldsNothing(c, CellsOf(AddTable(t, a), a));
    forall r
      ensures SpaceRefs(c, HangTable(t, c.kernelRoot, root, i, a), r) ==
        SpaceRefs(c, AddTable(t, a), r) + (if r == root && i < KERNEL_SLOT then multiset{c.PageOf(a)} else multiset{})
    {
      HangOneTable(c, AddTable(t, a), root, i, a, r);
    }
  }

  lemma HangOneTable(c: Layout, t: Tables, root: int, i: int, a: int, r: int)
    requires Shaped(t) && root in t.l1 && c.kernelRoot in t.l1 && 0 <= i < LVL1_ENTRIES
    requires Slot(t, root, i).Empty? && CellsRefs(c, CellsOf(t, a)) == multiset{}
    ensures var t1 := PutSlot(t, root, i, Coarse(a));
      var t' := if i >= KERNEL_SLOT then PutSlot(t1, c.kernelRoot, i, Coarse(a)) else t1;
      SpaceRefs(c, t', r) == SpaceRefs(c, t, r)
          + (if r == root && i < KERNEL_SLOT then multiset{c.PageOf(a)} else multiset{})
  {
    PutSlotRefs(c, t, root, i, Coarse(a), r);
    assert SlotRefs(c, t, Coarse(a)) == multiset{c.PageOf(a)} && SlotRefs(c, t, Empty) == multiset{};
    if i >= KERNEL_SLOT {
      PutSlotRefs(c, PutSlot(t, root, i, Coarse(a)), c.kernelRoot, i, Coarse(a), r);
    }
  }

  lemma AddTableRefs(c: Layout, t: Tables, place: map<int, Place>, a: int)
    requires Placed(t, place) && a !in t.l2
    ensures forall r :: SpaceRefs(c, AddTable(t, a), r) == SpaceRefs(c, t, r)
  {
    forall r
      ensures SpaceRefs(c, AddTable(t, a), r) == SpaceRefs(c, t, r)
    {
      assert forall n :: Slot(t, r, n) == Coarse(a) ==> a in t.l2;
      LooseTableRefs(c, t, AddTable(t, a), a, r);
    }
  }

  lemma PutCellGains(c: Layout, t: Tables, place: map<int, Place>, root: int, i: int, j: int, e: Entry2)
    requires Consistent(t, place, c.kernelRoot) && root in t.l1 && 0 <= i < LVL1_ENTRIES && 0 <= j < LVL2_ENTRIES
    requires Slot(t, root, i).Coarse? && Slot(t, root, i).base in t.l2 && Cell(t, Slot(t, root, i).base, j).Absent?
    ensures RefsGained(c, t, PutCell(t, Slot(t, root, i).base, j, e), root,
                       if i < KERNEL_SLOT then CellRefs(c, e) else multiset{})
  {
    forall r
      ensures SpaceRefs(c, PutCell(t, Slot(t, root, i).base, j, e), r) ==
        if r == root && i < KERNEL_SLOT then SpaceRefs(c, t, r) + CellRefs(c, e) else SpaceRefs(c, t, r)
    {
      PutCellRefs(c, t, place, root, i, j, e, r);
    }
  }

  lemma {:induction false} EmptyTableHoldsNothing(c: Layout, cells: seq<Entry2>)
    requires forall j :: 0 <= j < |cells| ==> cells[j].Absent?
    ensures CellsRefs(c, cells) == multiset{}
  {
    if cells != [] {
      EmptyTableHoldsNothing(c, cells[..|cells| - 1]);
    }
  }

  // ----- Membership -----

  lemma {:induction false} CellIsHeld(c: Layout, cells: seq<Entry2>, j: nat)
    requires j < |cells| && cells[j].SmallPage?
    ensures c.PageOf(cells[j].base) in CellsRefs(c, cells)
  {
    if j < |cells| - 1 {
      CellIsHeld(c, cells[..|cells| - 1], j);
    }
  }

  lemma {:induction false} SlotIsHeld(c: Layout, t: Tables, slots: seq<Entry1>, i: nat)
    requires i < |slots|
    ensures SlotRefs(c, t, slots[i]) <= SlotsRefs(c, t, slots)
  {
    var rest := slots[..|slots| - 1];
    if i < |slots| - 1 {
      SlotIsHeld(c, t, rest, i);
    }
  }

  /** The address space may be freed: it holds no more references than are counted, and every page it
      holds is live at the order at which freeing the address space returns it. */
  ghost predicate Owned(c: Layout, t: Tables, pool: Pool, root: int) {
    SpaceRefs(c, t, root) <= pool.refs && Allotted(c, t, pool, root)
  }

  ghost predicate Allotted(c: Layout, t: Tables, pool: Pool, root: int) {
    && Block(c.PageOf(root), KB16) in pool.live
    && (forall i :: 0 <= i < KERNEL_SLOT && Slot(t, root, i).Coarse? ==>
          Block(c.PageOf(Slot(t, root, i).base), KB1) in pool.live)
    && (forall i, j :: 0 <= i < KERNEL_SLOT && 0 <= j < LVL2_ENTRIES && UserCell(t, root, i, j).SmallPage? ==>
          Block(c.PageOf(UserCell(t, root, i, j).base), KB4) in pool.live)
  }

  /** A block that was live and is live still, at whatever order, is live at the same order. */
  ghost predicate SameOrders(pool: Pool, pool': Pool) {
    forall b :: b in pool.live && Live(pool'.live, b.start) ==> b in pool'.live
  }

  lemma ShrunkOrders(pool: Pool, pool': Pool, lo: nat, hi: nat)
    requires Sound(pool, lo, hi) && pool'.live <= pool.live
    ensures SameOrders(pool, pool')
  {
    forall b | b in pool.live && Live(pool'.live, b.start)
      ensures b in pool'.live
    {
      OneLiveOrder(pool, b, lo, hi);
    }
  }

  /** The user half of the address space at r is as it was. */
  ghost predicate Untouched(t: Tables, t': Tables, r: int) {
    && (forall n :: 0 <= n < KERNEL_SLOT ==> Slot(t', r, n) == Slot(t, r, n))
    && (forall n, k :: 0 <= n < KERNEL_SLOT ==> UserCell(t', r, n, k) == UserCell(t, r, n, k))
  }

  ghost predicate OthersUntouched(t: Tables, t': Tables, root: int) {
    forall r :: r != root ==> Untouched(t, t', r)
  }

  /** The slot, and what its table holds, are as they were. */
  ghost predicate SlotUntouched(t: Tables, t': Tables, r: int, n: int) {
    Slot(t', r, n) == Slot(t, r, n) && forall k :: UserCell(t', r, n, k) == UserCell(t, r, n, k)
  }

  lemma SameCells(t: Tables, t': Tables, place: map<int, Place>, place': map<int, Place>, kernel: int, r: int, n: int)
    requires Consistent(t, place, kernel) && Consistent(t', place', kernel) && SlotUntouched(t, t', r, n)
    requires Slot(t, r, n).Coarse?
    ensures CellsOf(t', Slot(t, r, n).base) == CellsOf(t, Slot(t, r, n).base)
  {
    var a := Slot(t, r, n).base;
    assert Slot(t', r, n) == Slot(t, r, n);
    forall k | 0 <= k < LVL2_ENTRIES
      ensures t'.l2[a][k] == t.l2[a][k]
    {
      assert UserCell(t', r, n, k) == UserCell(t, r, n, k);
    }
  }

  lemma SlotRefsSame(c: Layout, t: Tables, t': Tables, place: map<int, Place>, place': map<int, Place>, r: int, n: int)
    requires Consistent(t, place, c.kernelRoot) && Consistent(t', place', c.kernelRoot) && SlotUntouched(t, t', r, n)
    ensures SlotRefs(c, t', Slot(t', r, n)) == SlotRefs(c, t, Slot(t, r, n))
  {
    if Slot(t, r, n).Coarse? {
      SameCells(t, t', place, place', c.kernelRoot, r, n);
    }
  }

  lemma UntouchedTwice(t: Tables, t': Tables, t'': Tables, root: int)
    requires OthersUntouched(t, t', root) && OthersUntouched(t', t'', root)
    ensures OthersUntouched(t, t'', root)
  {
    forall r | r != root
      ensures Untouched(t, t'', r)
    {
      assert Untouched(t, t', r) && Untouched(t', t'', r);
    }
  }

  /** Writing a cell of a user table changes that cell of that slot alone; writing one of a kernel table
      changes none of a user slot. */
  lemma CellWritten(t: Tables, place: map<int, Place>, kernel: int, root: int, i: int, j: int, e: Entry2)
    requires Consistent(t, place, kernel) && root in t.l1 && 0 <= i < LVL1_ENTRIES && 0 <= j < LVL2_ENTRIES
    requires Slot(t, root, i).Coarse?
    ensures var t' := PutCell(t, Slot(t, root, i).base, j, e);
      && (forall r, n :: Slot(t', r, n) == Slot(t, r, n))
      && (forall r, n, k :: n < KERNEL_SLOT || i < KERNEL_SLOT ==>
            UserCell(t', r, n, k) == if r == root && n == i && k == j then e else UserCell(t, r, n, k))
  {
    var a := Slot(t, root, i).base;
    var t' := PutCell(t, a, j, e);
    CellIsView(t, place, kernel, root, i, j);
    CellsAfterPut(t, a, j, e);
    forall r, n, k | n < KERNEL_SLOT || i < KERNEL_SLOT
      ensures UserCell(t', r, n, k) == if r == root && n == i && k == j then e else UserCell(t, r, n, k)
    {
      assert Slot(t, r, n).Coarse? && Slot(t, r, n).base == a ==> PlaceOf(r, n) == PlaceOf(root, i);
    }
  }

  /** Taking a user table out of its slot. */
  lemma TableTakenOut(t: Tables, place: map<int, Place>, kernel: int, root: int, i: int)
    requires Consistent(t, place, kernel) && root in t.l1 && 0 <= i < KERNEL_SLOT && Slot(t, root, i).Coarse?
    ensures OthersUntouched(t, RemoveTable(PutSlot(t, root, i, Empty), Slot(t, root, i).base), root)
  {
    var a := Slot(t, root, i).base;
    SlotsAfterPut(t, root, i, Empty);
    CellsAfterRemove(PutSlot(t, root, i, Empty), a);
    forall r, n | r != root && Slot(t, r, n).Coarse?
      ensures Slot(t, r, n).base != a
    {
      assert place[a] == PlaceOf(root, i) && place[Slot(t, r, n).base] == PlaceOf(r, n);
    }
  }

  function UserCell(t: Tables, root: int, i: int, j: int): Entry2 {
    var e := Slot(t, root, i);
    if e.Coarse? then Cell(t, e.base, j) else Absent
  }

  /** Freeing one reference that the address space gives up leaves the rest of it owned. */
  lemma FreeKeepsOwned(c: Layout, t: Tables, t': Tables, pool: Pool, root: int, b: Block)
    requires Sound(pool, c.lo, c.hi) && Owned(c, t, pool, root) && b in pool.live
    requires SpaceRefs(c, t, root) == SpaceRefs(c, t', root) + multiset{b.start}
    requires Fewer(t, t', root) && Shaped(t')
    ensures var pool' := Served(pool, Request.Free(b.start, b.order));
      && Owned(c, t', pool', root) && Sound(pool', c.lo, c.hi)
      && pool'.refs == pool.refs - multiset{b.start}
      && (forall q :: q in pool.live && q != b ==> q in pool'.live)
  {
    var pool', held := Served(pool, Request.Free(b.start, b.order)), SpaceRefs(c, t', root);
    assert held + multiset{b.start} <= pool.refs;
    StillLive(pool, b, c.PageOf(root), KB16, held);
    forall i | 0 <= i < KERNEL_SLOT && Slot(t', root, i).Coarse?
      ensures Block(c.PageOf(Slot(t', root, i).base), KB1) in pool'.live
    {
      TableIsHeld(c, t', root, i);
      StillLive(pool, b, c.PageOf(Slot(t', root, i).base), KB1, held);
    }
    forall i, j | 0 <= i < KERNEL_SLOT && 0 <= j < LVL2_ENTRIES && UserCell(t', root, i, j).SmallPage?
      ensures Block(c.PageOf(UserCell(t', root, i, j).base), KB4) in pool'.live
    {
      PageIsHeld(c, t', root, i, j);
      StillLive(pool, b, c.PageOf(UserCell(t', root, i, j).base), KB4, held);
    }
    ServedIsSound(pool, Request.Free(b.start, b.order), c.lo, c.hi);
    LiveAfterFree(pool, b, b.order, c.lo, c.hi);
  }

  /** Every entry of t' is an entry of t or empty. */
  ghost predicate Fewer(t: Tables, t': Tables, root: int) {
    && (forall i :: Slot(t', root, i).Coarse? ==> Slot(t', root, i) == Slot(t, root, i))
    && (forall i, j :: UserCell(t', root, i, j).SmallPage? ==> UserCell(t', root, i, j) == UserCell(t, root, i, j))
  }

  lemma TableIsHeld(c: Layout, t: Tables, root: int, i: int)
    requires 0 <= i < KERNEL_SLOT && Slot(t, root, i).Coarse? && Shaped(t)
    ensures c.PageOf(Slot(t, root, i).base) in SpaceRefs(c, t, root)
  {
    SlotIsHeld(c, t, UserSlots(t, root), i);
    assert multiset{c.PageOf(Slot(t, root, i).base)} <= SlotRefs(c, t, Slot(t, root, i));
  }

  lemma PageIsHeld(c: Layout, t: Tables, root: int, i: int, j: int)
    requires 0 <= i < KERNEL_SLOT && UserCell(t, root, i, j).SmallPage? && Shaped(t)
    ensures c.PageOf(UserCell(t, root, i, j).base) in SpaceRefs(c, t, root)
  {
    SlotIsHeld(c, t, UserSlots(t, root), i);
    CellIsHeld(c, CellsOf(t, Slot(t, root, i).base), j);
    assert c.PageOf(UserCell(t, root, i, j).base) in SlotRefs(c, t, Slot(t, root, i));
  }

  /** A page that is still referenced after a free stays live at its order. */
  lemma StillLive(pool: Pool, b: Block, p: nat, o: Order, held: multiset<nat>)
    requires held + multiset{b.start} <= pool.refs && p in held && Block(p, o) in pool.live
    ensures Block(p, o) in Served(pool, Request.Free(b.start, b.order)).live
  {
  }

  lemma {:induction false} NoTablesNoRefs(c: Layout, t: Tables, slots: seq<Entry1>)
    requires forall e :: e in slots ==> !e.Coarse?
    ensures SlotsRefs(c, t, slots) == multiset{}
  {
    if slots != [] {
      NoTablesNoRefs(c, t, slots[..|slots| - 1]);
    }
  }
}
