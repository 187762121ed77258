/** kernel/memory/vm.cpp: vm_fork, which copies the user pages of one address space into frames of
    their own for another. */
module Forking {
  import opened Basics
  import opened Descriptors
  import opened Translation
  import opened References
  import opened PhysicalAlloc
  import opened Lifetimes
  import opened Mapping
  import opened Creation

  /** The bytes of the page frames, by physical address. */
  type Frames = map<int, seq<Byte>>

  function FrameAt(f: Frames, base: int): seq<Byte> {
    if base in f then f[base] else []
  }

  // ----- Steps -----

  /** The slot of the child is overwritten; a table that hung there is neither freed nor walked again. */
  function Forgotten(m: Machine, child: int, i: int): Machine {
    m.(tables := PutSlot(m.tables, child, i, Empty))
  }

  function TableForked(c: Layout, m: Machine, child: int, i: int): Machine {
    Hung(c, Forgotten(m, child, i), child, i)
  }

  /** A new frame for a page of the parent, with its bytes and its permissions. */
  function PageForked(c: Layout, m: Machine, child: int, i: int, j: int, e: Entry2): Machine
    requires e.SmallPage?
  {
    match Take(m.pool.free, KB4)
    case OutOfMemory => m
    case Took(page, _) => Filled(PageTaken(m), child, i, j, SmallPage(c.AddrOf(page), e.permissions))
  }

  function FrameForked(c: Layout, m: Machine, f: Frames, e: Entry2): Frames
    requires e.SmallPage?
  {
    match Take(m.pool.free, KB4)
    case OutOfMemory => f
    case Took(page, _) => f[c.AddrOf(page) := FrameAt(f, e.base)]
  }

  // ----- What vm_fork has done so far -----

  /** The child has a page where the parent has one, with the same permissions and bytes, in a frame
      that nothing referred to before. */
  ghost predicate CopyOf(c: Layout, m0: Machine, f0: Frames, m: Machine, f: Frames, parent: int, child: int, i: int,
          j: int) {
    var e, e' := UserCell(m0.tables, parent, i, j), UserCell(m.tables, child, i, j);
    if e.Absent? then e'.Absent?
    else
      && e'.SmallPage? && e'.permissions == e.permissions && FrameAt(f, e'.base) == FrameAt(f0, e.base)
      && m0.pool.refs[c.PageOf(e'.base)] == 0
  }

  /** The references that the address space has gained are counted; those that it has lost stay counted,
      though no address space holds them any more. */
  ghost predicate Pays(c: Layout, m: Machine, m': Machine, root: int, lost: multiset<nat>) {
    m.pool.refs + SpaceRefs(c, m'.tables, root) + lost == m'.pool.refs + SpaceRefs(c, m.tables, root)
  }

  lemma PaysTwice(c: Layout, m: Machine, m': Machine, m'': Machine, root: int, lost: multiset<nat>,
          lost': multiset<nat>)
    requires Pays(c, m, m', root, lost) && Pays(c, m', m'', root, lost')
    ensures Pays(c, m, m'', root, lost + lost')
  {
    PaidTwice(m.pool.refs, m'.pool.refs, m''.pool.refs,
              SpaceRefs(c, m.tables, root), SpaceRefs(c, m'.tables, root), SpaceRefs(c, m''.tables, root), lost, lost');
  }

  lemma PaidTwice(a: multiset<nat>, a': multiset<nat>, a'': multiset<nat>, s: multiset<nat>, s': multiset<nat>,
          s'': multiset<nat>, x: multiset<nat>, x': multiset<nat>)
    requires a + s' + x == a' + s && a' + s'' + x' == a'' + s'
    ensures a + s'' + (x + x') == a'' + s
  {
    forall p: nat
      ensures (a + s'' + (x + x'))[p] == (a'' + s)[p]
    {
      assert (a + s' + x)[p] == (a' + s)[p] && (a' + s'' + x')[p] == (a'' + s')[p];
    }
  }

  lemma PaysOne(a: multiset<nat>, a': multiset<nat>, s: multiset<nat>, s': multiset<nat>, p: nat)
    requires a' == a + multiset{p} && s' == s + multiset{p}
    ensures a + s' + multiset{} == a' + s
  {
  }

  /** What hung in the first n slots. */
  function Overwritten(c: Layout, t: Tables, root: int, n: nat): multiset<nat> {
    if n == 0 then multiset{} else Overwritten(c, t, root, n - 1) + SlotRefs(c, t, Slot(t, root, n - 1))
  }

  /** The first n slots of the child have been overwritten, and the others are as they were. */
  ghost predicate Overwrote(c: Layout, m0: Machine, m: Machine, child: int, n: nat) {
    && n <= KERNEL_SLOT && Pays(c, m0, m, child, Overwritten(c, m0.tables, child, n))
    && forall i :: n <= i < KERNEL_SLOT ==> SlotUntouched(m0.tables, m.tables, child, i)
  }

  /** Nothing but the child, and no frame in use, has changed. */
  ghost predicate OthersKept(c: Layout, m0: Machine, f0: Frames, m: Machine, f: Frames, child: int) {
    && m.tables.l1.Keys == m0.tables.l1.Keys
    && OtherViewsKept(c, m0.tables, m.tables, child)
    && OthersUntouched(m0.tables, m.tables, child) && m0.pool.live <= m.pool.live
    && m0.pool.refs <= m.pool.refs
    && (forall b :: m0.pool.refs[c.PageOf(b)] > 0 ==> FrameAt(f, b) == FrameAt(f0, b))
  }

  ghost predicate Before(n: int, k: int, i: int, j: int) {
    0 <= n && 0 <= k < LVL2_ENTRIES && (n < i || (n == i && k < j))
  }

  ghost predicate CopiedUpTo(c: Layout, m0: Machine, f0: Frames, m: Machine, f: Frames, parent: int, child: int, i: int,
          j: int) {
    forall n, k :: Before(n, k, i, j) ==> CopyOf(c, m0, f0, m, f, parent, child, n, k)
  }

  /** vm_fork before slot i. */
  ghost predicate CopyingSlots(c: Layout, m0: Machine, f0: Frames, m: Machine, f: Frames, parent: int, child: int,
          i: nat) {
    && Good(c, m) && Owned(c, m.tables, m.pool, child)
    && OthersKept(c, m0, f0, m, f, child) && Overwrote(c, m0, m, child, i)
    && CopiedUpTo(c, m0, f0, m, f, parent, child, i, 0)
    && (forall n :: 0 <= n < i ==> !Slot(m.tables, child, n).Section? && !Slot(m0.tables, parent, n).Section?)
    && (forall n :: i <= n < KERNEL_SLOT && !Slot(m.tables, child, n).Empty? ==> !Slot(m0.tables, parent, n).Empty?)
  }

  /** vm_fork in slot i, before cell j. */
  ghost predicate CopyingCells(c: Layout, m0: Machine, f0: Frames, m: Machine, f: Frames, parent: int, child: int,
          i: nat, j: int) {
    && Good(c, m) && Owned(c, m.tables, m.pool, child)
    && OthersKept(c, m0, f0, m, f, child) && Overwrote(c, m0, m, child, i + 1)
    && CopiedUpTo(c, m0, f0, m, f, parent, child, i, j)
    && (forall n :: 0 <= n <= i ==> !Slot(m.tables, child, n).Section? && !Slot(m0.tables, parent, n).Section?)
    && (forall n :: i < n < KERNEL_SLOT && !Slot(m.tables, child, n).Empty? ==> !Slot(m0.tables, parent, n).Empty?)
    && Slot(m.tables, child, i).Coarse? && Slot(m0.tables, parent, i).Coarse?
    && (forall k :: j <= k < LVL2_ENTRIES ==> UserCell(m.tables, child, i, k).Absent?)
  }

  /** vm_fork where it ran out of memory: the child can still be freed. */
  ghost predicate Abandoned(c: Layout, m0: Machine, f0: Frames, m: Machine, f: Frames, parent: int, child: int) {
    && Good(c, m) && Owned(c, m.tables, m.pool, child) && OthersKept(c, m0, f0, m, f, child)
    && exists n :: Overwrote(c, m0, m, child, n)
  }

  /** The child is freed after its first n slots have been overwritten: what hung there stays counted. */
  ghost predicate GaveUpAt(c: Layout, m0: Machine, m: Machine, child: int, n: nat) {
    n <= KERNEL_SLOT && m0.pool.refs + Overwritten(c, m0.tables, child, n)
        == m.pool.refs + SpaceRefs(c, m0.tables, child)
  }

  /** After the child is freed: nothing else has changed. */
  ghost predicate Unforked(c: Layout, m0: Machine, f0: Frames, m: Machine, f: Frames, child: int) {
    && Good(c, m) && m.tables.l1.Keys == m0.tables.l1.Keys - {child} && OtherViewsKept(c, m0.tables, m.tables, child)
    && OthersUntouched(m0.tables, m.tables, child) && SameOrders(m0.pool, m.pool)
    && (exists n :: GaveUpAt(c, m0, m, child, n))
    && (forall b :: m0.pool.refs[c.PageOf(b)] > 0 ==> FrameAt(f, b) == FrameAt(f0, b))
  }

  lemma AbandonedThenFreed(c: Layout, m0: Machine, f0: Frames, m: Machine, f: Frames, m': Machine, parent: int,
          child: int)
    requires Good(c, m0) && Abandoned(c, m0, f0, m, f, parent, child) && Freed(c, m, m', child)
    ensures Unforked(c, m0, f0, m', f, child)
  {
    UntouchedTwice(m0.tables, m.tables, m'.tables, child);
    ShrunkOrders(m.pool, m'.pool, c.lo, c.hi);
    var n :| Overwrote(c, m0, m, child, n);
    PaidBack(m0.pool.refs, m.pool.refs, SpaceRefs(c, m0.tables, child), SpaceRefs(c, m.tables, child),
             Overwritten(c, m0.tables, child, n));
    assert GaveUpAt(c, m0, m', child, n);
  }

  lemma PaidBack(a: multiset<nat>, a': multiset<nat>, s: multiset<nat>, s': multiset<nat>, x: multiset<nat>)
    requires a + s' + x == a' + s && s' <= a'
    ensures a + x == a' - s' + s
  {
    forall p: nat
      ensures (a + x)[p] == (a' - s' + s)[p]
    {
      assert (a + s' + x)[p] == (a' + s)[p];
    }
  }

  /** What vm_fork is called with. */
  ghost predicate Forkable(c: Layout, m: Machine, parent: int, child: int) {
    && Good(c, m) && parent in m.tables.l1 && child in m.tables.l1 && parent != child && child != c.kernelRoot
    && Owned(c, m.tables, m.pool, parent) && Owned(c, m.tables, m.pool, child)
    && (forall n :: 0 <= n < KERNEL_SLOT && !Slot(m.tables, child, n).Empty? ==> !Slot(m.tables, parent, n).Empty?)
  }

  lemma ForkBegins(c: Layout, m: Machine, f: Frames, parent: int, child: int)
    requires Forkable(c, m, parent, child)
    ensures CopyingSlots(c, m, f, m, f, parent, child, 0)
  {
    assert Overwrote(c, m, m, child, 0);
  }

  // ----- Each step keeps it -----

  lemma SkipEmptySlot(c: Layout, m0: Machine, f0: Frames, m: Machine, f: Frames, parent: int, child: int, i: nat)
    requires CopyingSlots(c, m0, f0, m, f, parent, child, i) && parent != child && 0 <= i < KERNEL_SLOT
    requires Slot(m.tables, parent, i).Empty?
    ensures CopyingSlots(c, m0, f0, m, f, parent, child, i + 1)
  {
    assert Untouched(m0.tables, m.tables, parent);
    assert Slot(m0.tables, parent, i).Empty? && Slot(m.tables, child, i).Empty?;
    NothingOverwritten(c, m0, m, child, i);
    forall n, k | Before(n, k, i + 1, 0)
      ensures CopyOf(c, m0, f0, m, f, parent, child, n, k)
    {
      if n < i {
        assert Before(n, k, i, 0);
      }
    }
  }

  lemma NothingOverwritten(c: Layout, m0: Machine, m: Machine, child: int, i: nat)
    requires Overwrote(c, m0, m, child, i) && i < KERNEL_SLOT && Slot(m.tables, child, i).Empty?
    ensures Overwrote(c, m0, m, child, i + 1)
  {
    assert SlotUntouched(m0.tables, m.tables, child, i);
    var lost := Overwritten(c, m0.tables, child, i);
    assert Overwritten(c, m0.tables, child, i + 1) == lost + multiset{} == lost;
  }

  lemma ForgottenCells(m: Machine, child: int, i: int)
    requires Shaped(m.tables) && child in m.tables.l1 && 0 <= i < KERNEL_SLOT
    ensures var t' := Forgotten(m, child, i).tables;
      && (forall r, n :: Slot(t', r, n) == if r == child && n == i then Empty else Slot(m.tables, r, n))
      && (forall r, n, k :: UserCell(t', r, n, k) == if r == child && n == i then Absent
            else UserCell(m.tables, r, n, k))
  {
    SlotsAfterPut(m.tables, child, i, Empty);
  }

  lemma ForgottenOwned(c: Layout, m: Machine, child: int, i: int)
    requires Shaped(m.tables) && child in m.tables.l1 && 0 <= i < KERNEL_SLOT && Owned(c, m.tables, m.pool, child)
    ensures Owned(c, Forgotten(m, child, i).tables, m.pool, child)
    ensures Pays(c, m, Forgotten(m, child, i), child, SlotRefs(c, m.tables, Slot(m.tables, child, i)))
  {
    var s, s' := SpaceRefs(c, m.tables, child), SpaceRefs(c, Forgotten(m, child, i).tables, child);
    ForgottenCells(m, child, i);
    PutSlotRefs(c, m.tables, child, i, Empty, child);
    Smaller(s', SlotRefs(c, m.tables, Slot(m.tables, child, i)), s);
    LostOnly(m.pool.refs, s, s', SlotRefs(c, m.tables, Slot(m.tables, child, i)));
  }

  lemma LostOnly(a: multiset<nat>, s: multiset<nat>, s': multiset<nat>, x: multiset<nat>)
    requires s' + x == s + multiset{}
    ensures a + s' + x == a + s
  {
    assert a + s' + x == a + (s' + x);
  }

  /** Overwriting a slot of the child: what hung there is no longer part of it. */
  lemma ForgottenIsGood(c: Layout, m: Machine, child: int, i: int)
    requires Good(c, m) && child in m.tables.l1 && child != c.kernelRoot && 0 <= i < KERNEL_SLOT
    ensures var m' := Forgotten(m, child, i);
      && Good(c, m') && m'.tables.l1.Keys == m.tables.l1.Keys && OtherViewsKept(c, m.tables, m'.tables, child)
  {
    ForgottenCells(m, child, i);
    SlotsAfterPut(m.tables, child, i, Empty);
    assert Placed(Forgotten(m, child, i).tables, m.place);
  }

  lemma Smaller(a: multiset<nat>, x: multiset<nat>, b: multiset<nat>)
    requires a + x == b + multiset{}
    ensures a <= b
  {
    forall p: nat
      ensures a[p] <= b[p]
    {
      assert (a + x)[p] == b[p];
    }
  }

  lemma TableForkedIsGood(c: Layout, m: Machine, child: int, i: int)
    requires Good(c, m) && child in m.tables.l1 && child != c.kernelRoot && 0 <= i < KERNEL_SLOT
    requires Owned(c, m.tables, m.pool, child)
    requires Take(m.pool.free, KB1).Took?
    ensures var m' := TableForked(c, m, child, i);
      && Good(c, m') && Owned(c, m'.tables, m'.pool, child) && m'.tables.l1.Keys == m.tables.l1.Keys
      && OtherViewsKept(c, m.tables, m'.tables, child) && m.pool.refs <= m'.pool.refs
  {
    ForgottenIsGood(c, m, child, i);
    ForgottenCells(m, child, i);
    ForgottenOwned(c, m, child, i);
    var m1 := Forgotten(m, child, i);
    HungIsGood(c, m1, child, i);
    OwnedAfterHang(c, m1, child, i);
  }

  lemma TableForkedPays(c: Layout, m: Machine, child: int, i: int)
    requires Good(c, m) && child in m.tables.l1 && child != c.kernelRoot && 0 <= i < KERNEL_SLOT
    requires Owned(c, m.tables, m.pool, child)
    requires Take(m.pool.free, KB1).Took?
    ensures Pays(c, m, TableForked(c, m, child, i), child, SlotRefs(c, m.tables, Slot(m.tables, child, i)))
    ensures m.pool.live <= TableForked(c, m, child, i).pool.live
  {
    ForgottenIsGood(c, m, child, i);
    ForgottenCells(m, child, i);
    ForgottenOwned(c, m, child, i);
    var m1 := Forgotten(m, child, i);
    HungBalances(c, m1, child, i);
    var lost := SlotRefs(c, m.tables, Slot(m.tables, child, i));
    assert Pays(c, m1, Hung(c, m1, child, i), child, multiset{});
    PaysTwice(c, m, m1, Hung(c, m1, child, i), child, lost, multiset{});
    assert lost + multiset{} == lost;
  }

  /** A new table for slot i, over what hung there. */
  lemma TableOverwrites(c: Layout, m0: Machine, m: Machine, child: int, i: nat)
    requires Good(c, m0) && Good(c, m) && child in m.tables.l1 && child != c.kernelRoot && i < KERNEL_SLOT
    requires Owned(c, m.tables, m.pool, child) && Take(m.pool.free, KB1).Took? && Overwrote(c, m0, m, child, i)
    ensures Overwrote(c, m0, TableForked(c, m, child, i), child, i + 1)
  {
    var m' := TableForked(c, m, child, i);
    assert SlotUntouched(m0.tables, m.tables, child, i);
    SlotRefsSame(c, m0.tables, m.tables, m0.place, m.place, child, i);
    TableForkedPays(c, m, child, i);
    PaysTwice(c, m0, m, m', child, Overwritten(c, m0.tables, child, i),
        SlotRefs(c, m.tables, Slot(m.tables, child, i)));
    TableForkedCells(c, m, child, i);
    StillUntouched(m0.tables, m.tables, m'.tables, child, i);
  }

  lemma StillUntouched(t0: Tables, t: Tables, t': Tables, child: int, i: nat)
    requires forall n :: i <= n < KERNEL_SLOT ==> SlotUntouched(t0, t, child, n)
    requires forall n :: i < n < KERNEL_SLOT ==> SlotUntouched(t, t', child, n)
    ensures forall n :: i < n < KERNEL_SLOT ==> SlotUntouched(t0, t', child, n)
  {
    forall n | i < n < KERNEL_SLOT
      ensures SlotUntouched(t0, t', child, n)
    {
      assert SlotUntouched(t0, t, child, n) && SlotUntouched(t, t', child, n);
    }
  }

  lemma TableForkedCells(c: Layout, m: Machine, child: int, i: int)
    requires Good(c, m) && child in m.tables.l1 && child != c.kernelRoot && 0 <= i < KERNEL_SLOT
    requires Owned(c, m.tables, m.pool, child)
    requires Take(m.pool.free, KB1).Took?
    ensures var m' := TableForked(c, m, child, i);
      && Slot(m'.tables, child, i).Coarse? && (forall k :: UserCell(m'.tables, child, i, k).Absent?)
      && (forall r, n :: r != child || n != i ==> Slot(m'.tables, r, n) == Slot(m.tables, r, n))
      && (forall r, n, k :: r != child || n != i ==> UserCell(m'.tables, r, n, k) == UserCell(m.tables, r, n, k))
      && OthersUntouched(m.tables, m'.tables, child)
  {
    ForgottenIsGood(c, m, child, i);
    ForgottenCells(m, child, i);
    var m1 := Forgotten(m, child, i);
    HungElsewhere(c, m1, child, i);
    AllocatedTableIsNew(c, m1, KB1);
    HungCells(m1.tables, c.kernelRoot, child, i, c.AddrOf(Take(m1.pool.free, KB1).page));
  }

  lemma EnterTable(c: Layout, m0: Machine, f0: Frames, m: Machine, f: Frames, m': Machine, parent: int, child: int,
          i: nat)
    requires CopyingSlots(c, m0, f0, m, f, parent, child, i) && 0 <= i < KERNEL_SLOT
    requires Slot(m.tables, parent, i).Coarse? && Good(c, m0) && m' == TableForked(c, m, child, i)
    requires child in m.tables.l1 && parent != child && child != c.kernelRoot && Take(m.pool.free, KB1).Took?
    ensures CopyingCells(c, m0, f0, m', f, parent, child, i, 0)
  {
    TableForkedIsGood(c, m, child, i);
    TableForkedKeeps(c, m0, f0, m, f, child, i);
    TableOverwrites(c, m0, m, child, i);
    TableForkedCopies(c, m0, f0, m, f, parent, child, i);
    EnteredSlots(c, m0, f0, m, f, parent, child, i);
  }

  lemma EnteredSlots(c: Layout, m0: Machine, f0: Frames, m: Machine, f: Frames, parent: int, child: int, i: nat)
    requires CopyingSlots(c, m0, f0, m, f, parent, child, i) && 0 <= i < KERNEL_SLOT
    requires Slot(m.tables, parent, i).Coarse?
    requires child in m.tables.l1 && parent != child && child != c.kernelRoot && Take(m.pool.free, KB1).Took?
    ensures var t' := TableForked(c, m, child, i).tables;
      && (forall n :: 0 <= n <= i ==> !Slot(t', child, n).Section? && !Slot(m0.tables, parent, n).Section?)
      && (forall n :: i < n < KERNEL_SLOT && !Slot(t', child, n).Empty? ==> !Slot(m0.tables, parent, n).Empty?)
      && Slot(t', child, i).Coarse? && Slot(m0.tables, parent, i).Coarse?
      && (forall k :: 0 <= k < LVL2_ENTRIES ==> UserCell(t', child, i, k).Absent?)
  {
    TableForkedCells(c, m, child, i);
    assert Untouched(m0.tables, m.tables, parent);
  }

  lemma TableForkedCopies(c: Layout, m0: Machine, f0: Frames, m: Machine, f: Frames, parent: int, child: int, i: nat)
    requires CopiedUpTo(c, m0, f0, m, f, parent, child, i, 0) && Good(c, m) && Owned(c, m.tables, m.pool, child)
    requires child in m.tables.l1 && child != c.kernelRoot && 0 <= i < KERNEL_SLOT && Take(m.pool.free, KB1).Took?
    ensures CopiedUpTo(c, m0, f0, TableForked(c, m, child, i), f, parent, child, i, 0)
  {
    TableForkedCells(c, m, child, i);
    CopiesKept(c, m0, f0, m, f, TableForked(c, m, child, i), parent, child, i);
  }

  lemma CopiesKept(c: Layout, m0: Machine, f0: Frames, m: Machine, f: Frames, m': Machine, parent: int, child: int,
          i: int)
    requires CopiedUpTo(c, m0, f0, m, f, parent, child, i, 0)
    requires forall n, k :: n != i ==> UserCell(m'.tables, child, n, k) == UserCell(m.tables, child, n, k)
    ensures CopiedUpTo(c, m0, f0, m', f, parent, child, i, 0)
  {
    forall n, k | Before(n, k, i, 0)
      ensures CopyOf(c, m0, f0, m', f, parent, child, n, k)
    {
      assert CopyOf(c, m0, f0, m, f, parent, child, n, k);
    }
  }

  lemma TableForkedKeeps(c: Layout, m0: Machine, f0: Frames, m: Machine, f: Frames, child: int, i: int)
    requires OthersKept(c, m0, f0, m, f, child) && Good(c, m) && Owned(c, m.tables, m.pool, child)
    requires child in m.tables.l1 && child != c.kernelRoot && 0 <= i < KERNEL_SLOT && Take(m.pool.free, KB1).Took?
    ensures OthersKept(c, m0, f0, TableForked(c, m, child, i), f, child)
  {
    var m' := TableForked(c, m, child, i);
    TableForkedIsGood(c, m, child, i);
    TableForkedPays(c, m, child, i);
    TableForkedCells(c, m, child, i);
    UntouchedTwice(m0.tables, m.tables, m'.tables, child);
  }

  lemma LeaveTable(c: Layout, m0: Machine, f0: Frames, m: Machine, f: Frames, parent: int, child: int, i: nat)
    requires CopyingCells(c, m0, f0, m, f, parent, child, i, LVL2_ENTRIES)
    ensures CopyingSlots(c, m0, f0, m, f, parent, child, i + 1)
  {
    forall n, k | Before(n, k, i + 1, 0)
      ensures CopyOf(c, m0, f0, m, f, parent, child, n, k)
    {
      assert Before(n, k, i, LVL2_ENTRIES);
    }
  }

  lemma SkipEmptyCell(c: Layout, m0: Machine, f0: Frames, m: Machine, f: Frames, parent: int, child: int, i: nat,
          j: int)
    requires CopyingCells(c, m0, f0, m, f, parent, child, i, j) && parent != child && 0 <= i < KERNEL_SLOT
    requires 0 <= j < LVL2_ENTRIES
    requires UserCell(m.tables, parent, i, j).Absent?
    ensures CopyingCells(c, m0, f0, m, f, parent, child, i, j + 1)
  {
    assert Untouched(m0.tables, m.tables, parent);
    forall n, k | Before(n, k, i, j + 1)
      ensures CopyOf(c, m0, f0, m, f, parent, child, n, k)
    {
      if n == i && k == j {
        assert UserCell(m0.tables, parent, i, j).Absent?;
      } else {
        assert Before(n, k, i, j);
      }
    }
  }

  lemma FilledCells(c: Layout, m: Machine, root: int, i: int, j: int, e: Entry2)
    requires Good(c, m) && root in m.tables.l1 && 0 <= i < KERNEL_SLOT && 0 <= j < LVL2_ENTRIES
    requires Slot(m.tables, root, i).Coarse?
    ensures var m' := Filled(m, root, i, j, e);
      && (forall r, n :: Slot(m'.tables, r, n) == Slot(m.tables, r, n))
      && (forall r, n, k :: UserCell(m'.tables, r, n, k) == if r == root && n == i && k == j then e
            else UserCell(m.tables, r, n, k))
  {
    CellWritten(m.tables, m.place, c.kernelRoot, root, i, j, e);
  }

  /** The frame for a copy is new to every address space and to the frames copied before. */
  lemma PageForkedIsGood(c: Layout, m: Machine, child: int, i: int, j: int, e: Entry2)
    requires Good(c, m) && child in m.tables.l1 && 0 <= i < KERNEL_SLOT && 0 <= j < LVL2_ENTRIES
    requires Owned(c, m.tables, m.pool, child) && Slot(m.tables, child, i).Coarse?
    requires UserCell(m.tables, child, i, j).Absent?
    requires e.SmallPage? && Take(m.pool.free, KB4).Took?
    ensures var m' := PageForked(c, m, child, i, j, e);
      && Good(c, m') && Owned(c, m'.tables, m'.pool, child) && m'.tables.l1.Keys == m.tables.l1.Keys
      && OtherViewsKept(c, m.tables, m'.tables, child) && m.pool.refs <= m'.pool.refs
      && m.pool.refs[Take(m.pool.free, KB4).page] == 0
      && Pays(c, m, m', child, multiset{}) && m.pool.live <= m'.pool.live
  {
    var page := Take(m.pool.free, KB4).page;
    var e', m1 := SmallPage(c.AddrOf(page), e.permissions), PageTaken(m);
    AllocationBrings(c, m.pool);
    AllocatedIsNew(m.pool, KB4, c.lo, c.hi);
    PageAtItsAddress(c, page);
    BroughtIsSpare(c, m, m1.pool, child, page);
    FilledIsGood(c, m1, child, i, j, e');
    HandOver(c, m1, child, i, j, e');
    PaysOne(m.pool.refs, m1.pool.refs, SpaceRefs(c, m.tables, child),
            SpaceRefs(c, PageForked(c, m, child, i, j, e).tables, child), page);
  }

  /** Writing the new frame leaves every frame in use as it is. */
  lemma OldFramesKept(c: Layout, m: Machine, f: Frames, e: Entry2, b: int)
    requires e.SmallPage? && Take(m.pool.free, KB4).Took?
    requires m.pool.refs[Take(m.pool.free, KB4).page] == 0 && m.pool.refs[c.PageOf(b)] > 0
    ensures FrameAt(FrameForked(c, m, f, e), b) == FrameAt(f, b)
  {
    PageAtItsAddress(c, Take(m.pool.free, KB4).page);
  }

  lemma CopyKept(c: Layout, m0: Machine, f0: Frames, m: Machine, f: Frames, m': Machine, f': Frames, parent: int,
          child: int, n: int, k: int)
    requires CopyOf(c, m0, f0, m, f, parent, child, n, k) && Good(c, m) && Owned(c, m.tables, m.pool, child)
    requires 0 <= n < KERNEL_SLOT
    requires UserCell(m'.tables, child, n, k) == UserCell(m.tables, child, n, k)
    requires forall b :: m.pool.refs[c.PageOf(b)] > 0 ==> FrameAt(f', b) == FrameAt(f, b)
    ensures CopyOf(c, m0, f0, m', f', parent, child, n, k)
  {
    if UserCell(m.tables, child, n, k).SmallPage? {
      PageIsHeld(c, m.tables, child, n, k);
    }
  }

  /** The page of cell j, copied. */
  lemma NewCopy(c: Layout, m0: Machine, f0: Frames, m: Machine, f: Frames, parent: int, child: int, i: int, j: int)
    requires Good(c, m) && Good(c, m0) && Owned(c, m0.tables, m0.pool, parent) && OthersKept(c, m0, f0, m, f, child)
    requires child in m.tables.l1 && parent != child && 0 <= i < KERNEL_SLOT && 0 <= j < LVL2_ENTRIES
    requires Slot(m.tables, child, i).Coarse?
    requires UserCell(m.tables, parent, i, j).SmallPage? && Take(m.pool.free, KB4).Took?
    ensures var e := UserCell(m.tables, parent, i, j);
      CopyOf(c, m0, f0, PageForked(c, m, child, i, j, e), FrameForked(c, m, f, e), parent, child, i, j)
  {
    var e, page := UserCell(m.tables, parent, i, j), Take(m.pool.free, KB4).page;
    AllocationBrings(c, m.pool);
    AllocatedIsNew(m.pool, KB4, c.lo, c.hi);
    PageAtItsAddress(c, page);
    assert AllBacked(c, PageTaken(m));
    FilledCells(c, PageTaken(m), child, i, j, SmallPage(c.AddrOf(page), e.permissions));
    assert Untouched(m0.tables, m.tables, parent);
    assert e == UserCell(m0.tables, parent, i, j);
    PageIsHeld(c, m0.tables, parent, i, j);
    assert m0.pool.refs[page] <= m.pool.refs[page];
  }

  lemma PageForkedCells(c: Layout, m: Machine, child: int, i: int, j: int, e: Entry2)
    requires Good(c, m) && child in m.tables.l1 && 0 <= i < KERNEL_SLOT && 0 <= j < LVL2_ENTRIES
    requires Slot(m.tables, child, i).Coarse?
    requires e.SmallPage? && Take(m.pool.free, KB4).Took?
    ensures var m' := PageForked(c, m, child, i, j, e);
      && (forall r, n :: Slot(m'.tables, r, n) == Slot(m.tables, r, n))
      && (forall r, n, k :: r != child || n != i || k != j ==>
            UserCell(m'.tables, r, n, k) == UserCell(m.tables, r, n, k))
      && OthersUntouched(m.tables, m'.tables, child)
  {
    AllocationBrings(c, m.pool);
    assert AllBacked(c, PageTaken(m));
    FilledCells(c, PageTaken(m), child, i, j, SmallPage(c.AddrOf(Take(m.pool.free, KB4).page), e.permissions));
  }

  lemma StepOthersKept(c: Layout, m0: Machine, f0: Frames, m: Machine, f: Frames, child: int, i: int, j: int, e: Entry2)
    requires OthersKept(c, m0, f0, m, f, child) && Good(c, m)
    requires child in m.tables.l1 && 0 <= i < KERNEL_SLOT && 0 <= j < LVL2_ENTRIES
    requires Owned(c, m.tables, m.pool, child) && Slot(m.tables, child, i).Coarse?
    requires UserCell(m.tables, child, i, j).Absent?
    requires e.SmallPage? && Take(m.pool.free, KB4).Took?
    ensures OthersKept(c, m0, f0, PageForked(c, m, child, i, j, e), FrameForked(c, m, f, e), child)
  {
    var m', f' := PageForked(c, m, child, i, j, e), FrameForked(c, m, f, e);
    PageForkedIsGood(c, m, child, i, j, e);
    PageForkedCells(c, m, child, i, j, e);
    UntouchedTwice(m0.tables, m.tables, m'.tables, child);
    forall b | m0.pool.refs[c.PageOf(b)] > 0
      ensures FrameAt(f', b) == FrameAt(f0, b)
    {
      assert m0.pool.refs[c.PageOf(b)] <= m.pool.refs[c.PageOf(b)];
      OldFramesKept(c, m, f, e, b);
    }
  }

  lemma PageOverwritesNothing(c: Layout, m0: Machine, m: Machine, child: int, i: nat, j: int, e: Entry2)
    requires Good(c, m) && child in m.tables.l1 && i < KERNEL_SLOT && 0 <= j < LVL2_ENTRIES
    requires Owned(c, m.tables, m.pool, child) && Slot(m.tables, child, i).Coarse?
    requires UserCell(m.tables, child, i, j).Absent? && Overwrote(c, m0, m, child, i + 1)
    requires e.SmallPage? && Take(m.pool.free, KB4).Took?
    ensures Overwrote(c, m0, PageForked(c, m, child, i, j, e), child, i + 1)
  {
    var m', lost := PageForked(c, m, child, i, j, e), Overwritten(c, m0.tables, child, i + 1);
    PageForkedIsGood(c, m, child, i, j, e);
    PageForkedCells(c, m, child, i, j, e);
    PaysTwice(c, m0, m, m', child, lost, multiset{});
    assert lost + multiset{} == lost;
    forall n | i < n < KERNEL_SLOT
      ensures SlotUntouched(m0.tables, m'.tables, child, n)
    {
      assert SlotUntouched(m0.tables, m.tables, child, n);
    }
  }

  lemma CopyCell(c: Layout, m0: Machine, f0: Frames, m: Machine, f: Frames, parent: int, child: int, i: nat, j: int)
    requires Forkable(c, m0, parent, child) && CopyingCells(c, m0, f0, m, f, parent, child, i, j)
    requires 0 <= i < KERNEL_SLOT && 0 <= j < LVL2_ENTRIES
    requires UserCell(m.tables, parent, i, j).SmallPage? && Take(m.pool.free, KB4).Took?
    ensures var e := UserCell(m.tables, parent, i, j);
      CopyingCells(c, m0, f0, PageForked(c, m, child, i, j, e), FrameForked(c, m, f, e), parent, child, i, j + 1)
  {
    var e := UserCell(m.tables, parent, i, j);
    var m', f' := PageForked(c, m, child, i, j, e), FrameForked(c, m, f, e);
    PageForkedIsGood(c, m, child, i, j, e);
    PageForkedCells(c, m, child, i, j, e);
    StepOthersKept(c, m0, f0, m, f, child, i, j, e);
    PageOverwritesNothing(c, m0, m, child, i, j, e);
    CopiesGrow(c, m0, f0, m, f, parent, child, i, j);
  }

  lemma CopiesGrow(c: Layout, m0: Machine, f0: Frames, m: Machine, f: Frames, parent: int, child: int, i: nat, j: int)
    requires Forkable(c, m0, parent, child) && CopyingCells(c, m0, f0, m, f, parent, child, i, j)
    requires 0 <= i < KERNEL_SLOT && 0 <= j < LVL2_ENTRIES
    requires UserCell(m.tables, parent, i, j).SmallPage? && Take(m.pool.free, KB4).Took?
    ensures var e := UserCell(m.tables, parent, i, j);
      CopiedUpTo(c, m0, f0, PageForked(c, m, child, i, j, e), FrameForked(c, m, f, e), parent, child, i, j + 1)
  {
    var e := UserCell(m.tables, parent, i, j);
    var m', f' := PageForked(c, m, child, i, j, e), FrameForked(c, m, f, e);
    PageForkedCells(c, m, child, i, j, e);
    AllocatedIsNew(m.pool, KB4, c.lo, c.hi);
    forall b | m.pool.refs[c.PageOf(b)] > 0
      ensures FrameAt(f', b) == FrameAt(f, b)
    {
      OldFramesKept(c, m, f, e, b);
    }
    forall n, k | Before(n, k, i, j + 1)
      ensures CopyOf(c, m0, f0, m', f', parent, child, n, k)
    {
      if n == i && k == j {
        NewCopy(c, m0, f0, m, f, parent, child, i, j);
      } else {
        assert Before(n, k, i, j);
        CopyKept(c, m0, f0, m, f, m', f', parent, child, n, k);
      }
    }
  }

  // ----- What vm_fork has achieved -----

  /** Every user page of the child is a copy of the parent's, and the parent is as it was. */
  ghost predicate Forked(c: Layout, m0: Machine, f0: Frames, m: Machine, f: Frames, parent: int, child: int) {
    && Good(c, m) && m.tables.l1.Keys == m0.tables.l1.Keys && OtherViewsKept(c, m0.tables, m.tables, child)
    && Owned(c, m.tables, m.pool, child) && OthersUntouched(m0.tables, m.tables, child)
    && Pays(c, m0, m, child, Overwritten(c, m0.tables, child, KERNEL_SLOT)) && m0.pool.live <= m.pool.live
    && forall v :: 0 <= v < KERNEL_PAGE ==> SameImage(c, m0, f0, m, f, parent, child, v)
  }

  ghost predicate SameImage(c: Layout, m0: Machine, f0: Frames, m: Machine, f: Frames, parent: int, child: int,
          v: int) {
    var e, e' := View(m0.tables, c.kernelRoot, parent, v), View(m.tables, c.kernelRoot, child, v);
    && (e.Absent? <==> e'.Absent?)
    && (e.SmallPage? ==>
          && e'.permissions == e.permissions
          && FrameAt(f, e'.base) == FrameAt(f0, e.base) == FrameAt(f, e.base)
          && m0.pool.refs[c.PageOf(e'.base)] == 0 && m0.pool.refs[c.PageOf(e.base)] > 0)
  }

  lemma ViewIsCell(c: Layout, t: Tables, root: int, v: int)
    requires 0 <= v < KERNEL_PAGE && !Slot(t, root, v / 256).Section?
    ensures View(t, c.kernelRoot, root, v) == UserCell(t, root, v / 256, v % 256)
  {
  }

  lemma ImageOfPage(c: Layout, m0: Machine, f0: Frames, m: Machine, f: Frames, parent: int, child: int, v: int)
    requires Forkable(c, m0, parent, child) && CopyingSlots(c, m0, f0, m, f, parent, child, KERNEL_SLOT)
    requires 0 <= v < KERNEL_PAGE
    ensures SameImage(c, m0, f0, m, f, parent, child, v)
  {
    var n, k := v / 256, v % 256;
    ViewIsCell(c, m0.tables, parent, v);
    ViewIsCell(c, m.tables, child, v);
    assert CopyOf(c, m0, f0, m, f, parent, child, n, k) by {
      assert Before(n, k, KERNEL_SLOT, 0);
    }
    if UserCell(m0.tables, parent, n, k).SmallPage? {
      PageIsHeld(c, m0.tables, parent, n, k);
    }
  }

  /** After all slots, parent and child map the same user pages with equal permissions and equal bytes,
      the child in frames that nothing referred to before. */
  lemma ForkCopies(c: Layout, m0: Machine, f0: Frames, m: Machine, f: Frames, parent: int, child: int)
    requires Forkable(c, m0, parent, child) && CopyingSlots(c, m0, f0, m, f, parent, child, KERNEL_SLOT)
    ensures Forked(c, m0, f0, m, f, parent, child)
  {
    forall v | 0 <= v < KERNEL_PAGE
      ensures SameImage(c, m0, f0, m, f, parent, child, v)
    {
      ImageOfPage(c, m0, f0, m, f, parent, child, v);
    }
  }

  lemma {:induction false} OverwrittenSlots(c: Layout, t: Tables, root: int, slots: seq<Entry1>)
    requires forall i :: 0 <= i < |slots| ==> slots[i] == Slot(t, root, i)
    ensures Overwritten(c, t, root, |slots|) == SlotsRefs(c, t, slots)
  {
    if slots != [] {
      OverwrittenSlots(c, t, root, slots[..|slots| - 1]);
    }
  }

  /** Forking frees nothing that the child held before, but its first-level table is all that it holds
      of it afterwards: the other references stay counted for ever. */
  lemma ForkForgets(c: Layout, m0: Machine, f0: Frames, m: Machine, f: Frames, parent: int, child: int)
    requires Good(c, m0) && child in m0.tables.l1 && Forked(c, m0, f0, m, f, parent, child)
    ensures m.pool.refs + multiset{c.PageOf(child)} == m0.pool.refs + SpaceRefs(c, m.tables, child)
  {
    var slots := UserSlots(m0.tables, child);
    OverwrittenSlots(c, m0.tables, child, slots);
    OnlyRootKept(m0.pool.refs, m.pool.refs, SpaceRefs(c, m.tables, child), SlotsRefs(c, m0.tables, slots),
                 multiset{c.PageOf(child)});
  }

  lemma OnlyRootKept(a: multiset<nat>, a': multiset<nat>, s': multiset<nat>, x: multiset<nat>, p: multiset<nat>)
    requires a + s' + x == a' + (p + x)
    ensures a' + p == a + s'
  {
    forall q: nat
      ensures (a' + p)[q] == (a + s')[q]
    {
      assert (a + s' + x)[q] == (a' + (p + x))[q];
    }
  }

  /** No frame is mapped below the kernel by both address spaces. */
  ghost predicate Apart(c: Layout, t: Tables, root: int, other: int) {
    forall v, v' :: 0 <= v < KERNEL_PAGE && 0 <= v' < KERNEL_PAGE ==>
      var e, e' := View(t, c.kernelRoot, root, v), View(t, c.kernelRoot, other, v');
      e.SmallPage? && e'.SmallPage? ==> e.base != e'.base
  }

  lemma ForkSeparates(c: Layout, m0: Machine, f0: Frames, m: Machine, f: Frames, parent: int, child: int)
    requires Forked(c, m0, f0, m, f, parent, child) && parent in m0.tables.l1 && parent != child
    ensures Apart(c, m.tables, parent, child) && Apart(c, m.tables, child, parent)
  {
    forall v, v' | 0 <= v < KERNEL_PAGE && 0 <= v' < KERNEL_PAGE
      ensures var e, e' := View(m.tables, c.kernelRoot, parent, v), View(m.tables, c.kernelRoot, child, v');
        e.SmallPage? && e'.SmallPage? ==> e.base != e'.base
    {
      assert SameImage(c, m0, f0, m, f, parent, child, v);
      assert SameImage(c, m0, f0, m, f, parent, child, v');
      assert View(m.tables, c.kernelRoot, parent, v) == View(m0.tables, c.kernelRoot, parent, v);
    }
  }

  // ----- Writes after the fork -----

  /** A byte stored through a user page of an address space. */
  datatype Write = Write(root: int, v: int, offset: nat, byte: Byte)

  function Written(c: Layout, t: Tables, f: Frames, w: Write): Frames {
    var e := View(t, c.kernelRoot, w.root, w.v);
    if e.SmallPage? && w.offset < |FrameAt(f, e.base)| then f[e.base := FrameAt(f, e.base)[w.offset := w.byte]] else f
  }

  function AllWritten(c: Layout, t: Tables, f: Frames, writes: seq<Write>): Frames {
    if writes == [] then f else Written(c, t, AllWritten(c, t, f, writes[..|writes| - 1]), writes[|writes| - 1])
  }

  /** The writes made through one address space. */
  function Through(writes: seq<Write>, root: int): seq<Write> {
    if writes == [] then []
    else Through(writes[..|writes| - 1], root) + if writes[|writes| - 1].root == root then [writes[|writes| - 1]]
        else []
  }

  ghost predicate UserWrites(writes: seq<Write>, root: int, other: int) {
    forall i :: 0 <= i < |writes| ==> writes[i].root in {root, other} && 0 <= writes[i].v < KERNEL_PAGE
  }

  ghost predicate SeesSame(c: Layout, t: Tables, f: Frames, f': Frames, root: int) {
    forall v :: 0 <= v < KERNEL_PAGE && View(t, c.kernelRoot, root, v).SmallPage? ==>
      FrameAt(f', View(t, c.kernelRoot, root, v).base) == FrameAt(f, View(t, c.kernelRoot, root, v).base)
  }

  /** However reads and writes through the two address spaces alternate, each sees only its own writes. */
  lemma {:induction false} WritesStayPrivate(c: Layout, t: Tables, f: Frames, writes: seq<Write>, root: int, other: int)
    requires Apart(c, t, root, other) && root != other && UserWrites(writes, root, other)
    ensures SeesSame(c, t, AllWritten(c, t, f, Through(writes, root)), AllWritten(c, t, f, writes), root)
  {
    if writes != [] {
      var before, w := writes[..|writes| - 1], writes[|writes| - 1];
      WritesStayPrivate(c, t, f, before, root, other);
      var mine, all := AllWritten(c, t, f, Through(before, root)), AllWritten(c, t, f, before);
      if w.root == root {
        var own := Through(before, root) + [w];
        assert own[..|own| - 1] == Through(before, root) && own[|own| - 1] == w;
        OwnWrite(c, t, mine, all, root, w);
      } else {
        assert Through(writes, root) == Through(before, root);
        OtherWrite(c, t, all, root, other, w);
      }
    }
  }

  lemma OwnWrite(c: Layout, t: Tables, f: Frames, f': Frames, root: int, w: Write)
    requires SeesSame(c, t, f, f', root) && w.root == root && 0 <= w.v < KERNEL_PAGE
    ensures SeesSame(c, t, Written(c, t, f, w), Written(c, t, f', w), root)
  {
  }

  lemma OtherWrite(c: Layout, t: Tables, f: Frames, root: int, other: int, w: Write)
    requires Apart(c, t, root, other) && w.root == other && 0 <= w.v < KERNEL_PAGE
    ensures SeesSame(c, t, f, Written(c, t, f, w), root)
  {
  }

  /** Writes through parent and child after a fork are invisible to one another. */
  lemma ForkIsolates(c: Layout, m0: Machine, f0: Frames, m: Machine, f: Frames, parent: int, child: int,
          writes: seq<Write>)
    requires Forked(c, m0, f0, m, f, parent, child) && parent in m0.tables.l1 && parent != child
    requires UserWrites(writes, parent, child)
    ensures var f' := AllWritten(c, m.tables, f, writes);
      && SeesSame(c, m.tables, AllWritten(c, m.tables, f, Through(writes, parent)), f', parent)
      && SeesSame(c, m.tables, AllWritten(c, m.tables, f, Through(writes, child)), f', child)
  {
    ForkSeparates(c, m0, f0, m, f, parent, child);
    WritesStayPrivate(c, m.tables, f, writes, parent, child);
    WritesStayPrivate(c, m.tables, f, writes, child, parent);
  }
}
