/** kernel/memory/vm.cpp: the references of all address spaces together. Each operation leaves every
    address space in possession of its pages, and what no address space holds is the kernel's. */
module Accounts {
  import opened Descriptors
  import opened Translation
  import opened References
  import opened PhysicalAlloc
  import opened Lifetimes
  import opened Mapping
  import opened Creation
  import opened Forking

  /** The address spaces of processes. */
  function Spaces(c: Layout, t: Tables): set<int> {
    t.l1.Keys - {c.kernelRoot}
  }

  ghost function AnyOf<T>(s: set<T>): (x: T)
    requires s != {}
    ensures x in s
  {
    var x :| x in s;
    x
  }

  ghost function AllRefs(c: Layout, t: Tables, spaces: set<int>): multiset<nat> {
    if spaces == {} then multiset{}
    else SpaceRefs(c, t, AnyOf(spaces)) + AllRefs(c, t, spaces - {AnyOf(spaces)})
  }

  /** What all processes hold. */
  ghost function Held(c: Layout, t: Tables): multiset<nat> {
    AllRefs(c, t, Spaces(c, t))
  }

  /** The references that no process holds. */
  ghost function Share(c: Layout, m: Machine): multiset<nat> {
    m.pool.refs - Held(c, m.tables)
  }

  /** All that the processes hold is counted, and each of their pages is live at the order at which
      freeing the process returns it. */
  ghost predicate AllOwned(c: Layout, m: Machine) {
    && Held(c, m.tables) <= m.pool.refs
    && forall r :: r in Spaces(c, m.tables) ==> Allotted(c, m.tables, m.pool, r)
  }

  // ----- Sums -----

  lemma Regroup(a: multiset<nat>, b: multiset<nat>, d: multiset<nat>)
    ensures a + (b + d) == b + (a + d)
  {
  }

  lemma {:induction false} PickOne(c: Layout, t: Tables, spaces: set<int>, r: int)
    requires r in spaces
    ensures AllRefs(c, t, spaces) == SpaceRefs(c, t, r) + AllRefs(c, t, spaces - {r})
    decreases |spaces|
  {
    var q := AnyOf(spaces);
    if q != r {
      PickOne(c, t, spaces - {q}, r);
      PickOne(c, t, spaces - {r}, q);
      assert spaces - {q} - {r} == spaces - {r} - {q};
      Regroup(SpaceRefs(c, t, q), SpaceRefs(c, t, r), AllRefs(c, t, spaces - {q} - {r}));
    }
  }

  lemma {:induction false} SameSum(c: Layout, t: Tables, t': Tables, spaces: set<int>)
    requires forall r :: r in spaces ==> SpaceRefs(c, t', r) == SpaceRefs(c, t, r)
    ensures AllRefs(c, t', spaces) == AllRefs(c, t, spaces)
    decreases |spaces|
  {
    if spaces != {} {
      SameSum(c, t, t', spaces - {AnyOf(spaces)});
    }
  }

  /** What one address space holds, if it is that of a process. */
  ghost function HeldBy(c: Layout, t: Tables, root: int): multiset<nat> {
    if root in Spaces(c, t) then SpaceRefs(c, t, root) else multiset{}
  }

  lemma HeldWithout(c: Layout, t: Tables, root: int)
    ensures Held(c, t) == HeldBy(c, t, root) + AllRefs(c, t, Spaces(c, t) - {root})
  {
    if root in Spaces(c, t) {
      PickOne(c, t, Spaces(c, t), root);
    } else {
      assert Spaces(c, t) - {root} == Spaces(c, t);
      assert multiset{} + Held(c, t) == Held(c, t);
    }
  }

  /** Every process can be freed. */
  lemma SpaceOwned(c: Layout, m: Machine, root: int)
    requires AllOwned(c, m) && root in Spaces(c, m.tables)
    ensures Owned(c, m.tables, m.pool, root)
  {
    PickOne(c, m.tables, Spaces(c, m.tables), root);
  }

  // ----- One address space changes -----

  lemma UntouchedRefs(c: Layout, t: Tables, t': Tables, place: map<int, Place>, place': map<int, Place>, r: int)
    requires Consistent(t, place, c.kernelRoot) && Consistent(t', place', c.kernelRoot)
    requires r in t.l1 && r in t'.l1 && Untouched(t, t', r)
    ensures SpaceRefs(c, t', r) == SpaceRefs(c, t, r)
  {
    var slots := UserSlots(t, r);
    forall n | 0 <= n < KERNEL_SLOT
      ensures t'.l1[r][n] == t.l1[r][n]
    {
      assert Slot(t', r, n) == Slot(t, r, n);
    }
    assert UserSlots(t', r) == slots;
    forall e | e in slots && e.Coarse?
      ensures CellsOf(t', e.base) == CellsOf(t, e.base)
    {
      var n :| 0 <= n < |slots| && slots[n] == e;
      SameCells(t, t', place, place', c.kernelRoot, r, n);
    }
    SlotsAgree(c, t, t', slots);
  }

  lemma AllottedStays(c: Layout, t: Tables, t': Tables, pool: Pool, pool': Pool, r: int)
    requires Allotted(c, t, pool, r) && Untouched(t, t', r) && Shaped(t')
    requires SameOrders(pool, pool') && Sound(pool', c.lo, c.hi) && SpaceRefs(c, t', r) <= pool'.refs
    ensures Allotted(c, t', pool', r)
  {
    assert c.PageOf(r) in SpaceRefs(c, t', r);
    forall i | 0 <= i < KERNEL_SLOT && Slot(t', r, i).Coarse?
      ensures Block(c.PageOf(Slot(t', r, i).base), KB1) in pool'.live
    {
      TableIsHeld(c, t', r, i);
      assert Slot(t', r, i) == Slot(t, r, i);
      assert Live(pool'.live, c.PageOf(Slot(t', r, i).base));
    }
    forall i, j | 0 <= i < KERNEL_SLOT && 0 <= j < LVL2_ENTRIES && UserCell(t', r, i, j).SmallPage?
      ensures Block(c.PageOf(UserCell(t', r, i, j).base), KB4) in pool'.live
    {
      PageIsHeld(c, t', r, i, j);
      assert UserCell(t', r, i, j) == UserCell(t, r, i, j);
      assert Live(pool'.live, c.PageOf(UserCell(t', r, i, j).base));
    }
  }

  /** From m to m' only the address space at root has changed, or was made or freed. */
  ghost predicate OnlyAt(c: Layout, m: Machine, m': Machine, root: int) {
    && Good(c, m) && Good(c, m')
    && m'.tables.l1.Keys - {root} == m.tables.l1.Keys - {root}
    && OthersUntouched(m.tables, m'.tables, root) && SameOrders(m.pool, m'.pool)
    && (root in Spaces(c, m'.tables) ==> Allotted(c, m'.tables, m'.pool, root))
  }

  lemma OthersSum(c: Layout, m: Machine, m': Machine, root: int)
    requires OnlyAt(c, m, m', root)
    ensures var others := Spaces(c, m.tables) - {root};
      && Spaces(c, m'.tables) - {root} == others
      && AllRefs(c, m'.tables, others) == AllRefs(c, m.tables, others)
  {
    var others := Spaces(c, m.tables) - {root};
    assert Spaces(c, m'.tables) - {root} == others by {
      forall r
        ensures r in Spaces(c, m'.tables) - {root} <==> r in others
      {
        assert r in m'.tables.l1.Keys - {root} <==> r in m.tables.l1.Keys - {root};
      }
    }
    forall r | r in others
      ensures SpaceRefs(c, m'.tables, r) == SpaceRefs(c, m.tables, r)
    {
      assert r in m'.tables.l1.Keys - {root};
      assert Untouched(m.tables, m'.tables, r);
      UntouchedRefs(c, m.tables, m'.tables, m.place, m'.place, r);
    }
    SameSum(c, m.tables, m'.tables, others);
  }

  lemma LeftOver(a: multiset<nat>, a': multiset<nat>, s: multiset<nat>, s': multiset<nat>, rest: multiset<nat>,
          given: multiset<nat>)
    requires s + rest + given <= a && a + s' <= a' + s + given
    ensures s' + rest <= a' && a - (s + rest) <= a' - (s' + rest) + given
  {
    forall p: nat
      ensures (s' + rest)[p] <= a'[p] && (a - (s + rest))[p] <= (a' - (s' + rest) + given)[p]
    {
      assert (s + rest + given)[p] <= a[p] && (a + s')[p] <= (a' + s + given)[p];
    }
  }

  /** If the address space has paid for what it gained, with references of the kernel where these are
      given, every process still owns its pages. */
  lemma OneSpaceChanged(c: Layout, m: Machine, m': Machine, root: int, given: multiset<nat>)
    requires AllOwned(c, m) && OnlyAt(c, m, m', root) && Held(c, m.tables) + given <= m.pool.refs
    requires m.pool.refs + HeldBy(c, m'.tables, root) <= m'.pool.refs + HeldBy(c, m.tables, root) + given
    ensures AllOwned(c, m') && Share(c, m) <= Share(c, m') + given
  {
    var others := Spaces(c, m.tables) - {root};
    var rest := AllRefs(c, m.tables, others);
    OthersSum(c, m, m', root);
    HeldWithout(c, m.tables, root);
    HeldWithout(c, m'.tables, root);
    LeftOver(m.pool.refs, m'.pool.refs, HeldBy(c, m.tables, root), HeldBy(c, m'.tables, root), rest, given);
    forall r | r in Spaces(c, m'.tables) && r != root
      ensures Allotted(c, m'.tables, m'.pool, r)
    {
      assert r in others;
      OtherOwned(c, m, m', root, r);
    }
  }

  lemma OtherOwned(c: Layout, m: Machine, m': Machine, root: int, r: int)
    requires AllOwned(c, m) && OnlyAt(c, m, m', root) && r in Spaces(c, m.tables) && r in Spaces(c, m'.tables)
    requires r != root
    requires Held(c, m'.tables) <= m'.pool.refs
    ensures Allotted(c, m'.tables, m'.pool, r)
  {
    assert Untouched(m.tables, m'.tables, r);
    PickOne(c, m'.tables, Spaces(c, m'.tables), r);
    AllottedStays(c, m.tables, m'.tables, m.pool, m'.pool, r);
  }

  lemma Exact(a: multiset<nat>, a': multiset<nat>, s: multiset<nat>, s': multiset<nat>, rest: multiset<nat>,
          given: multiset<nat>, back: multiset<nat>)
    requires s + rest <= a && s' + rest <= a' && a + s' + back == a' + s + given
    ensures a' - (s' + rest) + given == a - (s + rest) + back
  {
    forall p: nat
      ensures (a' - (s' + rest) + given)[p] == (a - (s + rest) + back)[p]
    {
      assert (s + rest)[p] <= a[p] && (s' + rest)[p] <= a'[p] && (a + s' + back)[p] == (a' + s + given)[p];
    }
  }

  /** What a process gives back is the kernel's again. */
  lemma ShareChanges(c: Layout, m: Machine, m': Machine, root: int, given: multiset<nat>, back: multiset<nat>)
    requires AllOwned(c, m) && AllOwned(c, m') && OnlyAt(c, m, m', root)
    requires m.pool.refs + HeldBy(c, m'.tables, root) + back == m'.pool.refs + HeldBy(c, m.tables, root) + given
    ensures Share(c, m') + given == Share(c, m) + back
  {
    OthersSum(c, m, m', root);
    HeldWithout(c, m.tables, root);
    HeldWithout(c, m'.tables, root);
    Exact(m.pool.refs, m'.pool.refs, HeldBy(c, m.tables, root), HeldBy(c, m'.tables, root),
          AllRefs(c, m.tables, Spaces(c, m.tables) - {root}), given, back);
  }

  // ----- Steps of the kernel -----

  /** A step that touches no user half but the kernel's own, frees nothing and gives up no reference. */
  ghost predicate KernelStep(c: Layout, m: Machine, m': Machine) {
    && Good(c, m) && Good(c, m') && m'.tables.l1.Keys == m.tables.l1.Keys
    && OthersUntouched(m.tables, m'.tables, c.kernelRoot)
    && m.pool.live <= m'.pool.live && m.pool.refs <= m'.pool.refs
  }

  /** References that the kernel takes for itself are its own. */
  lemma KernelStepGains(c: Layout, m: Machine, m': Machine, gained: multiset<nat>)
    requires AllOwned(c, m) && KernelStep(c, m, m') && m'.pool.refs == m.pool.refs + gained
    ensures AllOwned(c, m') && Share(c, m') == Share(c, m) + gained
  {
    assert m.pool.refs + multiset{} <= m'.pool.refs + multiset{} + multiset{};
    assert Held(c, m.tables) + multiset{} == Held(c, m.tables);
    OneSpaceChanged(c, m, m', c.kernelRoot, multiset{});
    assert m.pool.refs + multiset{} + gained == m'.pool.refs + multiset{} + multiset{};
    ShareChanges(c, m, m', c.kernelRoot, multiset{}, gained);
    assert Share(c, m') + multiset{} == Share(c, m');
  }

  lemma KernelStepKeeps(c: Layout, m: Machine, m': Machine)
    requires AllOwned(c, m) && KernelStep(c, m, m') && m'.pool.refs == m.pool.refs
    ensures AllOwned(c, m') && Share(c, m') == Share(c, m)
  {
    assert m.pool.refs + multiset{} == m.pool.refs;
    KernelStepGains(c, m, m', multiset{});
    assert Share(c, m) + multiset{} == Share(c, m);
  }

  lemma CopiedForKernel(c: Layout, m: Machine, root: int, i: int)
    requires Good(c, m) && root in m.tables.l1 && KERNEL_SLOT <= i < LVL1_ENTRIES && Slot(m.tables, root, i).Empty?
    ensures KernelStep(c, m, Copied(c, m, root, i))
  {
    CopiedIsGood(c, m, root, i);
    SlotsAfterPut(m.tables, root, i, Slot(m.tables, c.kernelRoot, i));
  }

  lemma HungForKernel(c: Layout, m: Machine, root: int, i: int)
    requires Good(c, m) && root in m.tables.l1 && 0 <= i < LVL1_ENTRIES && (root == c.kernelRoot || i >= KERNEL_SLOT)
    requires NeedsTable(m.tables, c.kernelRoot, root, i) && Take(m.pool.free, KB1).Took?
    ensures KernelStep(c, m, Hung(c, m, root, i))
    ensures Hung(c, m, root, i).pool.refs == m.pool.refs + multiset{Take(m.pool.free, KB1).page}
  {
    HungIsGood(c, m, root, i);
    AllocatedTableIsNew(c, m, KB1);
    AllocatedIsNew(m.pool, KB1, c.lo, c.hi);
    HungOutside(m.tables, m.place, c.kernelRoot, root, i, c.AddrOf(Take(m.pool.free, KB1).page));
  }

  lemma HungOutside(t: Tables, place: map<int, Place>, kernel: int, root: int, i: int, a: int)
    requires Consistent(t, place, kernel) && root in t.l1 && 0 <= i < LVL1_ENTRIES && a !in t.l2
    requires root == kernel || i >= KERNEL_SLOT
    ensures OthersUntouched(t, HangTable(t, kernel, root, i, a), kernel)
  {
    var t0 := AddTable(t, a);
    CellsAfterAdd(t, a);
    SlotsAfterPut(t0, root, i, Coarse(a));
    SlotsAfterPut(PutSlot(t0, root, i, Coarse(a)), kernel, i, Coarse(a));
  }

  lemma WrittenForKernel(c: Layout, m: Machine, root: int, i: int, j: int, e: Entry2)
    requires Good(c, m) && root in m.tables.l1 && 0 <= i < LVL1_ENTRIES && 0 <= j < LVL2_ENTRIES
    requires (root == c.kernelRoot || i >= KERNEL_SLOT) && Slot(m.tables, root, i).Coarse?
    ensures KernelStep(c, m, Filled(m, root, i, j, e)) && Filled(m, root, i, j, e).pool == m.pool
  {
    FilledIsGood(c, m, root, i, j, e);
    CellWritten(m.tables, m.place, c.kernelRoot, root, i, j, e);
  }

  // ----- Steps of a process -----

  lemma Spared(c: Layout, m: Machine, x: multiset<nat>)
    requires AllOwned(c, m)
    ensures x <= Share(c, m) <==> Held(c, m.tables) + x <= m.pool.refs
  {
    forall p: nat
      ensures x[p] <= Share(c, m)[p] <==> (Held(c, m.tables) + x)[p] <= m.pool.refs[p]
    {
    }
    if x <= Share(c, m) {
      forall p: nat
        ensures (Held(c, m.tables) + x)[p] <= m.pool.refs[p]
      {
        assert x[p] <= Share(c, m)[p];
      }
    }
  }

  /** A process that gains and pays for something. */
  lemma Balances(c: Layout, m: Machine, m': Machine, root: int)
    requires AllOwned(c, m) && OnlyAt(c, m, m', root)
    requires m.pool.refs + HeldBy(c, m'.tables, root) == m'.pool.refs + HeldBy(c, m.tables, root)
    ensures AllOwned(c, m') && Share(c, m') == Share(c, m)
  {
    assert Held(c, m.tables) + multiset{} == Held(c, m.tables);
    assert m'.pool.refs + HeldBy(c, m.tables, root) + multiset{} == m'.pool.refs + HeldBy(c, m.tables, root);
    OneSpaceChanged(c, m, m', root, multiset{});
    ShareChanges(c, m, m', root, multiset{}, multiset{});
    assert Share(c, m') + multiset{} == Share(c, m') && Share(c, m) + multiset{} == Share(c, m);
  }

  lemma HungForProcess(c: Layout, m: Machine, root: int, i: int)
    requires Good(c, m) && AllOwned(c, m) && root in Spaces(c, m.tables) && 0 <= i < KERNEL_SLOT
    requires Slot(m.tables, root, i).Empty? && Take(m.pool.free, KB1).Took?
    ensures var m' := Hung(c, m, root, i);
      AllOwned(c, m') && Share(c, m') == Share(c, m) && m.pool.live <= m'.pool.live
  {
    SpaceOwned(c, m, root);
    HungOnlyAt(c, m, root, i);
    Balances(c, m, Hung(c, m, root, i), root);
  }

  lemma HungOnlyAt(c: Layout, m: Machine, root: int, i: int)
    requires Good(c, m) && Owned(c, m.tables, m.pool, root) && root in Spaces(c, m.tables) && 0 <= i < KERNEL_SLOT
    requires Slot(m.tables, root, i).Empty? && Take(m.pool.free, KB1).Took?
    ensures var m' := Hung(c, m, root, i);
      && OnlyAt(c, m, m', root) && m.pool.live <= m'.pool.live
      && m.pool.refs + HeldBy(c, m'.tables, root) == m'.pool.refs + HeldBy(c, m.tables, root)
  {
    HungBalances(c, m, root, i);
    HungElsewhere(c, m, root, i);
  }

  lemma FilledOnlyAt(c: Layout, m: Machine, root: int, i: int, j: int, e: Entry2)
    requires Good(c, m) && AllOwned(c, m) && root in Spaces(c, m.tables) && 0 <= i < KERNEL_SLOT
    requires 0 <= j < LVL2_ENTRIES
    requires Slot(m.tables, root, i).Coarse? && UserCell(m.tables, root, i, j).Absent?
    requires e.SmallPage? && Held(c, m.tables) + CellRefs(c, e) <= m.pool.refs
    requires Block(c.PageOf(e.base), KB4) in m.pool.live
    ensures var m' := Filled(m, root, i, j, e);
      && OnlyAt(c, m, m', root) && m'.pool == m.pool && root in Spaces(c, m'.tables)
      && SpaceRefs(c, m'.tables, root) == SpaceRefs(c, m.tables, root) + CellRefs(c, e)
  {
    SpaceOwned(c, m, root);
    PickOne(c, m.tables, Spaces(c, m.tables), root);
    PartOf(SpaceRefs(c, m.tables, root), AllRefs(c, m.tables, Spaces(c, m.tables) - {root}), CellRefs(c, e),
        m.pool.refs);
    FilledIsGood(c, m, root, i, j, e);
    HandOver(c, m, root, i, j, e);
    CellWritten(m.tables, m.place, c.kernelRoot, root, i, j, e);
  }

  /** A page is handed over to a process. */
  lemma FilledForProcess(c: Layout, m: Machine, root: int, i: int, j: int, e: Entry2)
    requires Good(c, m) && AllOwned(c, m) && root in Spaces(c, m.tables) && 0 <= i < KERNEL_SLOT
    requires 0 <= j < LVL2_ENTRIES
    requires Slot(m.tables, root, i).Coarse? && UserCell(m.tables, root, i, j).Absent?
    requires e.SmallPage? && CellRefs(c, e) <= Share(c, m) && Block(c.PageOf(e.base), KB4) in m.pool.live
    ensures var m' := Filled(m, root, i, j, e);
      AllOwned(c, m') && Share(c, m') + CellRefs(c, e) == Share(c, m)
  {
    var m', given := Filled(m, root, i, j, e), CellRefs(c, e);
    Spared(c, m, given);
    FilledOnlyAt(c, m, root, i, j, e);
    TakenOver(c, m, m', root, given);
  }

  lemma TakenOver(c: Layout, m: Machine, m': Machine, root: int, given: multiset<nat>)
    requires AllOwned(c, m) && OnlyAt(c, m, m', root) && root in Spaces(c, m.tables) && root in Spaces(c, m'.tables)
    requires m'.pool == m.pool && Held(c, m.tables) + given <= m.pool.refs
    requires SpaceRefs(c, m'.tables, root) == SpaceRefs(c, m.tables, root) + given
    ensures AllOwned(c, m') && Share(c, m') + given == Share(c, m)
  {
    TakesOnly(m.pool.refs, SpaceRefs(c, m.tables, root), SpaceRefs(c, m'.tables, root), given);
    OneSpaceChanged(c, m, m', root, given);
    ShareChanges(c, m, m', root, given, multiset{});
    NothingAdded(Share(c, m));
  }

  lemma TakesOnly(a: multiset<nat>, s: multiset<nat>, s': multiset<nat>, given: multiset<nat>)
    requires s' == s + given
    ensures a + s' + multiset{} == a + s + given && a + s' <= a + s + given
  {
    assert a + s' == a + s + given;
  }

  lemma PartOf(s: multiset<nat>, rest: multiset<nat>, x: multiset<nat>, a: multiset<nat>)
    requires s + rest + x <= a
    ensures s + x <= a
  {
    forall p: nat
      ensures (s + x)[p] <= a[p]
    {
      assert (s + rest + x)[p] <= a[p];
    }
  }

  /** A process has given back, or lost hold of, some of what it had. */
  lemma GaveBack(c: Layout, m: Machine, m': Machine, child: int, held: multiset<nat>, lost: multiset<nat>)
    requires AllOwned(c, m) && OnlyAt(c, m, m', child) && held == HeldBy(c, m'.tables, child)
    requires child in Spaces(c, m.tables) && m.pool.refs + held + lost == m'.pool.refs + SpaceRefs(c, m.tables, child)
    ensures AllOwned(c, m') && Share(c, m') == Share(c, m) + lost
  {
    StillEnough(m.pool.refs, m'.pool.refs, SpaceRefs(c, m.tables, child), held, lost);
    assert Held(c, m.tables) + multiset{} == Held(c, m.tables);
    assert m'.pool.refs + SpaceRefs(c, m.tables, child) + multiset{} == m'.pool.refs + SpaceRefs(c, m.tables, child);
    OneSpaceChanged(c, m, m', child, multiset{});
    ShareChanges(c, m, m', child, multiset{}, lost);
    assert Share(c, m') + multiset{} == Share(c, m');
  }

  lemma StillEnough(a: multiset<nat>, a': multiset<nat>, s: multiset<nat>, s': multiset<nat>, x: multiset<nat>)
    requires a + s' + x == a' + s
    ensures a + s' <= a' + s
  {
    forall p: nat
      ensures (a + s')[p] <= (a' + s)[p]
    {
      assert (a + s' + x)[p] == (a' + s)[p];
    }
  }

  /** A process gives a page back. */
  lemma ClearedForProcess(c: Layout, m: Machine, root: int, i: int, j: int)
    requires Good(c, m) && AllOwned(c, m) && root in Spaces(c, m.tables) && 0 <= i < KERNEL_SLOT
    requires 0 <= j < LVL2_ENTRIES
    requires UserCell(m.tables, root, i, j).SmallPage?
    ensures var m' := Filled(m, root, i, j, Absent);
      AllOwned(c, m') && Share(c, m') == Share(c, m) + CellRefs(c, UserCell(m.tables, root, i, j))
  {
    var m', back := Filled(m, root, i, j, Absent), CellRefs(c, UserCell(m.tables, root, i, j));
    ClearedOnlyAt(c, m, root, i, j);
    assert m.pool.refs + SpaceRefs(c, m'.tables, root) + back == m.pool.refs + SpaceRefs(c, m.tables, root);
    GaveBack(c, m, m', root, SpaceRefs(c, m'.tables, root), back);
  }

  lemma ClearedOnlyAt(c: Layout, m: Machine, root: int, i: int, j: int)
    requires Good(c, m) && AllOwned(c, m) && root in Spaces(c, m.tables) && 0 <= i < KERNEL_SLOT
    requires 0 <= j < LVL2_ENTRIES
    requires UserCell(m.tables, root, i, j).SmallPage?
    ensures var m' := Filled(m, root, i, j, Absent);
      && OnlyAt(c, m, m', root) && m'.pool == m.pool && root in Spaces(c, m'.tables)
      && SpaceRefs(c, m.tables, root) == SpaceRefs(c, m'.tables, root) + CellRefs(c, UserCell(m.tables, root, i, j))
  {
    FilledIsGood(c, m, root, i, j, Absent);
    CellWritten(m.tables, m.place, c.kernelRoot, root, i, j, Absent);
    SpaceOwned(c, m, root);
    ClearCellRefs(c, m, root, i, j);
  }

  // ----- The operations -----

  /** Whether a page is mapped for a process, and not for the kernel. */
  predicate ForProcess(c: Layout, root: int, virt: Word) {
    root != c.kernelRoot && !KernelArea(virt)
  }

  /** A process is given only live pages, with a reference that nobody else holds. */
  ghost predicate Handed(c: Layout, m: Machine, root: int, virt: Word, e: Entry2) {
    ForProcess(c, root, virt) ==>
      e.SmallPage? && CellRefs(c, e) <= Share(c, m) && Block(c.PageOf(e.base), KB4) in m.pool.live
  }

  /** The page of the table that mapping needs and does not find. */
  function NewTable(c: Layout, m: Machine, root: int, virt: Word): multiset<nat> {
    var taken := Take(m.pool.free, KB1);
    if NeedsTable(m.tables, c.kernelRoot, root, Lvl1Index(virt)) && taken.Took? then multiset{taken.page}
    else multiset{}
  }

  /** What the kernel keeps of a table that mapping makes: that of a process belongs to the process. */
  function KeptTable(c: Layout, m: Machine, root: int, virt: Word): multiset<nat> {
    if ForProcess(c, root, virt) then multiset{} else NewTable(c, m, root, virt)
  }

  lemma EnsuredKeeps(c: Layout, m: Machine, root: int, virt: Word)
    requires Good(c, m) && AllOwned(c, m) && root in m.tables.l1 && virt != 0xffff_ffff
    requires !Slot(m.tables, root, Lvl1Index(virt)).Section?
    ensures var m' := Ensured(c, m, root, virt);
      AllOwned(c, m') && m.pool.live <= m'.pool.live && Share(c, m') == Share(c, m) + KeptTable(c, m, root, virt)
  {
    KernelAreaIsKernelSlots(virt);
    var i := Lvl1Index(virt);
    NothingAdded(Share(c, m));
    if Slot(m.tables, root, i).Empty? {
      if ForProcess(c, root, virt) {
        if Take(m.pool.free, KB1).Took? {
          HungForProcess(c, m, root, i);
        }
      } else {
        EnsuredForKernel(c, m, root, virt);
      }
    }
  }

  lemma EnsuredForKernel(c: Layout, m: Machine, root: int, virt: Word)
    requires Good(c, m) && AllOwned(c, m) && root in m.tables.l1 && virt != 0xffff_ffff
    requires Slot(m.tables, root, Lvl1Index(virt)).Empty? && !ForProcess(c, root, virt)
    ensures var m' := Ensured(c, m, root, virt);
      AllOwned(c, m') && m.pool.live <= m'.pool.live && Share(c, m') == Share(c, m) + NewTable(c, m, root, virt)
  {
    KernelAreaIsKernelSlots(virt);
    var i := Lvl1Index(virt);
    if KernelArea(virt) {
      var m1 := Copied(c, m, root, i);
      CopiedKeeps(c, m, root, i);
      if Slot(m1.tables, root, i).Empty? {
        assert NeedsTable(m.tables, c.kernelRoot, root, i);
        TableForKernel(c, m1, root, i);
      } else {
        NothingAdded(Share(c, m));
      }
    } else {
      TableForKernel(c, m, root, i);
    }
  }

  lemma CopiedKeeps(c: Layout, m: Machine, root: int, i: int)
    requires Good(c, m) && AllOwned(c, m) && root in m.tables.l1 && KERNEL_SLOT <= i < LVL1_ENTRIES
    requires Slot(m.tables, root, i).Empty?
    ensures var m' := Copied(c, m, root, i);
      && Good(c, m') && AllOwned(c, m') && Share(c, m') == Share(c, m) && m'.tables.l1.Keys == m.tables.l1.Keys
      && m'.pool == m.pool
      && Slot(m'.tables, root, i) == Slot(m.tables, c.kernelRoot, i) == Slot(m'.tables, c.kernelRoot, i)
  {
    CopiedIsGood(c, m, root, i);
    CopiedForKernel(c, m, root, i);
    KernelStepKeeps(c, m, Copied(c, m, root, i));
  }

  lemma TableForKernel(c: Layout, m: Machine, root: int, i: int)
    requires Good(c, m) && AllOwned(c, m) && root in m.tables.l1 && 0 <= i < LVL1_ENTRIES
    requires (root == c.kernelRoot || i >= KERNEL_SLOT) && NeedsTable(m.tables, c.kernelRoot, root, i)
    ensures var m', taken := Hung(c, m, root, i), Take(m.pool.free, KB1);
      && AllOwned(c, m') && m.pool.live <= m'.pool.live
      && Share(c, m') == Share(c, m) + if taken.Took? then multiset{taken.page} else multiset{}
  {
    if Take(m.pool.free, KB1).Took? {
      HungForKernel(c, m, root, i);
      KernelStepGains(c, m, Hung(c, m, root, i), multiset{Take(m.pool.free, KB1).page});
    } else {
      NothingAdded(Share(c, m));
    }
  }

  lemma NothingAdded(a: multiset<nat>)
    ensures a + multiset{} == a
  {
  }

  /** The reference that comes to a process with a page that is mapped for it. */
  ghost function Given(c: Layout, m: Machine, root: int, virt: Word, e: Entry2): multiset<nat> {
    if ForProcess(c, root, virt) && MapStep(c, m, root, virt, e).0.Mapped? then CellRefs(c, e) else multiset{}
  }

  /** Mapping a page for a process takes one reference to it from the kernel; mapping one for the kernel
      takes none, and leaves the kernel the table that it may need. */
  lemma MapKeeps(c: Layout, m: Machine, root: int, virt: Word, e: Entry2)
    requires Good(c, m) && AllOwned(c, m) && root in m.tables.l1 && virt != 0xffff_ffff && Handed(c, m, root, virt, e)
    ensures var m' := MapStep(c, m, root, virt, e).1;
      && AllOwned(c, m')
      && Share(c, m') + Given(c, m, root, virt, e) == Share(c, m) + KeptTable(c, m, root, virt)
  {
    var i, m1, m' := Lvl1Index(virt), Ensured(c, m, root, virt), MapStep(c, m, root, virt, e).1;
    MapCases(c, m, root, virt, e);
    if Slot(m.tables, root, i).Section? {
      NothingAdded(Share(c, m));
    } else {
      EnsuredKeeps(c, m, root, virt);
      if Writes(m1, root, virt) {
        StillHanded(c, m, m1, root, virt, e);
        WriteKeeps(c, m1, root, virt, e);
      } else {
        NothingAdded(Share(c, m1));
      }
    }
  }

  predicate Writes(m: Machine, root: int, virt: Word) {
    Slot(m.tables, root, Lvl1Index(virt)).Coarse? && UserCell(m.tables, root, Lvl1Index(virt), Lvl2Index(virt)).Absent?
  }

  lemma MapCases(c: Layout, m: Machine, root: int, virt: Word, e: Entry2)
    requires Good(c, m) && root in m.tables.l1 && virt != 0xffff_ffff
    ensures var m1, m', given := Ensured(c, m, root, virt), MapStep(c, m, root, virt, e).1, Given(c, m, root, virt, e);
      if Slot(m.tables, root, Lvl1Index(virt)).Section?
      then m' == m && given == multiset{} == KeptTable(c, m, root, virt)
      else
        && Good(c, m1) && root in m1.tables.l1
        && if Writes(m1, root, virt)
           then m' == Filled(m1, root, Lvl1Index(virt), Lvl2Index(virt), e)
                && given == if ForProcess(c, root, virt) then CellRefs(c, e) else multiset{}
           else m' == m1 && given == multiset{}
  {
    if !Slot(m.tables, root, Lvl1Index(virt)).Section? {
      MapStages(c, m, root, virt, e);
    }
  }

  lemma StillHanded(c: Layout, m: Machine, m1: Machine, root: int, virt: Word, e: Entry2)
    requires Handed(c, m, root, virt, e) && m.pool.live <= m1.pool.live
    requires Share(c, m1) == Share(c, m) + KeptTable(c, m, root, virt)
    ensures Handed(c, m1, root, virt, e)
  {
    if ForProcess(c, root, virt) {
      NothingAdded(Share(c, m));
    }
  }

  lemma WriteKeeps(c: Layout, m: Machine, root: int, virt: Word, e: Entry2)
    requires Good(c, m) && AllOwned(c, m) && root in m.tables.l1 && virt != 0xffff_ffff && Handed(c, m, root, virt, e)
    requires Writes(m, root, virt)
    ensures var m' := Filled(m, root, Lvl1Index(virt), Lvl2Index(virt), e);
      && AllOwned(c, m')
      && Share(c, m') + (if ForProcess(c, root, virt) then CellRefs(c, e) else multiset{}) == Share(c, m)
  {
    KernelAreaIsKernelSlots(virt);
    var i, j := Lvl1Index(virt), Lvl2Index(virt);
    if ForProcess(c, root, virt) {
      FilledForProcess(c, m, root, i, j, e);
    } else {
      WrittenForKernel(c, m, root, i, j, e);
      KernelStepKeeps(c, m, Filled(m, root, i, j, e));
      NothingAdded(Share(c, Filled(m, root, i, j, e)));
    }
  }

  /** Unmapping a page of a process gives the reference to it back to the kernel. */
  lemma UnmapKeeps(c: Layout, m: Machine, root: int, virt: Word)
    requires Good(c, m) && AllOwned(c, m) && root in m.tables.l1 && virt != 0xffff_ffff && !LastInTable(m, root, virt)
    ensures var m', e := UnmapStep(c, m, root, virt).1, UserCell(m.tables, root, Lvl1Index(virt), Lvl2Index(virt));
      AllOwned(c, m') && Share(c, m')
          == Share(c, m) + (if ForProcess(c, root, virt) then CellRefs(c, e) else multiset{})
  {
    KernelAreaIsKernelSlots(virt);
    var i, j, from := Lvl1Index(virt), Lvl2Index(virt), ServedFrom(c, root, virt);
    assert Share(c, m) + multiset{} == Share(c, m);
    if UserCell(m.tables, from, i, j).SmallPage? {
      UnmapStages(c, m, root, virt);
      if ForProcess(c, root, virt) {
        ClearedForProcess(c, m, root, i, j);
      } else {
        WrittenForKernel(c, m, from, i, j, Absent);
        KernelStepKeeps(c, m, Filled(m, from, i, j, Absent));
      }
    }
  }

  lemma CreateKeeps(c: Layout, m: Machine)
    requires Good(c, m) && AllOwned(c, m) && VectorReady(c, m)
    ensures AllOwned(c, CreateStep(c, m).1) && Share(c, CreateStep(c, m).1) == Share(c, m)
  {
    var (root, m') := CreateStep(c, m);
    CreateMakesSpace(c, m);
    if root.Some? {
      CreatedKeeps(c, m, m', root.value);
    } else {
      KernelStepKeeps(c, m, m');
    }
  }

  lemma CreatedKeeps(c: Layout, m: Machine, m': Machine, root: int)
    requires Good(c, m) && AllOwned(c, m) && Created(c, m, m', root)
    ensures AllOwned(c, m') && Share(c, m') == Share(c, m)
  {
    assert OnlyAt(c, m, m', root);
    assert m'.pool.refs + multiset{} == m.pool.refs + SpaceRefs(c, m'.tables, root);
    Balances(c, m, m', root);
  }

  lemma FaultKeeps(c: Layout, m: Machine, current: int, instruction: Word, fault: Word)
    requires Good(c, m) && AllOwned(c, m) && current in m.tables.l1
    ensures var m' := FaultStep(c, m, current, instruction, fault).1;
      AllOwned(c, m') && Share(c, m') == Share(c, m)
  {
    KernelAreaIsKernelSlots(fault);
    if FaultStep(c, m, current, instruction, fault).0.Fixed? {
      CopiedKeeps(c, m, current, Lvl1Index(fault));
    }
  }

  lemma SubtractAll(a: multiset<nat>, s: multiset<nat>)
    requires s <= a
    ensures a + multiset{} == a - s + s
  {
  }

  lemma ReleaseKeeps(c: Layout, m: Machine, m': Machine, root: int)
    requires Good(c, m) && AllOwned(c, m) && root in Spaces(c, m.tables) && Freed(c, m, m', root)
    ensures AllOwned(c, m') && Share(c, m') == Share(c, m)
  {
    FreedPays(c, m, m', root);
    Balances(c, m, m', root);
  }

  lemma FreedPays(c: Layout, m: Machine, m': Machine, root: int)
    requires Good(c, m) && AllOwned(c, m) && root in Spaces(c, m.tables) && Freed(c, m, m', root)
    ensures OnlyAt(c, m, m', root) && root !in m'.tables.l1
    ensures m.pool.refs + multiset{} == m'.pool.refs + SpaceRefs(c, m.tables, root)
  {
    SpaceOwned(c, m, root);
    ShrunkOrders(m.pool, m'.pool, c.lo, c.hi);
    SubtractAll(m.pool.refs, SpaceRefs(c, m.tables, root));
  }

  /** How many slots of the child a fork has overwritten: all, or, if it failed and the child is gone, those
      that it had come to. */
  ghost function StoppedAt(c: Layout, m: Machine, m': Machine, child: int): nat {
    if child in m'.tables.l1 || !(exists n :: GaveUpAt(c, m, m', child, n)) then KERNEL_SLOT
    else
      var n :| GaveUpAt(c, m, m', child, n);
      n
  }

  /** What a fork takes out of the child's slots and leaves to the kernel. */
  ghost function LeftByFork(c: Layout, m: Machine, m': Machine, child: int): multiset<nat> {
    Overwritten(c, m.tables, child, StoppedAt(c, m, m', child))
  }

  /** Forking leaves every process in possession of its pages, the child included. What hung in the slots
      of the child that were overwritten is left to the kernel, which has no use for it. */
  lemma ForkKeeps(c: Layout, m: Machine, f: Frames, m': Machine, f': Frames, parent: int, child: int)
    requires Good(c, m) && AllOwned(c, m) && child in Spaces(c, m.tables)
    requires Forked(c, m, f, m', f', parent, child) || Unforked(c, m, f, m', f', child)
    ensures AllOwned(c, m') && Share(c, m') == Share(c, m) + LeftByFork(c, m, m', child)
  {
    if Forked(c, m, f, m', f', parent, child) {
      assert SameOrders(m.pool, m'.pool);
      GaveBack(c, m, m', child, SpaceRefs(c, m'.tables, child), LeftByFork(c, m, m', child));
    } else {
      UnforkedPays(c, m, f, m', f', child);
      GaveBack(c, m, m', child, multiset{}, LeftByFork(c, m, m', child));
    }
  }

  lemma UnforkedPays(c: Layout, m: Machine, f: Frames, m': Machine, f': Frames, child: int)
    requires Good(c, m) && child in Spaces(c, m.tables) && Unforked(c, m, f, m', f', child)
    ensures OnlyAt(c, m, m', child) && child !in m'.tables.l1
    ensures m.pool.refs + multiset{} + LeftByFork(c, m, m', child) == m'.pool.refs + SpaceRefs(c, m.tables, child)
  {
    assert GaveUpAt(c, m, m', child, StoppedAt(c, m, m', child));
    NothingBetween(m.pool.refs, LeftByFork(c, m, m', child));
  }

  lemma NothingBetween(a: multiset<nat>, x: multiset<nat>)
    ensures a + multiset{} + x == a + x
  {
  }

  /** At boot there are no processes. */
  lemma NoProcesses(c: Layout, m: Machine)
    requires m.tables.l1.Keys == {c.kernelRoot}
    ensures AllOwned(c, m) && Share(c, m) == m.pool.refs
  {
    assert Spaces(c, m.tables) == {};
  }
}
