/** kernel/memory/vm.cpp: all interleavings of creating, mapping, unmapping, switching, forking and
    freeing address spaces and of repairing page faults. */
module Interleavings {
  import opened Descriptors
  import opened Translation
  import opened References
  import opened PhysicalAlloc
  import opened Lifetimes
  import opened Mapping
  import opened Creation
  import opened Forking
  import opened Accounts
  import opened VectorPage

  datatype World = World(m: Machine, frames: Frames, current: int)

  datatype Operation =
    | Create
    | Map(root: int, base: int, virt: Word, permissions: Permissions)
    | Unmap(root: int, virt: Word)
    | Switch(root: int)
    | Fault(instruction: Word, fault: Word)
    | Fork(parent: int, root: int)
    | Release(root: int)

  /** What the kernel demands of each call. Unmapping must not free a user table, which the code frees
      at an order at which it was not allocated. */
  ghost predicate Callable(c: Layout, w: World, op: Operation) {
    match op
    case Create => VectorReady(c, w.m)
    case Map(root, _, virt, _) => root in w.m.tables.l1 && virt != 0xffff_ffff
    case Unmap(root, virt) => root in w.m.tables.l1 && virt != 0xffff_ffff && !FreesTable(c, w.m, root, virt)
    case Switch(root) => root in w.m.tables.l1
    case Fault(_, _) => true
    case Fork(parent, root) => Forkable(c, w.m, parent, root) && root != w.current
    case Release(root) =>
      root in w.m.tables.l1 && Owned(c, w.m.tables, w.m.pool, root) && root != c.kernelRoot && root != w.current
  }

  ghost predicate Effect(c: Layout, w: World, op: Operation, w': World) {
    match op
    case Create => w' == w.(m := CreateStep(c, w.m).1)
    case Map(root, base, virt, p) => w' == w.(m := MapStep(c, w.m, root, virt, SmallPage(base, p)).1)
    case Unmap(root, virt) => w' == w.(m := UnmapStep(c, w.m, root, virt).1)
    case Switch(root) => w' == w.(current := root)
    case Fault(instruction, fault) => w' == w.(m := FaultStep(c, w.m, w.current, instruction, fault).1)
    case Fork(parent, root) =>
      && w'.current == w.current
      && (Forked(c, w.m, w.frames, w'.m, w'.frames, parent, root) || Unforked(c, w.m, w.frames, w'.m, w'.frames, root))
    case Release(root) => w' == w.(m := w'.m) && Freed(c, w.m, w'.m, root)
  }

  ghost predicate Next(c: Layout, w: World, op: Operation, w': World) {
    Callable(c, w, op) && Effect(c, w, op, w')
  }

  ghost predicate GoodWorld(c: Layout, w: World) {
    Good(c, w.m) && w.current in w.m.tables.l1
  }

  /** The address space whose own entries the operation changes. */
  predicate Aims(op: Operation, r: int) {
    match op
    case Map(root, _, _, _) => root == r
    case Unmap(root, _) => root == r
    case Fork(_, root) => root == r
    case Release(root) => root == r
    case _ => false
  }

  /** The address space exists as before, and its user pages are mapped as before. */
  ghost predicate UserMapKept(c: Layout, t: Tables, t': Tables, r: int) {
    && r in t'.l1
    && forall v :: 0 <= v < KERNEL_PAGE ==> View(t', c.kernelRoot, r, v) == View(t, c.kernelRoot, r, v)
  }

  lemma MapElsewhere(c: Layout, m: Machine, root: int, virt: Word, e: Entry2, r: int)
    requires Good(c, m) && root in m.tables.l1 && virt != 0xffff_ffff && r in m.tables.l1 && r != root
    ensures UserMapKept(c, m.tables, MapStep(c, m, root, virt, e).1.tables, r)
  {
    MapAddsOneEntry(c, m, root, virt, e);
  }

  lemma UnmapElsewhere(c: Layout, m: Machine, root: int, virt: Word, r: int)
    requires Good(c, m) && root in m.tables.l1 && virt != 0xffff_ffff && r in m.tables.l1 && r != root
    ensures UserMapKept(c, m.tables, UnmapStep(c, m, root, virt).1.tables, r)
  {
    UnmapRemovesOneEntry(c, m, root, virt);
  }

  lemma UnmapStaysGood(c: Layout, w: World, root: int, virt: Word)
    requires GoodWorld(c, w) && Callable(c, w, Unmap(root, virt))
    ensures GoodWorld(c, w.(m := UnmapStep(c, w.m, root, virt).1))
  {
    UnmapRemovesOneEntry(c, w.m, root, virt);
    UnmapIsGood(c, w.m, root, virt);
  }

  lemma MapStaysGood(c: Layout, w: World, root: int, virt: Word, e: Entry2)
    requires GoodWorld(c, w) && root in w.m.tables.l1 && virt != 0xffff_ffff
    ensures GoodWorld(c, w.(m := MapStep(c, w.m, root, virt, e).1))
  {
    MapAddsOneEntry(c, w.m, root, virt, e);
  }

  lemma StepIsGood(c: Layout, w: World, op: Operation, w': World)
    requires GoodWorld(c, w) && Next(c, w, op, w')
    ensures GoodWorld(c, w')
  {
    match op {
      case Create => CreateMakesSpace(c, w.m);
      case Map(root, base, virt, p) => MapStaysGood(c, w, root, virt, SmallPage(base, p));
      case Unmap(root, virt) => UnmapStaysGood(c, w, root, virt);
      case Switch(root) =>
      case Fault(instruction, fault) => FaultRepaired(c, w.m, w.current, instruction, fault);
      case Fork(parent, root) =>
      case Release(root) =>
    }
  }

  lemma StepKeepsOthers(c: Layout, w: World, op: Operation, w': World, r: int)
    requires GoodWorld(c, w) && Next(c, w, op, w') && r in w.m.tables.l1 && !Aims(op, r)
    ensures UserMapKept(c, w.m.tables, w'.m.tables, r)
  {
    match op {
      case Create => CreateMakesSpace(c, w.m);
      case Map(root, base, virt, p) => MapElsewhere(c, w.m, root, virt, SmallPage(base, p), r);
      case Unmap(root, virt) => UnmapElsewhere(c, w.m, root, virt, r);
      case Switch(root) =>
      case Fault(instruction, fault) => FaultRepaired(c, w.m, w.current, instruction, fault);
      case Fork(parent, root) =>
      case Release(root) =>
    }
  }

  ghost predicate IsRun(c: Layout, worlds: seq<World>, ops: seq<Operation>) {
    && |worlds| == |ops| + 1 && GoodWorld(c, worlds[0])
    && forall i :: 0 <= i < |ops| ==> Next(c, worlds[i], ops[i], worlds[i + 1])
  }

  /** In every run, every address space shares the kernel's slots: each is the kernel's own entry or
      still empty. */
  lemma {:induction false} EveryRunSharesTheKernel(c: Layout, worlds: seq<World>, ops: seq<Operation>, k: nat)
    requires IsRun(c, worlds, ops) && k < |worlds|
    ensures GoodWorld(c, worlds[k])
    ensures forall r, n :: r in worlds[k].m.tables.l1 && KERNEL_SLOT <= n < LVL1_ENTRIES ==>
      Slot(worlds[k].m.tables, r, n).Empty? || Slot(worlds[k].m.tables, r, n)
          == Slot(worlds[k].m.tables, c.kernelRoot, n)
  {
    if k > 0 {
      EveryRunSharesTheKernel(c, worlds, ops, k - 1);
      StepIsGood(c, worlds[k - 1], ops[k - 1], worlds[k]);
    }
  }

  /** In every run, an address space that no operation is aimed at keeps its user pages, whatever happens
      to the others. */
  lemma {:induction false} EveryRunKeepsOthers(c: Layout, worlds: seq<World>, ops: seq<Operation>, k: nat, r: int)
    requires IsRun(c, worlds, ops) && k < |worlds| && r in worlds[0].m.tables.l1
    requires forall i :: 0 <= i < k ==> !Aims(ops[i], r)
    ensures UserMapKept(c, worlds[0].m.tables, worlds[k].m.tables, r)
  {
    if k > 0 {
      EveryRunKeepsOthers(c, worlds, ops, k - 1, r);
      EveryRunSharesTheKernel(c, worlds, ops, k - 1);
      StepKeepsOthers(c, worlds[k - 1], ops[k - 1], worlds[k], r);
    }
  }

  /** In every run, when kernel code misses a kernel page that is mapped, the fault is repaired, and the
      hardware then finds the page. */
  lemma MissedPagesAreRepaired(c: Layout, worlds: seq<World>, ops: seq<Operation>, k: nat, instruction: Word,
          virt: Word)
    requires IsRun(c, worlds, ops) && k < |worlds| && KernelArea(instruction) && KernelArea(virt)
    requires var t, root := worlds[k].m.tables, worlds[k].current;
      var e := View(t, c.kernelRoot, root, virt / 0x1000);
      e.SmallPage? && Walk(t, root, virt / 0x1000) != e
    ensures var t, root := worlds[k].m.tables, worlds[k].current;
      var (result, m') := FaultStep(c, worlds[k].m, root, instruction, virt);
      result.Fixed? && Walk(m'.tables, root, virt / 0x1000) == View(t, c.kernelRoot, root, virt / 0x1000)
  {
    EveryRunSharesTheKernel(c, worlds, ops, k);
    KernelAreaIsKernelSlots(virt);
    IndicesSplitAddress(virt);
    var t, root, i := worlds[k].m.tables, worlds[k].current, Lvl1Index(virt);
    assert Slot(t, root, i).Empty? || Slot(t, root, i) == Slot(t, c.kernelRoot, i);
    FaultRepaired(c, worlds[k].m, root, instruction, virt);
  }

  // ----- Who owns what -----

  /** What remains for the callers to see to: a process is mapped pages with a reference that comes with
      them, no user table is emptied, and only processes are forked and freed. */
  ghost predicate Asked(c: Layout, w: World, op: Operation) {
    match op
    case Create => VectorReady(c, w.m)
    case Map(root, base, virt, p) =>
      root in w.m.tables.l1 && virt != 0xffff_ffff && Handed(c, w.m, root, virt, SmallPage(base, p))
    case Unmap(root, virt) => root in w.m.tables.l1 && virt != 0xffff_ffff && !LastInTable(w.m, root, virt)
    case Switch(root) => root in w.m.tables.l1
    case Fault(_, _) => true
    case Fork(parent, root) =>
      && parent in Spaces(c, w.m.tables) && root in Spaces(c, w.m.tables) && parent != root && root != w.current
      && (forall n :: 0 <= n < KERNEL_SLOT && !Slot(w.m.tables, root, n).Empty? ==> !Slot(w.m.tables, parent, n).Empty?)
    case Release(root) => root in Spaces(c, w.m.tables) && root != w.current
  }

  ghost predicate OwnedWorld(c: Layout, w: World) {
    GoodWorld(c, w) && AllOwned(c, w.m)
  }

  /** Every process can be forked and freed. */
  lemma AskedIsCallable(c: Layout, w: World, op: Operation)
    requires OwnedWorld(c, w) && Asked(c, w, op)
    ensures Callable(c, w, op)
  {
    match op {
      case Fork(parent, root) =>
        SpaceOwned(c, w.m, parent);
        SpaceOwned(c, w.m, root);
      case Release(root) => SpaceOwned(c, w.m, root);
      case _ =>
    }
  }

  /** What the kernel gives away: the reference that a process is given with a page mapped for it. */
  ghost function GivenAway(c: Layout, w: World, op: Operation): multiset<nat> {
    match op
    case Map(root, base, virt, p) => Given(c, w.m, root, virt, SmallPage(base, p))
    case _ => multiset{}
  }

  /** What comes to the kernel: the reference that a process gives back with a page that is unmapped, the
      table that the kernel needs for a page of its own, what a fork takes out of the child's slots. */
  ghost function ComesBack(c: Layout, w: World, op: Operation, w': World): multiset<nat> {
    match op
    case Map(root, _, virt, _) => KeptTable(c, w.m, root, virt)
    case Unmap(root, virt) =>
      if ForProcess(c, root, virt) then CellRefs(c, UserCell(w.m.tables, root, Lvl1Index(virt), Lvl2Index(virt)))
      else multiset{}
    case Fork(_, root) => LeftByFork(c, w.m, w'.m, root)
    case _ => multiset{}
  }

  /** The kernel's share shrinks by what it gives away and grows by what comes to it. */
  ghost predicate Conserved(c: Layout, w: World, op: Operation, w': World) {
    Share(c, w'.m) + GivenAway(c, w, op) == Share(c, w.m) + ComesBack(c, w, op, w')
  }

  lemma MapOwns(c: Layout, w: World, root: int, base: int, virt: Word, p: Permissions)
    requires OwnedWorld(c, w) && Asked(c, w, Map(root, base, virt, p))
    ensures var w' := w.(m := MapStep(c, w.m, root, virt, SmallPage(base, p)).1);
      AllOwned(c, w'.m) && Conserved(c, w, Map(root, base, virt, p), w')
  {
    MapKeeps(c, w.m, root, virt, SmallPage(base, p));
  }

  lemma UnmapOwns(c: Layout, w: World, root: int, virt: Word)
    requires OwnedWorld(c, w) && Asked(c, w, Unmap(root, virt))
    ensures var w' := w.(m := UnmapStep(c, w.m, root, virt).1);
      AllOwned(c, w'.m) && Conserved(c, w, Unmap(root, virt), w')
  {
    UnmapKeeps(c, w.m, root, virt);
    NothingAdded(Share(c, UnmapStep(c, w.m, root, virt).1));
  }

  /** Each operation leaves every process in possession of its pages, and loses no reference. */
  lemma StepOwns(c: Layout, w: World, op: Operation, w': World)
    requires OwnedWorld(c, w) && Asked(c, w, op) && Effect(c, w, op, w')
    ensures OwnedWorld(c, w') && Conserved(c, w, op, w')
  {
    AskedIsCallable(c, w, op);
    StepIsGood(c, w, op, w');
    NothingAdded(Share(c, w.m));
    NothingAdded(Share(c, w'.m));
    match op {
      case Create => CreateKeeps(c, w.m);
      case Map(root, base, virt, p) => MapOwns(c, w, root, base, virt, p);
      case Unmap(root, virt) => UnmapOwns(c, w, root, virt);
      case Switch(root) =>
      case Fault(instruction, fault) => FaultKeeps(c, w.m, w.current, instruction, fault);
      case Fork(parent, root) => ForkKeeps(c, w.m, w.frames, w'.m, w'.frames, parent, root);
      case Release(root) => ReleaseKeeps(c, w.m, w'.m, root);
    }
  }

  ghost predicate IsAskedRun(c: Layout, worlds: seq<World>, ops: seq<Operation>) {
    && |worlds| == |ops| + 1 && OwnedWorld(c, worlds[0])
    && forall i :: 0 <= i < |ops| ==> Asked(c, worlds[i], ops[i]) && Effect(c, worlds[i], ops[i], worlds[i + 1])
  }

  /** In every run, every process owns its pages, so that it can be freed at any time; together the
      processes hold no more references than are counted. */
  lemma {:induction false} EveryRunOwns(c: Layout, worlds: seq<World>, ops: seq<Operation>, k: nat)
    requires IsAskedRun(c, worlds, ops) && k < |worlds|
    ensures OwnedWorld(c, worlds[k]) && (k < |ops| ==> Callable(c, worlds[k], ops[k]))
  {
    if k > 0 {
      EveryRunOwns(c, worlds, ops, k - 1);
      StepOwns(c, worlds[k - 1], ops[k - 1], worlds[k]);
    }
    if k < |ops| {
      AskedIsCallable(c, worlds[k], ops[k]);
    }
  }

  // ----- Creation is always possible -----

  /** What the vector page asks for: that no process is given the kernel's reference to it, and that it is
      not unmapped. Of the creation of an address space nothing is asked. */
  ghost predicate Sparing(c: Layout, w: World, op: Operation) {
    match op
    case Create => true
    case Map(root, base, virt, p) =>
      && Asked(c, w, op)
      && Given(c, w.m, root, virt, SmallPage(base, p)) + VectorRefs(c, w.m) <= Share(c, w.m)
    case Unmap(root, virt) => Asked(c, w, op) && !AtVector(c, root, virt)
    case _ => Asked(c, w, op)
  }

  lemma StepKeepsVector(c: Layout, w: World, op: Operation, w': World)
    requires OwnedWorld(c, w) && VectorKept(c, w.m) && Sparing(c, w, op) && Effect(c, w, op, w')
    ensures Asked(c, w, op) && VectorKept(c, w'.m)
  {
    match op {
      case Create => CreateKeepsVector(c, w.m);
      case Map(root, base, virt, p) => MapKeepsVector(c, w.m, root, virt, SmallPage(base, p));
      case Unmap(root, virt) => UnmapKeepsVector(c, w.m, root, virt);
      case Switch(root) =>
      case Fault(instruction, fault) => FaultKeepsVector(c, w.m, w.current, instruction, fault);
      case Fork(parent, root) => ForkKeepsVector(c, w.m, w.frames, w'.m, w'.frames, parent, root);
      case Release(root) => ReleaseKeepsVector(c, w.m, w'.m, root);
    }
  }

  ghost predicate IsSparingRun(c: Layout, worlds: seq<World>, ops: seq<Operation>) {
    && |worlds| == |ops| + 1 && OwnedWorld(c, worlds[0]) && VectorKept(c, worlds[0].m)
    && forall i :: 0 <= i < |ops| ==> Sparing(c, worlds[i], ops[i]) && Effect(c, worlds[i], ops[i], worlds[i + 1])
  }

  /** In every such run, address spaces can be created at any time, and every operation may be called. */
  lemma {:induction false} EveryRunKeepsVector(c: Layout, worlds: seq<World>, ops: seq<Operation>, k: nat)
    requires IsSparingRun(c, worlds, ops) && k < |worlds|
    ensures OwnedWorld(c, worlds[k]) && VectorKept(c, worlds[k].m) && (k < |ops| ==> Asked(c, worlds[k], ops[k]))
  {
    if k > 0 {
      EveryRunKeepsVector(c, worlds, ops, k - 1);
      StepKeepsVector(c, worlds[k - 1], ops[k - 1], worlds[k]);
      StepOwns(c, worlds[k - 1], ops[k - 1], worlds[k]);
    }
  }

  /** Such a run is one of those that everything else is said of. */
  lemma SparingIsAsked(c: Layout, worlds: seq<World>, ops: seq<Operation>)
    requires IsSparingRun(c, worlds, ops)
    ensures IsAskedRun(c, worlds, ops)
  {
    forall i | 0 <= i < |ops|
      ensures Asked(c, worlds[i], ops[i])
    {
      EveryRunKeepsVector(c, worlds, ops, i);
    }
  }

  // ----- Conservation over a run -----

  /** What the kernel gave away, and what came to it, in the first k operations. */
  ghost function AllGivenAway(c: Layout, worlds: seq<World>, ops: seq<Operation>, k: nat): multiset<nat>
    requires k <= |ops| <= |worlds|
  {
    if k == 0 then multiset{} else AllGivenAway(c, worlds, ops, k - 1) + GivenAway(c, worlds[k - 1], ops[k - 1])
  }

  ghost function AllComesBack(c: Layout, worlds: seq<World>, ops: seq<Operation>, k: nat): multiset<nat>
    requires k <= |ops| < |worlds|
  {
    if k == 0 then multiset{}
    else AllComesBack(c, worlds, ops, k - 1) + ComesBack(c, worlds[k - 1], ops[k - 1], worlds[k])
  }

  lemma SumExact(a: multiset<nat>, a1: multiset<nat>, a2: multiset<nat>, g: multiset<nat>, g1: multiset<nat>,
          b: multiset<nat>, b1: multiset<nat>)
    requires a1 + g == a + b && a2 + g1 == a1 + b1
    ensures a2 + (g + g1) == a + (b + b1)
  {
    forall p: nat
      ensures (a2 + (g + g1))[p] == (a + (b + b1))[p]
    {
      assert (a1 + g)[p] == (a + b)[p] && (a2 + g1)[p] == (a1 + b1)[p];
    }
  }

  lemma StepConserves(c: Layout, worlds: seq<World>, ops: seq<Operation>, k: nat)
    requires IsAskedRun(c, worlds, ops) && k < |ops|
    ensures Conserved(c, worlds[k], ops[k], worlds[k + 1])
  {
    EveryRunOwns(c, worlds, ops, k);
    StepOwns(c, worlds[k], ops[k], worlds[k + 1]);
  }

  lemma ConservedNext(c: Layout, start: World, w: World, op: Operation, w': World, given: multiset<nat>,
          back: multiset<nat>)
    requires Share(c, w.m) + given == Share(c, start.m) + back && Conserved(c, w, op, w')
    ensures Share(c, w'.m) + (given + GivenAway(c, w, op)) == Share(c, start.m) + (back + ComesBack(c, w, op, w'))
  {
    SumExact(Share(c, start.m), Share(c, w.m), Share(c, w'.m), given, GivenAway(c, w, op), back,
             ComesBack(c, w, op, w'));
  }

  lemma {:induction false} AllConserved(c: Layout, worlds: seq<World>, ops: seq<Operation>, k: nat)
    requires k <= |ops| < |worlds|
    requires forall i: nat :: i < k ==> Conserved(c, worlds[i], ops[i], worlds[i + 1])
    ensures Share(c, worlds[k].m) + AllGivenAway(c, worlds, ops, k)
         == Share(c, worlds[0].m) + AllComesBack(c, worlds, ops, k)
  {
    if k > 0 {
      AllConserved(c, worlds, ops, k - 1);
      assert Conserved(c, worlds[k - 1], ops[k - 1], worlds[k - 1 + 1]);
      ConservedNext(c, worlds[0], worlds[k - 1], ops[k - 1], worlds[k], AllGivenAway(c, worlds, ops, k - 1),
                    AllComesBack(c, worlds, ops, k - 1));
    }
  }

  /** In every run, the references that no process holds are exactly those that there were, less what the
      kernel gave away, plus what came to it, however processes come, fork and go. */
  lemma EveryRunConserves(c: Layout, worlds: seq<World>, ops: seq<Operation>, k: nat)
    requires IsAskedRun(c, worlds, ops) && k <= |ops|
    ensures Share(c, worlds[k].m) + AllGivenAway(c, worlds, ops, k)
         == Share(c, worlds[0].m) + AllComesBack(c, worlds, ops, k)
  {
    forall i: nat | i < k
      ensures Conserved(c, worlds[i], ops[i], worlds[i + 1])
    {
      StepConserves(c, worlds, ops, i);
    }
    AllConserved(c, worlds, ops, k);
  }

  /** A run from a machine without processes to one without processes leaves every page with the count it
      had, but for what the kernel gave away and what came to it. */
  lemma ProcessesLeaveNoTrace(c: Layout, worlds: seq<World>, ops: seq<Operation>)
    requires IsAskedRun(c, worlds, ops)
    requires worlds[0].m.tables.l1.Keys == {c.kernelRoot} && worlds[|ops|].m.tables.l1.Keys == {c.kernelRoot}
    ensures worlds[|ops|].m.pool.refs + AllGivenAway(c, worlds, ops, |ops|)
         == worlds[0].m.pool.refs + AllComesBack(c, worlds, ops, |ops|)
  {
    EveryRunConserves(c, worlds, ops, |ops|);
    NoProcesses(c, worlds[0].m);
    NoProcesses(c, worlds[|ops|].m);
  }
}
