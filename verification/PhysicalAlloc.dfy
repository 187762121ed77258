/** kernel/memory/physicalalloc.cpp: the 1/4/16 KB splitting page allocator.

    Memory is counted in units of 1 KB; a page is named by the index of its PhysicalPage. */
module PhysicalAlloc {

  datatype Order = KB1 | KB4 | KB16

  function Units(o: Order): nat {
    match o case KB1 => 1 case KB4 => 4 case KB16 => 16
  }

  function Rank(o: Order): nat {
    match o case KB1 => 0 case KB4 => 1 case KB16 => 2
  }

  function Bigger(o: Order): Order
    requires o != KB16
  {
    if o == KB1 then KB4 else KB16
  }

  function Smaller(o: Order): Order
    requires o != KB1
  {
    if o == KB16 then KB4 else KB1
  }

  datatype Block = Block(start: nat, order: Order) {
    function End(): nat {
      start + Units(order)
    }
  }

  // ----- Tilings -----

  predicate Aligned(b: Block) {
    b.start % Units(b.order) == 0
  }

  predicate Inside(u: int, b: Block) {
    b.start <= u < b.End()
  }

  ghost predicate Fit(blocks: iset<Block>, lo: nat, hi: nat) {
    forall b :: b in blocks ==> Aligned(b) && lo <= b.start && b.End() <= hi
  }

  ghost predicate Disjoint(blocks: iset<Block>) {
    forall b, c, u {:trigger Inside(u, b), Inside(u, c)} ::
      b in blocks && c in blocks && Inside(u, b) && Inside(u, c) ==> b == c
  }

  ghost predicate Covered(blocks: iset<Block>, u: int) {
    exists b :: b in blocks && Inside(u, b)
  }

  /** Size-aligned, pairwise disjoint blocks that together cover exactly [lo, hi). */
  ghost predicate Tiles(blocks: iset<Block>, lo: nat, hi: nat) {
    Fit(blocks, lo, hi) && Disjoint(blocks) && forall u :: lo <= u < hi ==> Covered(blocks, u)
  }

  function Child(b: Block, i: nat): Block
    requires b.order != KB1 && i < 4
  {
    Block(b.start + i * Units(Smaller(b.order)), Smaller(b.order))
  }

  ghost function Children(b: Block): iset<Block>
    requires b.order != KB1
  {
    iset{Child(b, 0), Child(b, 1), Child(b, 2), Child(b, 3)}
  }

  lemma ChildPlace(b: Block, i: nat)
    requires b.order != KB1 && Aligned(b) && i < 4
    ensures Aligned(Child(b, i))
    ensures Child(b, i).start == b.start + (if b.order == KB16 then 4 * i else i)
    ensures b.start <= Child(b, i).start && Child(b, i).End() <= b.End()
  {
    if b.order == KB16 {
      var q := b.start / 16;
      assert b.start == 4 * (4 * q);
      MultipleOf4(4 * q + i);
      assert Child(b, i) == Block(4 * (4 * q + i), KB4);
    } else {
      assert Child(b, i) == Block(b.start + i, KB1);
    }
  }

  lemma MultipleOf4(x: nat)
    ensures 4 * x % 4 == 0
  {
  }

  lemma ChildrenTile(b: Block)
    requires b.order != KB1 && Aligned(b)
    ensures Tiles(Children(b), b.start, b.End())
  {
    var size := if b.order == KB16 then 4 else 1;
    ChildPlace(b, 0);
    ChildPlace(b, 1);
    ChildPlace(b, 2);
    ChildPlace(b, 3);
    forall u | b.start <= u < b.End()
      ensures Covered(Children(b), u)
    {
      var c := if u < b.start + size then Child(b, 0) else if u < b.start + 2 * size then Child(b, 1)
               else if u < b.start + 3 * size then Child(b, 2) else Child(b, 3);
      assert c in Children(b) && Inside(u, c);
    }
  }

  /** Replacing a block by smaller ones that tile it keeps the tiling. */
  lemma ReplaceTiles(blocks: iset<Block>, b: Block, parts: iset<Block>, lo: nat, hi: nat)
    requires Tiles(blocks, lo, hi) && b in blocks && Tiles(parts, b.start, b.End())
    ensures Tiles(blocks - iset{b} + parts, lo, hi)
  {
    var blocks' := blocks - iset{b} + parts;
    forall u | lo <= u < hi
      ensures Covered(blocks', u)
    {
      assert Covered(blocks, u);
      var c :| c in blocks && Inside(u, c);
      if c == b {
        assert Covered(parts, u);
        var part :| part in parts && Inside(u, part);
        assert part in blocks';
      } else {
        assert c in blocks';
      }
    }
    forall c, d, u | c in blocks' && d in blocks' && Inside(u, c) && Inside(u, d)
      ensures c == d
    {
      assert c in parts || d in parts ==> Inside(u, b);
    }
  }

  lemma SameStart(blocks: iset<Block>, b: Block, c: Block)
    requires Disjoint(blocks) && b in blocks && c in blocks && b.start == c.start
    ensures b == c
  {
    assert Inside(b.start, b) && Inside(b.start, c);
  }

  /** A block of another order at the place of a block of the tiling overlaps a neighbour, leaves a
      gap or sticks out: only the order it was cut at restores the tiling. */
  lemma OnlyItsOwnOrderFits(blocks: iset<Block>, b: Block, order: Order, lo: nat, hi: nat)
    requires Tiles(blocks, lo, hi) && b in blocks
    ensures Tiles(blocks - iset{b} + iset{Block(b.start, order)}, lo, hi) <==> order == b.order
  {
    var other := Block(b.start, order);
    var blocks' := blocks - iset{b} + iset{other};
    if order == b.order {
      assert blocks' == blocks;
    } else if Tiles(blocks', lo, hi) {
      assert other in blocks';
      if Units(order) < Units(b.order) {
        // The first unit past the smaller block is left uncovered.
        var u := other.End();
        assert Covered(blocks', u);
        var c :| c in blocks' && Inside(u, c);
        assert Inside(u, b);
      } else {
        // The first unit past the old block is covered twice.
        var u := b.End();
        assert Covered(blocks, u);
        var c :| c in blocks && Inside(u, c);
        assert c == other by {
          assert c in blocks' && Inside(u, other);
        }
        SameStart(blocks, b, c);
      }
    }
  }

  // ----- The free lists -----

  datatype Lists = Lists(kb1: seq<nat>, kb4: seq<nat>, kb16: seq<nat>) {
    function Of(o: Order): seq<nat> {
      match o case KB1 => kb1 case KB4 => kb4 case KB16 => kb16
    }

    function With(o: Order, s: seq<nat>): Lists {
      match o case KB1 => this.(kb1 := s) case KB4 => this.(kb4 := s) case KB16 => this.(kb16 := s)
    }
  }

  predicate NoRepeats(s: seq<nat>) {
    forall i, j :: 0 <= i < j < |s| ==> s[i] != s[j]
  }

  predicate NoneRepeats(f: Lists) {
    NoRepeats(f.kb1) && NoRepeats(f.kb4) && NoRepeats(f.kb16)
  }

  ghost function FreeBlocks(f: Lists): iset<Block> {
    iset b: Block | b.start in f.Of(b.order)
  }

  /** The free blocks and the taken ones tile the managed memory, and no block is listed twice. */
  ghost predicate Partition(f: Lists, taken: iset<Block>, lo: nat, hi: nat) {
    && NoneRepeats(f)
    && FreeBlocks(f) !! taken
    && Tiles(FreeBlocks(f) + taken, lo, hi)
  }

  function Push(f: Lists, p: nat, o: Order): Lists {
    f.With(o, [p] + f.Of(o))
  }

  function Pop(f: Lists, o: Order): Lists
    requires f.Of(o) != []
  {
    f.With(o, f.Of(o)[1..])
  }

  /** Splitting pushes the four quarters in address order, so the last one ends up in front. */
  function PushQuarters(f: Lists, b: Block, n: nat): Lists
    requires b.order != KB1 && n <= 4
  {
    if n == 0 then f else Push(PushQuarters(f, b, n - 1), Child(b, n - 1).start, Smaller(b.order))
  }

  lemma LastQuarterFirst(f: Lists, b: Block)
    requires b.order != KB1
    ensures PushQuarters(f, b, 4).Of(Smaller(b.order)) != []
  {
  }

  /** The lists once a page of the next larger order is split. */
  function Refilled(larger: Taken, o: Order): Lists
    requires o != KB16 && larger.Took?
  {
    PushQuarters(larger.rest, Block(larger.page, Bigger(o)), 4)
  }

  datatype Taken = OutOfMemory | Took(page: nat, rest: Lists)

  /** Takes the first page of the list, splitting a page of the next larger order when it is empty. */
  function Take(f: Lists, o: Order): (t: Taken)
    ensures t.OutOfMemory? <==> forall o' :: Rank(o') >= Rank(o) ==> f.Of(o') == []
    decreases 2 - Rank(o)
  {
    if f.Of(o) != [] then Took(f.Of(o)[0], Pop(f, o))
    else if o == KB16 then OutOfMemory
    else
      var larger := Take(f, Bigger(o));
      if larger.OutOfMemory? then OutOfMemory
      else
        LastQuarterFirst(larger.rest, Block(larger.page, Bigger(o)));
        Took(Refilled(larger, o).Of(o)[0], Pop(Refilled(larger, o), o))
  }

  lemma FirstOnce(s: seq<nat>)
    requires s != [] && NoRepeats(s)
    ensures NoRepeats(s[1..]) && s[0] !in s[1..]
    ensures forall p :: p in s <==> p == s[0] || p in s[1..]
  {
    assert s == [s[0]] + s[1..];
  }

  lemma PopKeepsPartition(f: Lists, taken: iset<Block>, o: Order, lo: nat, hi: nat)
    requires Partition(f, taken, lo, hi) && f.Of(o) != []
    ensures var b := Block(f.Of(o)[0], o);
      b !in taken && Partition(Pop(f, o), taken + iset{b}, lo, hi)
  {
    var b, g := Block(f.Of(o)[0], o), Pop(f, o);
    FirstOnce(f.Of(o));
    OthersKept(f, o, f.Of(o)[1..]);
    assert b in FreeBlocks(f);
    assert FreeBlocks(g) == FreeBlocks(f) - iset{b};
    assert FreeBlocks(g) + (taken + iset{b}) == FreeBlocks(f) + taken;
  }

  lemma OthersKept(f: Lists, o: Order, s: seq<nat>)
    ensures forall o' {:trigger f.With(o, s).Of(o')} :: f.With(o, s).Of(o') == if o' == o then s else f.Of(o')
  {
  }

  lemma PushKeepsPartition(f: Lists, taken: iset<Block>, b: Block, lo: nat, hi: nat)
    requires Partition(f, taken, lo, hi) && b in taken
    ensures Partition(Push(f, b.start, b.order), taken - iset{b}, lo, hi)
  {
    var g := Push(f, b.start, b.order);
    assert FreeBlocks(g) == FreeBlocks(f) + iset{b};
    assert FreeBlocks(g) + (taken - iset{b}) == FreeBlocks(f) + taken;
    assert b.start !in f.Of(b.order) by {
      assert b !in FreeBlocks(f);
    }
  }

  lemma PushAdds(f: Lists, b: Block)
    requires NoneRepeats(f) && b !in FreeBlocks(f)
    ensures NoneRepeats(Push(f, b.start, b.order))
    ensures FreeBlocks(Push(f, b.start, b.order)) == FreeBlocks(f) + iset{b}
  {
    OthersKept(f, b.order, [b.start] + f.Of(b.order));
  }

  lemma QuartersAdd(f: Lists, b: Block)
    requires NoneRepeats(f) && b.order != KB1
    requires Children(b) !! FreeBlocks(f)
    ensures NoneRepeats(PushQuarters(f, b, 4))
    ensures FreeBlocks(PushQuarters(f, b, 4)) == FreeBlocks(f) + Children(b)
  {
    assert Child(b, 0) in Children(b) && Child(b, 1) in Children(b);
    assert Child(b, 2) in Children(b) && Child(b, 3) in Children(b);
    assert PushQuarters(f, b, 0) == f;
    QuarterAdds(f, b, 0);
    QuarterAdds(f, b, 1);
    QuarterAdds(f, b, 2);
    QuarterAdds(f, b, 3);
  }

  lemma QuarterAdds(f: Lists, b: Block, i: nat)
    requires b.order != KB1 && i < 4
    requires NoneRepeats(PushQuarters(f, b, i)) && Child(b, i) !in FreeBlocks(PushQuarters(f, b, i))
    ensures NoneRepeats(PushQuarters(f, b, i + 1))
    ensures FreeBlocks(PushQuarters(f, b, i + 1)) == FreeBlocks(PushQuarters(f, b, i)) + iset{Child(b, i)}
  {
    PushAdds(PushQuarters(f, b, i), Child(b, i));
  }

  lemma MoveParts(free: iset<Block>, taken: iset<Block>, b: Block, parts: iset<Block>)
    requires free !! taken && b in taken && parts !! free + taken
    ensures free + parts !! taken - iset{b}
    ensures free + parts + (taken - iset{b}) == free + taken - iset{b} + parts
  {
  }

  lemma ChildrenNew(blocks: iset<Block>, b: Block)
    requires Disjoint(blocks) && b in blocks && b.order != KB1 && Aligned(b)
    ensures Children(b) !! blocks
  {
    forall c | c in Children(b)
      ensures c !in blocks
    {
      ChildPlace(b, 0);
      ChildPlace(b, 1);
      ChildPlace(b, 2);
      ChildPlace(b, 3);
      assert Inside(c.start, b) && Inside(c.start, c);
    }
  }

  lemma SplitKeepsPartition(f: Lists, taken: iset<Block>, b: Block, lo: nat, hi: nat)
    requires Partition(f, taken, lo, hi) && b in taken && b.order != KB1
    ensures Partition(PushQuarters(f, b, 4), taken - iset{b}, lo, hi)
  {
    ChildrenTile(b);
    ReplaceTiles(FreeBlocks(f) + taken, b, Children(b), lo, hi);
    ChildrenNew(FreeBlocks(f) + taken, b);
    QuartersAdd(f, b);
    MoveParts(FreeBlocks(f), taken, b, Children(b));
  }

  lemma {:induction false} TakeKeepsPartition(f: Lists, taken: iset<Block>, o: Order, lo: nat, hi: nat)
    requires Partition(f, taken, lo, hi) && Take(f, o).Took?
    ensures var t := Take(f, o);
      Block(t.page, o) !in taken && Partition(t.rest, taken + iset{Block(t.page, o)}, lo, hi)
    decreases 2 - Rank(o)
  {
    if f.Of(o) != [] {
      PopKeepsPartition(f, taken, o, lo, hi);
    } else {
      TakeKeepsPartition(f, taken, Bigger(o), lo, hi);
      var t := Take(f, Bigger(o));
      var b := Block(t.page, Bigger(o));
      SplitKeepsPartition(t.rest, taken + iset{b}, b, lo, hi);
      assert taken + iset{b} - iset{b} == taken;
      PopKeepsPartition(PushQuarters(t.rest, b, 4), taken, o, lo, hi);
    }
  }

  // ----- The pool: every run keeps the tiling -----

  /** The free lists, the blocks handed out and the number of references to each of them. */
  datatype Pool = Pool(free: Lists, live: iset<Block>, refs: multiset<nat>)

  ghost predicate Live(live: iset<Block>, p: nat) {
    exists o :: Block(p, o) in live
  }

  ghost predicate Sound(pool: Pool, lo: nat, hi: nat) {
    && Partition(pool.free, pool.live, lo, hi)
    && forall p: nat :: pool.refs[p] > 0 <==> Live(pool.live, p)
  }

  datatype Request = Alloc(order: Order) | AddRef(page: nat) | Free(page: nat, order: Order)

  /** A page is referenced again or freed only while it is live, and freed at its own order. */
  ghost predicate Allowed(pool: Pool, r: Request) {
    match r
    case Alloc(_) => true
    case AddRef(p) => Live(pool.live, p)
    case Free(p, o) => Block(p, o) in pool.live
  }

  function BlocksAt(p: nat): iset<Block> {
    iset{Block(p, KB1), Block(p, KB4), Block(p, KB16)}
  }

  /** A page that is freed is no longer live; it goes on the list of the order that the caller names. */
  function Served(pool: Pool, r: Request): Pool {
    match r
    case Alloc(o) =>
      (match Take(pool.free, o)
       case OutOfMemory => pool
       case Took(p, rest) => Pool(rest, pool.live + iset{Block(p, o)}, pool.refs + multiset{p}))
    case AddRef(p) => pool.(refs := pool.refs + multiset{p})
    case Free(p, o) =>
      var refs := pool.refs - multiset{p};
      if refs[p] > 0 then pool.(refs := refs)
      else Pool(Push(pool.free, p, o), pool.live - BlocksAt(p), refs)
  }

  lemma ServedIsSound(pool: Pool, r: Request, lo: nat, hi: nat)
    requires Sound(pool, lo, hi) && Allowed(pool, r)
    ensures Sound(Served(pool, r), lo, hi)
  {
    match r {
      case Alloc(o) =>
        var t := Take(pool.free, o);
        if t.Took? {
          TakeKeepsPartition(pool.free, pool.live, o, lo, hi);
          LiveAdded(pool.live, Block(t.page, o));
        }
      case AddRef(p) =>
      case Free(p, o) =>
        OneLiveOrder(pool, Block(p, o), lo, hi);
        assert pool.live - BlocksAt(p) == pool.live - iset{Block(p, o)};
        PushKeepsPartition(pool.free, pool.live, Block(p, o), lo, hi);
    }
  }

  /** A page just allocated was not part of any live block. */
  lemma AllocatedIsNew(pool: Pool, o: Order, lo: nat, hi: nat)
    requires Sound(pool, lo, hi) && Take(pool.free, o).Took?
    ensures var p := Take(pool.free, o).page;
      && Block(p, o) !in pool.live && lo <= p && p + Units(o) <= hi && p % Units(o) == 0
      && pool.refs[p] == 0
      && Served(pool, Request.Alloc(o)).live == pool.live + iset{Block(p, o)}
      && Served(pool, Request.Alloc(o)).refs == pool.refs + multiset{p}
      && (forall b :: b in pool.live ==> b.End() <= p || p + Units(o) <= b.start)
  {
    var t := Take(pool.free, o);
    var new_ := Block(t.page, o);
    TakeKeepsPartition(pool.free, pool.live, o, lo, hi);
    var blocks := FreeBlocks(t.rest) + (pool.live + iset{new_});
    assert new_ in blocks && Aligned(new_);
    forall b | b in pool.live
      ensures b.End() <= t.page || t.page + Units(o) <= b.start
    {
      assert b in blocks && b != new_;
      BlocksApart(blocks, b, new_);
    }
    assert forall o' :: Block(t.page, o').End() > t.page;
  }

  lemma BlocksApart(blocks: iset<Block>, b: Block, c: Block)
    requires Disjoint(blocks) && b in blocks && c in blocks && b != c
    ensures b.End() <= c.start || c.End() <= b.start
  {
    assert Inside(b.start, b) && Inside(c.start, c);
    assert !Inside(b.start, c) && !Inside(c.start, b);
  }

  lemma LiveAdded(live: iset<Block>, b: Block)
    ensures forall p :: Live(live + iset{b}, p) <==> Live(live, p) || p == b.start
  {
    assert Block(b.start, b.order) in live + iset{b};
    forall p | Live(live, p)
      ensures Live(live + iset{b}, p)
    {
      var o :| Block(p, o) in live;
      assert Block(p, o) in live + iset{b};
    }
  }

  lemma OneLiveOrder(pool: Pool, b: Block, lo: nat, hi: nat)
    requires Sound(pool, lo, hi) && b in pool.live
    ensures forall o :: Block(b.start, o) in pool.live ==> o == b.order
    ensures forall p :: Live(pool.live - iset{b}, p) <==> Live(pool.live, p) && p != b.start
  {
    forall o | Block(b.start, o) in pool.live
      ensures o == b.order
    {
      SameStart(FreeBlocks(pool.free) + pool.live, b, Block(b.start, o));
    }
    LiveAdded(pool.live - iset{b}, b);
    assert pool.live - iset{b} + iset{b} == pool.live;
  }

  /** A free takes at most the freed block out of the live ones. */
  lemma LiveAfterFree(pool: Pool, b: Block, o: Order, lo: nat, hi: nat)
    requires Sound(pool, lo, hi) && b in pool.live
    ensures var pool' := Served(pool, Request.Free(b.start, o));
      && pool'.live <= pool.live && (forall q :: q in pool.live && q != b ==> q in pool'.live)
      && (pool.refs[b.start] > 1 ==> pool'.live == pool.live && pool'.free == pool.free)
  {
    OneLiveOrder(pool, b, lo, hi);
  }

  /** Freeing a page keeps the tiling exactly if it is freed at the order at which it was allocated, or
      if there are other references to it. */
  lemma FreeNeedsItsOrder(pool: Pool, b: Block, o: Order, lo: nat, hi: nat)
    requires Sound(pool, lo, hi) && b in pool.live
    ensures Sound(Served(pool, Request.Free(b.start, o)), lo, hi) <==> o == b.order || pool.refs[b.start] > 1
  {
    if o == b.order {
      ServedIsSound(pool, Request.Free(b.start, o), lo, hi);
    } else if pool.refs[b.start] <= 1 {
      MisplacedBlocks(pool, b, o, lo, hi);
      OnlyItsOwnOrderFits(FreeBlocks(pool.free) + pool.live, b, o, lo, hi);
    }
  }

  lemma MisplacedBlocks(pool: Pool, b: Block, o: Order, lo: nat, hi: nat)
    requires Sound(pool, lo, hi) && b in pool.live && o != b.order && pool.refs[b.start] <= 1
    ensures var pool' := Served(pool, Request.Free(b.start, o));
      FreeBlocks(pool'.free) + pool'.live == FreeBlocks(pool.free) + pool.live - iset{b} + iset{Block(b.start, o)}
  {
    var blocks := FreeBlocks(pool.free) + pool.live;
    OneLiveOrder(pool, b, lo, hi);
    if Block(b.start, o) in FreeBlocks(pool.free) {
      SameStart(blocks, b, Block(b.start, o));
    }
    PushAdds(pool.free, Block(b.start, o));
    assert pool.live - BlocksAt(b.start) == pool.live - iset{b};
  }

  /** The pool right after start-up: all of [lo, hi) in 16 KB blocks, lowest first. */
  function Fresh(lo: nat, hi: nat): (s: seq<nat>)
    requires lo % 16 == 0 && hi % 16 == 0
    ensures forall p :: p in s ==> lo <= p < hi
    decreases hi - lo
  {
    if lo >= hi then [] else [lo] + Fresh(lo + 16, hi)
  }

  ghost function Initial(lo: nat, hi: nat): Pool
    requires lo % 16 == 0 && hi % 16 == 0
  {
    Pool(Lists([], [], Fresh(lo, hi)), iset{}, multiset{})
  }

  lemma {:induction false} FreshTiles(lo: nat, hi: nat)
    requires lo % 16 == 0 && hi % 16 == 0
    ensures Tiles(FreeBlocks(Lists([], [], Fresh(lo, hi))), lo, hi)
    decreases hi - lo
  {
    if lo >= hi {
      NothingTiles(Lists([], [], []), lo, hi);
    } else {
      FreshTiles(lo + 16, hi);
      FirstTiles(FreeBlocks(Lists([], [], Fresh(lo + 16, hi))), lo, hi);
      FreshBlocks(Fresh(lo + 16, hi), lo);
    }
  }

  lemma NothingTiles(f: Lists, lo: nat, hi: nat)
    requires f.kb1 == f.kb4 == f.kb16 == [] && lo >= hi
    ensures Tiles(FreeBlocks(f), lo, hi)
  {
  }

  lemma {:induction false} FreshOnce(lo: nat, hi: nat)
    requires lo % 16 == 0 && hi % 16 == 0
    ensures NoRepeats(Fresh(lo, hi))
    decreases hi - lo
  {
    if lo < hi {
      FreshOnce(lo + 16, hi);
      assert lo !in Fresh(lo + 16, hi) && Fresh(lo, hi)[1..] == Fresh(lo + 16, hi);
    }
  }

  lemma FreshBlocks(rest: seq<nat>, p: nat)
    ensures FreeBlocks(Lists([], [], [p] + rest)) == FreeBlocks(Lists([], [], rest)) + iset{Block(p, KB16)}
  {
  }

  lemma InitialIsSound(lo: nat, hi: nat)
    requires lo % 16 == 0 && hi % 16 == 0
    ensures Sound(Initial(lo, hi), lo, hi)
  {
    FreshTiles(lo, hi);
    FreshOnce(lo, hi);
    assert FreeBlocks(Initial(lo, hi).free) + iset{} == FreeBlocks(Initial(lo, hi).free);
  }

  lemma FirstTiles(rest: iset<Block>, lo: nat, hi: nat)
    requires Tiles(rest, lo + 16, hi) && lo % 16 == 0 && lo + 16 <= hi
    ensures Tiles(rest + iset{Block(lo, KB16)}, lo, hi)
  {
    var blocks := rest + iset{Block(lo, KB16)};
    forall u | lo <= u < hi
      ensures Covered(blocks, u)
    {
      if u < lo + 16 {
        assert Inside(u, Block(lo, KB16));
      } else {
        assert Covered(rest, u);
        var b :| b in rest && Inside(u, b);
        assert b in blocks;
      }
    }
  }

  ghost function Run(requests: seq<Request>, lo: nat, hi: nat): Pool
    requires lo % 16 == 0 && hi % 16 == 0
  {
    if requests == [] then Initial(lo, hi)
    else Served(Run(requests[..|requests| - 1], lo, hi), requests[|requests| - 1])
  }

  ghost predicate AllAllowed(requests: seq<Request>, lo: nat, hi: nat)
    requires lo % 16 == 0 && hi % 16 == 0
  {
    forall i :: 0 <= i < |requests| ==> Allowed(Run(requests[..i], lo, hi), requests[i])
  }

  /** After every run of allocations, new references and frees, the free and the live blocks tile
      the managed memory and exactly the live blocks are referenced. */
  lemma {:induction false} EveryRunTiles(requests: seq<Request>, lo: nat, hi: nat)
    requires lo % 16 == 0 && hi % 16 == 0 && AllAllowed(requests, lo, hi)
    ensures Sound(Run(requests, lo, hi), lo, hi)
  {
    if requests == [] {
      InitialIsSound(lo, hi);
    } else {
      var before := requests[..|requests| - 1];
      forall i | 0 <= i < |before|
        ensures Allowed(Run(before[..i], lo, hi), before[i])
      {
        assert before[..i] == requests[..i];
      }
      EveryRunTiles(before, lo, hi);
      ServedIsSound(Run(before, lo, hi), requests[|requests| - 1], lo, hi);
    }
  }

  // ----- The intrusive lists -----

  datatype PhysicalPage = PhysicalPage(refCount: int, next: int)

  const NULL := -1

  /** Following next from head visits exactly s and ends. */
  ghost predicate Chain(pages: seq<PhysicalPage>, head: int, s: seq<nat>)
    decreases |s|
  {
    if s == [] then head == NULL
    else s[0] < |pages| && head == s[0] && Chain(pages, pages[s[0]].next, s[1..])
  }

  ghost predicate Listed(f: Lists, p: nat) {
    p in f.kb1 || p in f.kb4 || p in f.kb16
  }

  ghost predicate Chains(pages: seq<PhysicalPage>, heads: seq<int>, f: Lists) {
    && |heads| == 3 && NoneRepeats(f)
    && Chain(pages, heads[0], f.kb1) && Chain(pages, heads[1], f.kb4) && Chain(pages, heads[2], f.kb16)
  }

  ghost predicate NoneShared(f: Lists) {
    forall p :: !(p in f.kb1 && p in f.kb4) && !(p in f.kb1 && p in f.kb16) && !(p in f.kb4 && p in f.kb16)
  }

  /** The three lists hang off their heads, share no page, and every unlisted page points nowhere. */
  ghost predicate Linked(pages: seq<PhysicalPage>, heads: seq<int>, f: Lists) {
    && Chains(pages, heads, f) && NoneShared(f)
    && (forall p: nat :: p < |pages| && !Listed(f, p) ==> pages[p].next == NULL)
  }

  lemma {:induction false} ChainElsewhere(pages: seq<PhysicalPage>, head: int, s: seq<nat>, p: nat, page: PhysicalPage)
    requires Chain(pages, head, s) && p < |pages| && p !in s
    ensures Chain(pages[p := page], head, s)
    decreases |s|
  {
    if s != [] {
      ChainElsewhere(pages, pages[s[0]].next, s[1..], p, page);
    }
  }

  lemma ChainPush(pages: seq<PhysicalPage>, head: int, s: seq<nat>, p: nat)
    requires Chain(pages, head, s) && NoRepeats(s) && p < |pages| && p !in s
    ensures Chain(pages[p := pages[p].(next := head)], p, [p] + s) && NoRepeats([p] + s)
  {
    ChainElsewhere(pages, head, s, p, pages[p].(next := head));
    assert ([p] + s)[1..] == s;
  }

  lemma ChainPop(pages: seq<PhysicalPage>, head: int, s: seq<nat>)
    requires Chain(pages, head, s) && NoRepeats(s) && s != []
    ensures var p := s[0];
      && p < |pages| && head == p && p !in s[1..]
      && Chain(pages[p := pages[p].(next := NULL)], pages[p].next, s[1..]) && NoRepeats(s[1..])
  {
    FirstOnce(s);
    ChainElsewhere(pages, pages[s[0]].next, s[1..], s[0], pages[s[0]].(next := NULL));
  }

  lemma LinkedPush(pages: seq<PhysicalPage>, heads: seq<int>, f: Lists, p: nat, o: Order)
    requires Linked(pages, heads, f) && p < |pages| && !Listed(f, p)
    ensures Linked(pages[p := pages[p].(next := heads[Rank(o)])], heads[Rank(o) := p], Push(f, p, o))
  {
    var page := pages[p].(next := heads[Rank(o)]);
    ChainPush(pages, heads[Rank(o)], f.Of(o), p);
    if o != KB1 { ChainElsewhere(pages, heads[0], f.kb1, p, page); }
    if o != KB4 { ChainElsewhere(pages, heads[1], f.kb4, p, page); }
    if o != KB16 { ChainElsewhere(pages, heads[2], f.kb16, p, page); }
    assert Chains(pages[p := page], heads[Rank(o) := p], Push(f, p, o));
  }

  lemma LinkedPop(pages: seq<PhysicalPage>, heads: seq<int>, f: Lists, o: Order)
    requires Linked(pages, heads, f) && f.Of(o) != []
    ensures var p := f.Of(o)[0];
      && p < |pages| && heads[Rank(o)] == p
      && Linked(pages[p := pages[p].(next := NULL)], heads[Rank(o) := pages[p].next], Pop(f, o))
  {
    ChainPop(pages, heads[Rank(o)], f.Of(o));
    FirstOnce(f.Of(o));
    var p := f.Of(o)[0];
    var page := pages[p].(next := NULL);
    assert p in f.Of(o);
    if o != KB1 { ChainElsewhere(pages, heads[0], f.kb1, p, page); }
    if o != KB4 { ChainElsewhere(pages, heads[1], f.kb4, p, page); }
    if o != KB16 { ChainElsewhere(pages, heads[2], f.kb16, p, page); }
    assert Chains(pages[p := page], heads[Rank(o) := pages[p].next], Pop(f, o));
    ListedAfterPop(f, o);
  }

  lemma ListedAfterPop(f: Lists, o: Order)
    requires f.Of(o) != [] && NoneRepeats(f) && NoneShared(f)
    ensures NoneShared(Pop(f, o))
    ensures forall q :: Listed(Pop(f, o), q) <==> Listed(f, q) && q != f.Of(o)[0]
  {
    FirstOnce(f.Of(o));
  }

  ghost predicate Counts(pages: seq<PhysicalPage>, refs: multiset<nat>) {
    && (forall p: nat :: p < |pages| ==> pages[p].refCount == refs[p])
    && (forall p: nat :: p in refs ==> p < |pages|)
  }

  lemma OnlyBlockAt(blocks: iset<Block>, b: Block, p: nat)
    requires Disjoint(blocks) && b in blocks && Inside(p, b)
    ensures forall c :: c in blocks && c.start == p ==> c == b
  {
    forall c | c in blocks && c.start == p
      ensures c == b
    {
      assert Inside(p, c);
    }
  }

  /** The quarters of a taken, unreferenced block are on no list and unreferenced. */
  lemma QuartersUnlisted(f: Lists, taken: iset<Block>, b: Block, i: nat, refs: multiset<nat>, lo: nat, hi: nat)
    requires Partition(f, taken, lo, hi) && b in taken && b.order != KB1 && i < 4
    requires forall p: nat :: refs[p] > 0 ==> Live(taken - iset{b}, p)
    ensures !Listed(f, Child(b, i).start) && refs[Child(b, i).start] == 0
    ensures lo <= Child(b, i).start < hi
  {
    ChildPlace(b, i);
    var p := Child(b, i).start;
    OnlyBlockAt(FreeBlocks(f) + taken, b, p);
    assert forall o :: Block(p, o) in FreeBlocks(f) ==> Block(p, o) in FreeBlocks(f) + taken;
    assert Block(p, KB1) !in FreeBlocks(f) && Block(p, KB4) !in FreeBlocks(f) && Block(p, KB16) !in FreeBlocks(f);
    assert forall o :: Block(p, o) in taken - iset{b} ==> Block(p, o) in FreeBlocks(f) + taken;
  }

  // ----- The allocator -----

  class PageAllocator {
    const pages: array<PhysicalPage>
    const heads: array<int>
    const lo: nat    // first managed page
    const hi: nat    // one past the last managed page
    ghost var pool: Pool

    ghost predicate Valid()
      reads this, pages, heads
    {
      && hi <= pages.Length && lo % 16 == 0 && hi % 16 == 0
      && Sound(pool, lo, hi)
      && Linked(pages[..], heads[..], pool.free)
      && Counts(pages[..], pool.refs)
    }

    constructor (ramSize: nat, firstFreePage: nat)
      requires ramSize >= 16 * 1024
      requires firstFreePage % 16 == 0 && firstFreePage > 0
      ensures Valid() && fresh(pages) && fresh(heads)
      ensures hi == pages.Length == ramSize / (16 * 1024) * 16
      ensures lo == (if firstFreePage < hi then firstFreePage else hi)
      ensures pool == Initial(lo, hi)
    {
      var len := ramSize / (16 * 1024) * 16;
      var table := new PhysicalPage[len](_ => PhysicalPage(0, NULL));
      var lists := new int[3](_ => NULL);
      LinkFreePages(table, lists, firstFreePage);
      pages, heads, hi := table, lists, len;
      lo := if firstFreePage < len then firstFreePage else len;
      new;
      InitialIsSound(lo, hi);
      pool := Initial(lo, hi);
    }

    /** All memory from the first free page on is put on the 16 KB list, from the top down. */
    static method LinkFreePages(table: array<PhysicalPage>, lists: array<int>, firstFreePage: nat)
      requires firstFreePage % 16 == 0 && firstFreePage > 0
      requires table.Length % 16 == 0 && table.Length > 0 && lists.Length == 3
      requires forall p :: 0 <= p < table.Length ==> table[p] == PhysicalPage(0, NULL)
      requires lists[0] == lists[1] == lists[2] == NULL
      modifies table, lists
      ensures var lowest := if firstFreePage < table.Length then firstFreePage else table.Length;
        Linked(table[..], lists[..], Lists([], [], Fresh(lowest, table.Length)))
      ensures forall p :: 0 <= p < table.Length ==> table[p].refCount == 0
    {
      var idxStep := 16;
      var i := table.Length - idxStep;
      ghost var lowest := if firstFreePage < table.Length then firstFreePage else table.Length;
      while i >= firstFreePage
        invariant i % 16 == 0 && lowest - 16 <= i < table.Length
        invariant Linked(table[..], lists[..], Lists([], [], Fresh(i + 16, table.Length)))
        invariant forall p :: 0 <= p < table.Length ==> table[p].refCount == 0
      {
        LinkFreePage(table, lists, i);
        i := i - idxStep;
      }
      NextMultiple(i, lowest);
    }

    static method LinkFreePage(table: array<PhysicalPage>, lists: array<int>, page: nat)
      requires page % 16 == 0 && page < table.Length && table.Length % 16 == 0
      requires Linked(table[..], lists[..], Lists([], [], Fresh(page + 16, table.Length)))
      modifies table, lists
      ensures Linked(table[..], lists[..], Lists([], [], Fresh(page, table.Length)))
      ensures forall p :: 0 <= p < table.Length ==> table[p].refCount == old(table[p].refCount)
    {
      OneMoreFresh(page, table.Length);
      PushPage(table, lists, page, KB16, Lists([], [], Fresh(page + 16, table.Length)));
    }

    static lemma OneMoreFresh(i: nat, length: nat)
      requires i % 16 == 0 && i < length && length % 16 == 0
      ensures (i + 16) % 16 == 0
      ensures var f := Lists([], [], Fresh(i + 16, length));
        !Listed(f, i) && Push(f, i, KB16) == Lists([], [], Fresh(i, length))
    {
    }

    /** A page that is on no list becomes the first of one. */
    static method PushPage(table: array<PhysicalPage>, lists: array<int>, page: nat, order: Order, ghost f: Lists)
      requires Linked(table[..], lists[..], f) && page < table.Length && !Listed(f, page)
      modifies table, lists
      ensures Linked(table[..], lists[..], Push(f, page, order))
      ensures forall p :: 0 <= p < table.Length ==> table[p].refCount == old(table[p].refCount)
    {
      LinkedPush(table[..], lists[..], f, page, order);
      ghost var t, l := table[..], lists[..];
      table[page] := table[page].(next := lists[Rank(order)]);
      lists[Rank(order)] := page;
      assert table[..] == t[page := t[page].(next := l[Rank(order)])] && lists[..] == l[Rank(order) := page];
    }

    static lemma NextMultiple(a: int, b: int)
      requires a % 16 == 0 && b % 16 == 0 && b - 16 <= a < b
      ensures a + 16 == b
    {
    }

    /** The kassert on next holds because the page is on no list. */
    method Append(page: nat, order: Order, ghost f: Lists)
      requires Linked(pages[..], heads[..], f) && page < pages.Length && !Listed(f, page)
      modifies pages, heads
      ensures Linked(pages[..], heads[..], Push(f, page, order))
      ensures forall p :: 0 <= p < pages.Length ==> pages[p].refCount == old(pages[p].refCount)
    {
      assert pages[..][page].next == NULL;
      PushPage(pages, heads, page, order, f);
    }

    /** The kassert on ref_count is the second precondition. */
    method PopPage(order: Order, ghost f: Lists) returns (page: nat)
      requires Linked(pages[..], heads[..], f) && f.Of(order) != []
      requires f.Of(order)[0] < pages.Length && pages[f.Of(order)[0]].refCount == 0
      modifies pages, heads
      ensures page == f.Of(order)[0] && Linked(pages[..], heads[..], Pop(f, order))
      ensures forall p :: 0 <= p < pages.Length ==> pages[p].refCount == old(pages[p].refCount)
    {
      LinkedPop(pages[..], heads[..], f, order);
      ghost var t, l := pages[..], heads[..];
      page := heads[Rank(order)];
      heads[Rank(order)] := pages[page].next;
      pages[page] := pages[page].(next := NULL);
      assert pages[..] == t[page := t[page].(next := NULL)] && heads[..] == l[Rank(order) := t[page].next];
    }

    method Split(page: nat, order: Order, ghost f: Lists)
      requires order != KB1 && Linked(pages[..], heads[..], f)
      requires forall i: nat :: i < 4 ==>
        !Listed(f, Child(Block(page, order), i).start) && Child(Block(page, order), i).start < pages.Length
      modifies pages, heads
      ensures Linked(pages[..], heads[..], PushQuarters(f, Block(page, order), 4))
      ensures forall p :: 0 <= p < pages.Length ==> pages[p].refCount == old(pages[p].refCount)
    {
      ghost var b := Block(page, order);
      var i := 0;
      while i < 4
        invariant 0 <= i <= 4
        invariant Linked(pages[..], heads[..], PushQuarters(f, b, i))
        invariant forall j: nat :: i <= j < 4 ==> !Listed(PushQuarters(f, b, i), Child(b, j).start)
        invariant forall p :: 0 <= p < pages.Length ==> pages[p].refCount == old(pages[p].refCount)
      {
        var buddy := Child(Block(page, order), i).start;
        ListedAfterQuarter(f, b, i);
        Append(buddy, Smaller(order), PushQuarters(f, b, i));
        i := i + 1;
      }
    }

    static lemma ListedAfterQuarter(f: Lists, b: Block, n: nat)
      requires b.order != KB1 && n < 4
      ensures forall q :: Listed(PushQuarters(f, b, n + 1), q) <==>
          Listed(PushQuarters(f, b, n), q) || q == Child(b, n).start
      ensures forall j: nat :: n < j < 4 ==> Child(b, j).start != Child(b, n).start
    {
      forall j: nat | n < j < 4
        ensures Child(b, j).start != Child(b, n).start
      {
        match b.order {
          case KB16 =>
          case KB4 =>
        }
      }
    }

    /** _physical_page_alloc: f and taken are the lists and the blocks handed out when it is called. */
    method TakePage(order: Order, ghost f: Lists, ghost taken: iset<Block>, ghost refs: multiset<nat>)
      returns (ok: bool, page: nat)
      requires hi <= pages.Length
      requires Linked(pages[..], heads[..], f) && Partition(f, taken, lo, hi)
      requires Counts(pages[..], refs) && forall p: nat :: refs[p] > 0 ==> Live(taken, p)
      modifies pages, heads
      ensures ok <==> Take(f, order).Took?
      ensures ok ==> page == Take(f, order).page && Linked(pages[..], heads[..], Take(f, order).rest)
      ensures !ok ==> pages[..] == old(pages[..]) && heads[..] == old(heads[..])
      ensures Counts(pages[..], refs)
      decreases 2 - Rank(order), 1
    {
      page := 0;
      ghost var lists := f;
      if heads[Rank(order)] == NULL {
        if order == KB16 {
          return false, page;
        }
        ok := Refill(order, f, taken, refs);
        if !ok {
          return;
        }
        lists := Refilled(Take(f, Bigger(order)), order);
      } else {
        FirstUnreferenced(f, taken, order, refs, lo, hi);
      }
      page := PopPage(order, lists);
      ok := true;
    }

    /** Splits a page of the next larger order onto an empty list. */
    method Refill(order: Order, ghost f: Lists, ghost taken: iset<Block>, ghost refs: multiset<nat>) returns (ok: bool)
      requires hi <= pages.Length && order != KB16 && f.Of(order) == []
      requires Linked(pages[..], heads[..], f) && Partition(f, taken, lo, hi)
      requires Counts(pages[..], refs) && forall p: nat :: refs[p] > 0 ==> Live(taken, p)
      modifies pages, heads
      ensures ok <==> Take(f, Bigger(order)).Took?
      ensures ok ==>
        var lists := Refilled(Take(f, Bigger(order)), order);
        && Linked(pages[..], heads[..], lists)
        && lists.Of(order) != [] && lists.Of(order)[0] < hi && refs[lists.Of(order)[0]] == 0
      ensures !ok ==> pages[..] == old(pages[..]) && heads[..] == old(heads[..])
      ensures Counts(pages[..], refs)
      decreases 2 - Rank(order), 0
    {
      var bigger;
      ok, bigger := TakePage(Bigger(order), f, taken, refs);
      if !ok {
        return;
      }
      QuartersReady(f, taken, Bigger(order), refs, lo, hi);
      Split(bigger, Bigger(order), Take(f, Bigger(order)).rest);
      RefilledFirst(f, taken, order, refs, lo, hi);
    }

    /** The page that a refilled list begins with. */
    static lemma RefilledFirst(f: Lists, taken: iset<Block>, o: Order, refs: multiset<nat>, lo: nat, hi: nat)
      requires o != KB16 && Partition(f, taken, lo, hi) && Take(f, Bigger(o)).Took?
      requires forall p: nat :: refs[p] > 0 ==> Live(taken, p)
      ensures var s := Refilled(Take(f, Bigger(o)), o).Of(o);
        s != [] && s[0] < hi && refs[s[0]] == 0
    {
      var t := Take(f, Bigger(o));
      QuartersReady(f, taken, Bigger(o), refs, lo, hi);
      assert Refilled(t, o).Of(o)[0] == Child(Block(t.page, Bigger(o)), 3).start;
    }

    /** The quarters of a page just taken are on no list and unreferenced. */
    static lemma QuartersReady(f: Lists, taken: iset<Block>, o: Order, refs: multiset<nat>, lo: nat, hi: nat)
      requires o != KB1 && Partition(f, taken, lo, hi) && Take(f, o).Took?
      requires forall p: nat :: refs[p] > 0 ==> Live(taken, p)
      ensures var t := Take(f, o);
        forall i: nat :: i < 4 ==>
          var p := Child(Block(t.page, o), i).start;
          !Listed(t.rest, p) && refs[p] == 0 && p < hi
    {
      var t, b := Take(f, o), Block(Take(f, o).page, o);
      TakeKeepsPartition(f, taken, o, lo, hi);
      assert taken + iset{b} - iset{b} == taken;
      forall i: nat | i < 4
        ensures !Listed(t.rest, Child(b, i).start) && refs[Child(b, i).start] == 0 && Child(b, i).start < hi
      {
        QuartersUnlisted(t.rest, taken + iset{b}, b, i, refs, lo, hi);
      }
    }

    static lemma FirstUnreferenced(f: Lists, taken: iset<Block>, o: Order, refs: multiset<nat>, lo: nat, hi: nat)
      requires Partition(f, taken, lo, hi) && f.Of(o) != []
      requires forall p: nat :: refs[p] > 0 ==> Live(taken, p)
      ensures refs[f.Of(o)[0]] == 0 && lo <= f.Of(o)[0] < hi
    {
      var p := f.Of(o)[0];
      assert Block(p, o) in FreeBlocks(f);
      if Live(taken, p) {
        var o' :| Block(p, o') in taken;
        SameStart(FreeBlocks(f) + taken, Block(p, o), Block(p, o'));
      }
    }

    method SetCount(page: nat, count: nat, ghost f: Lists, ghost refs: multiset<nat>)
      requires Linked(pages[..], heads[..], f) && Counts(pages[..], refs) && page < pages.Length
      modifies pages
      ensures Linked(pages[..], heads[..], f) && Counts(pages[..], refs[page := count])
      ensures pages[page].refCount == count
    {
      OnlyCountChanged(pages[..], heads[..], f, page, count);
      ghost var t := pages[..];
      pages[page] := pages[page].(refCount := count);
      assert pages[..] == t[page := t[page].(refCount := count)];
    }

    method Alloc(order: Order) returns (ok: bool, page: nat)
      requires Valid()
      modifies this, pages, heads
      ensures Valid() && pool == Served(old(pool), Request.Alloc(order))
      ensures ok <==> Take(old(pool).free, order).Took?
      ensures ok ==> page == Take(old(pool).free, order).page
    {
      ok, page := TakePage(order, pool.free, pool.live, pool.refs);
      if ok {
        AllocatedIsNew(pool, order, lo, hi);
        SetCount(page, 1, Take(pool.free, order).rest, pool.refs);
        assert pool.refs[page := 1] == pool.refs + multiset{page};
      }
      ServedIsSound(pool, Request.Alloc(order), lo, hi);
      pool := Served(pool, Request.Alloc(order));
    }

    /** p->ref_count++, as creating an address space does with the vector page. */
    method AddRef(page: nat)
      requires Valid() && Live(pool.live, page)
      modifies this, pages
      ensures Valid() && pool == Served(old(pool), Request.AddRef(page))
    {
      assert page in pool.refs;
      SetCount(page, pages[page].refCount + 1, pool.free, pool.refs);
      assert pool.refs[page := pages[page].refCount] == pool.refs + multiset{page};
      ServedIsSound(pool, Request.AddRef(page), lo, hi);
      pool := Served(pool, Request.AddRef(page));
    }

    static lemma OneFewer(refs: multiset<nat>, p: nat)
      requires p in refs
      ensures refs[p := refs[p] - 1] == refs - multiset{p}
    {
    }

    /** The kassert on ref_count holds because the page is live. */
    method Free(page: nat, order: Order)
      requires Valid() && Block(page, order) in pool.live
      modifies this, pages, heads
      ensures Valid() && pool == Served(old(pool), Request.Free(page, order))
    {
      assert Live(pool.live, page) && page in pool.refs;
      ghost var refs := pool.refs - multiset{page};
      OneFewer(pool.refs, page);
      SetCount(page, pages[page].refCount - 1, pool.free, pool.refs);
      if pages[page].refCount == 0 {
        LiveUnlisted(pool, Block(page, order), lo, hi);
        ReturnPage(page, order);
      }
      assert Counts(pages[..], refs);
      ServedIsSound(pool, Request.Free(page, order), lo, hi);
      pool := Served(pool, Request.Free(page, order));
    }

    /** _physical_page_free. The test for four free buddies includes the page being freed, whose next
        is null, so it never succeeds and no page is ever merged back. */
    method ReturnPage(page: nat, order: Order)
      requires Linked(pages[..], heads[..], pool.free) && !Listed(pool.free, page)
      requires hi <= pages.Length && lo % 16 == 0 && hi % 16 == 0 && lo <= page < hi && Aligned(Block(page, order))
      modifies pages, heads
      ensures Linked(pages[..], heads[..], Push(pool.free, page, order))
      ensures forall p :: 0 <= p < pages.Length ==> pages[p].refCount == old(pages[p].refCount)
    {
      if order != KB16 {
        assert pages[..][page].next == NULL;
        var allBuddiesFree := TestBuddies(page, order);
        assert !allBuddiesFree;
      }
      Append(page, order, pool.free);
    }

    /** Whether the next of all four buddies is set. */
    method TestBuddies(page: nat, order: Order) returns (allFree: bool)
      requires order != KB16 && hi <= pages.Length && lo % 16 == 0 && hi % 16 == 0
      requires lo <= page < hi && Aligned(Block(page, order)) && pages[page].next == NULL
      ensures !allFree
    {
      var own := OwnQuarter(page, order, hi);
      var parent := Block(FirstBuddy(page, order), Bigger(order));
      allFree := true;
      var i := 0;
      while i < 4
        invariant 0 <= i <= 4
        invariant allFree ==> forall j: nat :: j < i ==> pages[Child(parent, j).start].next != NULL
      {
        if pages[Child(parent, i).start].next == NULL {
          allFree := false;
          break;
        }
        i := i + 1;
      }
    }

    static function FirstBuddy(page: nat, order: Order): nat {
      if order == KB1 then page / 4 * 4 else page / 16 * 16
    }

    static lemma RoundedDownTo4(page: nat, hi: nat)
      requires hi % 16 == 0 && page < hi
      ensures page / 4 * 4 + page % 4 == page && page / 4 * 4 + 4 <= hi && page / 4 * 4 % 4 == 0
    {
      var h, q := hi / 16, page / 4;
      assert hi == 16 * h && page == 4 * q + page % 4;
      assert q < 4 * h;
    }

    static lemma RoundedDownTo16(page: nat, hi: nat)
      requires hi % 16 == 0 && page < hi
      ensures page / 16 * 16 + page % 16 == page && page / 16 * 16 + 16 <= hi && page / 16 * 16 % 16 == 0
      ensures page % 4 == 0 ==> page % 16 == 4 * (page % 16 / 4)
    {
      var h, q, r := hi / 16, page / 16, page % 16;
      assert hi == 16 * h && page == 16 * q + r;
      assert q < h;
      assert page % 4 == 0 ==> r % 4 == 0;
    }

    /** A page is one of its four buddies, and all four are managed. */
    static lemma OwnQuarter(page: nat, order: Order, hi: nat) returns (own: nat)
      requires order != KB16 && hi % 16 == 0 && page < hi && Aligned(Block(page, order))
      ensures var parent := Block(FirstBuddy(page, order), Bigger(order));
        own < 4 && Child(parent, own).start == page && forall i: nat :: i < 4 ==> Child(parent, i).start < hi
    {
      var parent := Block(FirstBuddy(page, order), Bigger(order));
      RoundedDownTo4(page, hi);
      RoundedDownTo16(page, hi);
      own := if order == KB1 then page % 4 else page % 16 / 4;
      ChildPlace(parent, own);
      forall i: nat | i < 4
        ensures Child(parent, i).start < hi
      {
        ChildPlace(parent, i);
      }
    }

    static lemma LiveUnlisted(pool: Pool, b: Block, lo: nat, hi: nat)
      requires Sound(pool, lo, hi) && b in pool.live
      ensures !Listed(pool.free, b.start) && lo <= b.start < hi && Aligned(b)
    {
      var blocks := FreeBlocks(pool.free) + pool.live;
      assert b in blocks;
      forall o | b.start in pool.free.Of(o)
        ensures false
      {
        assert Block(b.start, o) in FreeBlocks(pool.free);
        SameStart(blocks, b, Block(b.start, o));
      }
      assert b.start !in pool.free.Of(KB1) && b.start !in pool.free.Of(KB4) && b.start !in pool.free.Of(KB16);
    }
  }

  /** Reference counts play no part in the lists. */
  lemma OnlyCountChanged(pages: seq<PhysicalPage>, heads: seq<int>, f: Lists, p: nat, count: int)
    requires Linked(pages, heads, f) && p < |pages|
    ensures Linked(pages[p := pages[p].(refCount := count)], heads, f)
  {
    ChainSameNext(pages, heads[0], f.kb1, p, count);
    ChainSameNext(pages, heads[1], f.kb4, p, count);
    ChainSameNext(pages, heads[2], f.kb16, p, count);
  }

  lemma {:induction false} ChainSameNext(pages: seq<PhysicalPage>, head: int, s: seq<nat>, p: nat, count: int)
    requires Chain(pages, head, s) && p < |pages|
    ensures Chain(pages[p := pages[p].(refCount := count)], head, s)
    decreases |s|
  {
    if s != [] {
      ChainSameNext(pages, pages[s[0]].next, s[1..], p, count);
    }
  }
}
