/** kernel/vfs/vfs.cpp and kernel/vfs/fs.cpp: the inode cache and the reference counts of inodes.

    A custody is represented by the inode it points to; what file systems answer and whether memory is
    found are inputs. Three multisets say where the references that an inode counts are: custodies are
    live, inflight are those that a call in progress will give back, and leaked are those that nobody
    will: the count that close_inode leaves at one after the last close, the reference to the parent that
    a successful vfs_open keeps, and the reference of a mount to its root. */
module VfsRefs {
  import opened Basics

  const ERR_NOENT := -2
  const ERR_NOMEM := -12
  const ERR_NOTDIR := -20
  const ERR_ISDIR := -21
  const ERR_FS := -5      // any error of a file system

  type Errno = n: int | n < 0 witness -1

  datatype Inode = Inode(refcount: nat, fs: nat, identifier: nat, directory: bool)

  datatype Entry = Entry(fs: nat, identifier: nat, inode: nat)

  /** A run of a file system's close hook: for which inode, and the custodies there were then. */
  datatype Hook = Hook(inode: nat, custodies: multiset<nat>)

  datatype Vfs = Vfs(
    inodes: map<nat, Inode>, next: nat, cache: seq<Entry>, custodies: multiset<nat>, inflight: multiset<nat>,
    leaked: multiset<nat>, hooks: seq<Hook>, panicked: bool)

  /** Every reference that an inode counts is somewhere. */
  ghost predicate Counted(v: Vfs) {
    forall p :: (if p in v.inodes then v.inodes[p].refcount else 0) == v.custodies[p] + v.inflight[p] + v.leaked[p]
  }

  ghost predicate Cached(v: Vfs, e: Entry) {
    e.inode in v.inodes && v.inodes[e.inode].refcount > 0 && v.inodes[e.inode].fs == e.fs
        && v.inodes[e.inode].identifier == e.identifier
  }

  /** The cache never holds two entries with one identifier, and only open inodes. */
  ghost predicate CacheGood(v: Vfs) {
    && (forall i :: 0 <= i < |v.cache| ==> Cached(v, v.cache[i]))
    && (forall i, j :: 0 <= i < j < |v.cache| ==>
          v.cache[i].fs != v.cache[j].fs || v.cache[i].identifier != v.cache[j].identifier)
  }

  /** No close hook has run while a custody pointed at its inode. */
  ghost predicate HooksAlone(v: Vfs) {
    forall i :: 0 <= i < |v.hooks| ==> v.hooks[i].inode !in v.hooks[i].custodies
  }

  ghost predicate Good(v: Vfs) {
    Counted(v) && CacheGood(v) && HooksAlone(v) && forall p :: p in v.inodes ==> p < v.next
  }

  function SetCount(v: Vfs, p: nat, n: nat): Vfs {
    if p in v.inodes then v.(inodes := v.inodes[p := v.inodes[p].(refcount := n)]) else v
  }

  // ----- Opening and closing -----

  /** open_inode: a new reference, in flight; the first one needs the file system's consent. */
  function OpenStep(v: Vfs, p: nat, opens: bool): (r: (Vfs, int))
    ensures r.1 <= 0
  {
    if p !in v.inodes then (v, ERR_FS)
    else if v.inodes[p].refcount > 0 || opens
    then (SetCount(v, p, v.inodes[p].refcount + 1).(inflight := v.inflight + multiset{p}), 0)
    else (v, ERR_FS)
  }

  /** close_inode of a reference in flight: the last one runs the close hook and leaves the count at one. */
  function CloseStep(v: Vfs, p: nat): Vfs {
    if p !in v.inodes then v
    else if v.inodes[p].refcount > 1
    then SetCount(v, p, v.inodes[p].refcount - 1).(inflight := v.inflight - multiset{p})
    else v.(inflight := v.inflight - multiset{p}, leaked := v.leaked + multiset{p},
        hooks := v.hooks + [Hook(p, v.custodies)])
  }

  function CloseOptional(v: Vfs, p: Option<nat>): Vfs {
    if p.Some? then CloseStep(v, p.value) else v
  }

  /** Counting differently keeps the cache good as long as the inode stays open. */
  lemma CacheSurvives(v: Vfs, v': Vfs, p: nat, n: nat)
    requires CacheGood(v) && v'.cache == v.cache && n > 0
    requires v'.inodes == SetCount(v, p, n).inodes
    ensures CacheGood(v')
  {
    forall i | 0 <= i < |v'.cache|
      ensures Cached(v', v'.cache[i])
    {
      assert Cached(v, v.cache[i]);
    }
  }

  lemma OpenIsGood(v: Vfs, p: nat, opens: bool)
    requires Good(v) && p in v.inodes
    ensures var (v', rc) := OpenStep(v, p, opens);
      && Good(v') && v'.inodes.Keys == v.inodes.Keys
      && (rc == 0 ==> v'.inflight == v.inflight + multiset{p} && v'.inodes[p].refcount == v.inodes[p].refcount + 1)
      && (rc != 0 ==> v' == v && v.inodes[p].refcount == 0 && !opens)
      && v'.custodies == v.custodies && v'.leaked == v.leaked && v'.hooks == v.hooks && v'.cache == v.cache
  {
    var (v', rc) := OpenStep(v, p, opens);
    if rc == 0 {
      CacheSurvives(v, v', p, v.inodes[p].refcount + 1);
    }
  }

  /** A close that is not the last. */
  lemma CloseNotLast(v: Vfs, p: nat)
    requires Good(v) && p in v.inflight && p in v.inodes && v.inodes[p].refcount > 1
    ensures var v' := CloseStep(v, p);
      && Good(v') && v'.inodes.Keys == v.inodes.Keys && v'.inflight == v.inflight - multiset{p}
      && v'.custodies == v.custodies && v'.cache == v.cache && v'.hooks == v.hooks
  {
    CacheSurvives(v, CloseStep(v, p), p, v.inodes[p].refcount - 1);
  }

  /** The last close runs the hook, when no other reference is left. */
  lemma CloseLast(v: Vfs, p: nat)
    requires Good(v) && p in v.inflight && p in v.inodes && v.inodes[p].refcount == 1
    ensures var v' := CloseStep(v, p);
      && Good(v') && v'.inodes == v.inodes && v'.inflight == v.inflight - multiset{p}
      && v'.custodies == v.custodies && v'.cache == v.cache
      && v.custodies[p] == 0 && v.inflight[p] == 1 && v.leaked[p] == 0
  {
    var v' := CloseStep(v, p);
    assert v.inodes[p].refcount == v.custodies[p] + v.inflight[p] + v.leaked[p];
    assert SetCount(v, p, 1).inodes == v.inodes;
    CacheSurvives(v, v', p, 1);
    forall i | 0 <= i < |v'.hooks|
      ensures v'.hooks[i].inode !in v'.hooks[i].custodies
    {
      assert v'.hooks[i] == if i < |v.hooks| then v.hooks[i] else Hook(p, v.custodies);
    }
  }

  /** The kassert on the count holds, the hook runs only for the one reference that is being given up, and
      afterwards everything is accounted for again. */
  lemma CloseIsGood(v: Vfs, p: nat)
    requires Good(v) && p in v.inflight
    ensures var v' := CloseStep(v, p);
      && p in v.inodes && v.inodes[p].refcount > 0
      && Good(v') && v'.inodes.Keys == v.inodes.Keys && v'.inflight == v.inflight - multiset{p}
      && v'.custodies == v.custodies && v'.cache == v.cache
      && (v'.hooks != v.hooks ==> v.custodies[p] == 0 && v.inflight[p] == 1 && v.leaked[p] == 0)
  {
    assert (if p in v.inodes then v.inodes[p].refcount else 0) == v.custodies[p] + v.inflight[p] + v.leaked[p];
    if v.inodes[p].refcount > 1 {
      CloseNotLast(v, p);
    } else {
      CloseLast(v, p);
    }
  }

  // ----- Lookup -----

  /** What a file system says about a name, and whether there is memory for a new inode and its entry. */
  datatype Answer = Absent | Present(identifier: nat, directory: bool, opens: bool, memory: bool, cacheMemory: bool)

  /** icache_lookup. */
  function CacheLookup(cache: seq<Entry>, fs: nat, identifier: nat): (r: Option<nat>)
    ensures r.Some? ==> Entry(fs, identifier, r.value) in cache
    ensures r.None? ==> forall i :: 0 <= i < |cache| ==> cache[i].fs != fs || cache[i].identifier != identifier
  {
    if cache == [] then None
    else if cache[0].fs == fs && cache[0].identifier == identifier then Some(cache[0].inode)
    else CacheLookup(cache[1..], fs, identifier)
  }

  /** A new inode that is not in the cache: opened, then entered at the head of the cache. */
  function NewInode(v: Vfs, fs: nat, a: Answer): (Vfs, Option<nat>)
    requires a.Present?
  {
    if !a.memory || !a.opens then (v, None)
    else
      var p, v1 := v.next, Made(v, fs, a.identifier, a.directory);
      if a.cacheMemory then (Entered(v1, fs, a.identifier, p), Some(p)) else (Discarded(CloseStep(v1, p), p), None)
  }

  /** A new inode, open for the first time. */
  function Made(v: Vfs, fs: nat, identifier: nat, directory: bool): Vfs {
    v.(inodes := v.inodes[v.next := Inode(1, fs, identifier, directory)], next := v.next + 1,
        inflight := v.inflight + multiset{v.next})
  }

  /** icache_insert. */
  function Entered(v: Vfs, fs: nat, identifier: nat, p: nat): Vfs {
    v.(cache := [Entry(fs, identifier, p)] + v.cache)
  }

  /** free of an inode that was never in the cache. */
  function Discarded(v: Vfs, p: nat): Vfs {
    v.(inodes := v.inodes - {p}, leaked := v.leaked - multiset{p})
  }

  /** lookup_inode: a cached inode gets a new reference, any other is made. */
  function LookupStep(v: Vfs, fs: nat, a: Answer): (Vfs, Option<nat>) {
    if a.Absent? then (v, None)
    else
      match CacheLookup(v.cache, fs, a.identifier)
      case Some(p) => (OpenStep(v, p, a.opens).0, Some(p))
      case None => NewInode(v, fs, a)
  }

  /** Inodes stay what they are. */
  ghost predicate InodesKept(v: Vfs, v': Vfs) {
    forall p :: p in v.inodes ==> p in v'.inodes && v'.inodes[p].(refcount := 0) == v.inodes[p].(refcount := 0)
  }

  /** A step that leaves custodies and given-up references alone and has taken the references gained. */
  ghost predicate Took(v: Vfs, v': Vfs, gained: multiset<nat>) {
    && Good(v') && v'.custodies == v.custodies && v'.inflight == v.inflight + gained
    && InodesKept(v, v') && v'.panicked == v.panicked
  }

  function Gained(p: Option<nat>): multiset<nat> {
    if p.Some? then multiset{p.value} else multiset{}
  }

  lemma MadeIsGood(v: Vfs, fs: nat, identifier: nat, directory: bool)
    requires Good(v)
    ensures Took(v, Made(v, fs, identifier, directory), multiset{v.next})
    ensures v.custodies[v.next] == v.inflight[v.next] == v.leaked[v.next] == 0 && v.next !in v.inodes
  {
    var p, v' := v.next, Made(v, fs, identifier, directory);
    assert v.custodies[p] + v.inflight[p] + v.leaked[p] == 0;
    forall e | Cached(v, e)
      ensures Cached(v', e)
    {
    }
  }

  lemma EnteredIsGood(v: Vfs, fs: nat, identifier: nat, p: nat)
    requires Good(v) && Cached(v, Entry(fs, identifier, p)) && CacheLookup(v.cache, fs, identifier).None?
    ensures Good(Entered(v, fs, identifier, p))
  {
    var v' := Entered(v, fs, identifier, p);
    forall i | 0 <= i < |v'.cache|
      ensures Cached(v', v'.cache[i])
    {
      assert v'.cache[i] == if i == 0 then Entry(fs, identifier, p) else v.cache[i - 1];
    }
    forall i, j | 0 <= i < j < |v'.cache|
      ensures v'.cache[i].fs != v'.cache[j].fs || v'.cache[i].identifier != v'.cache[j].identifier
    {
      assert v'.cache[j] == v.cache[j - 1];
      assert i > 0 ==> v'.cache[i] == v.cache[i - 1];
    }
  }

  /** An inode that could not be entered is closed, which runs its hook, and freed: nothing else is left. */
  lemma DiscardedIsUndone(v: Vfs, fs: nat, identifier: nat, directory: bool)
    requires v.next !in v.inodes
    ensures Discarded(CloseStep(Made(v, fs, identifier, directory), v.next), v.next) ==
      v.(next := v.next + 1, hooks := v.hooks + [Hook(v.next, v.custodies)])
  {
    AddedAndRemoved(v.inodes, v.next, Inode(1, fs, identifier, directory));
    OneFewer(v.inflight, v.next);
    OneFewer(v.leaked, v.next);
  }

  lemma AddedAndRemoved(inodes: map<nat, Inode>, p: nat, inode: Inode)
    requires p !in inodes
    ensures inodes[p := inode] - {p} == inodes
  {
  }

  lemma HookLogged(v: Vfs, h: Hook)
    requires Good(v) && h.inode !in h.custodies
    ensures Good(v.(next := v.next + 1, hooks := v.hooks + [h]))
  {
    var v' := v.(next := v.next + 1, hooks := v.hooks + [h]);
    forall i | 0 <= i < |v'.hooks|
      ensures v'.hooks[i].inode !in v'.hooks[i].custodies
    {
      assert v'.hooks[i] == if i < |v.hooks| then v.hooks[i] else h;
    }
    forall i | 0 <= i < |v'.cache|
      ensures Cached(v', v'.cache[i])
    {
      assert Cached(v, v.cache[i]);
    }
  }

  lemma DiscardedIsGood(v: Vfs, fs: nat, identifier: nat, directory: bool)
    requires Good(v)
    ensures Took(v, Discarded(CloseStep(Made(v, fs, identifier, directory), v.next), v.next), multiset{})
  {
    NextIsUnused(v);
    HookLogged(v, Hook(v.next, v.custodies));
    DiscardedIsUndone(v, fs, identifier, directory);
    assert v.inflight + multiset{} == v.inflight;
  }

  lemma NextIsUnused(v: Vfs)
    requires Good(v)
    ensures v.next !in v.inodes && v.next !in v.custodies && v.next !in v.inflight && v.next !in v.leaked
  {
    assert v.custodies[v.next] + v.inflight[v.next] + v.leaked[v.next] == 0;
  }

  lemma NewInodeIsGood(v: Vfs, fs: nat, a: Answer)
    requires Good(v) && a.Present? && CacheLookup(v.cache, fs, a.identifier).None?
    ensures var (v', p) := NewInode(v, fs, a); Took(v, v', Gained(p)) && (p.Some? ==> p.value in v'.inodes)
  {
    if a.memory && a.opens {
      MadeIsGood(v, fs, a.identifier, a.directory);
      if a.cacheMemory {
        EnteredIsGood(Made(v, fs, a.identifier, a.directory), fs, a.identifier, v.next);
      } else {
        DiscardedIsGood(v, fs, a.identifier, a.directory);
      }
    }
  }

  lemma LookupIsGood(v: Vfs, fs: nat, a: Answer)
    requires Good(v)
    ensures var (v', p) := LookupStep(v, fs, a); Took(v, v', Gained(p)) && (p.Some? ==> p.value in v'.inodes)
  {
    if a.Present? {
      var r := CacheLookup(v.cache, fs, a.identifier);
      if r.Some? {
        var e := Entry(fs, a.identifier, r.value);
        assert Cached(v, e);
        OpenIsGood(v, r.value, a.opens);
      } else {
        NewInodeIsGood(v, fs, a);
      }
    }
  }

  // ----- Traversal -----

  /** What traverse_in_fs hands back: both references in flight, or the parent's of a missing last
      component, or none. */
  datatype Traversed = Found(parent: Option<nat>, inode: nat) | Missing(dir: nat) | Failed(rc: Errno)

  function Handed(t: Traversed): multiset<nat> {
    match t
    case Found(parent, inode) => Gained(parent) + multiset{inode}
    case Missing(dir) => multiset{dir}
    case Failed(_) => multiset{}
  }

  /** The loop of traverse_in_fs, at an inode whose parent is still referenced. */
  function TraverseStep(v: Vfs, parent: Option<nat>, inode: nat, components: seq<Answer>): (Vfs, Traversed)
    decreases |components|
  {
    if components == [] then (v, Found(parent, inode))
    else
      var v1 := CloseOptional(v, parent);
      if inode !in v.inodes || !v.inodes[inode].directory then (CloseStep(v1, inode), Failed(ERR_NOTDIR))
      else
        var (v2, child) := LookupStep(v1, v.inodes[inode].fs, components[0]);
        if child.Some? then TraverseStep(v2, Some(inode), child.value, components[1..])
        else if |components| == 1 then (v2, Missing(inode))
        else (CloseStep(v2, inode), Failed(ERR_NOENT))
  }

  /** From v to v' references have been gained and lost in flight, custodies are the same, inodes stay. */
  ghost predicate Passed(v: Vfs, v': Vfs, lost: multiset<nat>, gained: multiset<nat>) {
    && Good(v') && v'.custodies == v.custodies && v'.inflight + lost == v.inflight + gained
    && InodesKept(v, v') && v'.panicked == v.panicked
  }

  lemma CloseOptionalPasses(v: Vfs, p: Option<nat>)
    requires Good(v) && Gained(p) <= v.inflight
    ensures Passed(v, CloseOptional(v, p), Gained(p), multiset{})
  {
    if p.Some? {
      CloseIsGood(v, p.value);
    }
  }

  lemma Chain(a: multiset<nat>, b: multiset<nat>, c: multiset<nat>, lost: multiset<nat>, gained: multiset<nat>,
          lost': multiset<nat>, gained': multiset<nat>)
    requires b + lost == a + gained && c + lost' == b + gained'
    ensures c + (lost + lost') == a + (gained + gained')
  {
    forall p: nat
      ensures (c + (lost + lost'))[p] == (a + (gained + gained'))[p]
    {
      assert (b + lost)[p] == (a + gained)[p] && (c + lost')[p] == (b + gained')[p];
    }
  }

  lemma PassedTwice(v: Vfs, v1: Vfs, v2: Vfs, lost: multiset<nat>, gained: multiset<nat>, lost': multiset<nat>,
          gained': multiset<nat>)
    requires Passed(v, v1, lost, gained) && Passed(v1, v2, lost', gained')
    ensures Passed(v, v2, lost + lost', gained + gained')
  {
    Chain(v.inflight, v1.inflight, v2.inflight, lost, gained, lost', gained');
  }

  /** Passed with the references that are both lost and gained left out. */
  lemma Cancel(v: Vfs, v': Vfs, lost: multiset<nat>, gained: multiset<nat>, both: multiset<nat>)
    requires Passed(v, v', lost + both, gained + both)
    ensures Passed(v, v', lost, gained)
  {
    forall p: nat
      ensures (v'.inflight + lost)[p] == (v.inflight + gained)[p]
    {
      assert (v'.inflight + (lost + both))[p] == (v.inflight + (gained + both))[p];
    }
  }

  lemma Rearrange(a: multiset<nat>, b: multiset<nat>)
    ensures a + multiset{} == a && multiset{} + a == a && a + b == b + a
  {
  }

  /** One step down: the reference to the parent is given up, one to the child is gained. */
  lemma DownIsGood(v: Vfs, parent: Option<nat>, inode: nat, a: Answer)
    requires Good(v) && Gained(parent) + multiset{inode} <= v.inflight
    ensures inode in v.inodes
    ensures var v1 := CloseOptional(v, parent);
      var (v2, child) := LookupStep(v1, v.inodes[inode].fs, a);
      && Passed(v, v1, Gained(parent), multiset{}) && Passed(v, v2, Gained(parent), Gained(child))
      && inode in v1.inflight && Gained(child) + multiset{inode} <= v2.inflight
  {
    assert inode in v.inflight;
    assert v.custodies[inode] + v.inflight[inode] + v.leaked[inode] > 0;
    CloseOptionalPasses(v, parent);
    var v1 := CloseOptional(v, parent);
    assert v1.inflight + Gained(parent) == v.inflight + multiset{};
    InodeStays(v.inflight, v1.inflight, parent, inode);
    LookupIsGood(v1, v.inodes[inode].fs, a);
    var (v2, child) := LookupStep(v1, v.inodes[inode].fs, a);
    PassedTwice(v, v1, v2, Gained(parent), multiset{}, multiset{}, Gained(child));
    Rearrange(Gained(parent), multiset{});
    Rearrange(Gained(child), multiset{});
  }

  lemma InodeStays(a: multiset<nat>, b: multiset<nat>, parent: Option<nat>, inode: nat)
    requires Gained(parent) + multiset{inode} <= a && b + Gained(parent) == a + multiset{}
    ensures inode in b
  {
    assert (b + Gained(parent))[inode] == a[inode];
    assert (Gained(parent) + multiset{inode})[inode] <= a[inode];
  }

  /** Failing after a step: the reference to the directory is given up too. */
  lemma GiveUp(v: Vfs, v1: Vfs, lost: multiset<nat>, inode: nat)
    requires Passed(v, v1, lost, multiset{}) && inode in v1.inflight
    ensures Passed(v, CloseStep(v1, inode), lost + multiset{inode}, multiset{})
  {
    CloseIsGood(v1, inode);
    PassedTwice(v, v1, CloseStep(v1, inode), lost, multiset{}, multiset{inode}, multiset{});
    Rearrange(multiset{}, multiset{});
  }

  /** Going on from the child. */
  lemma Deeper(v: Vfs, v2: Vfs, v': Vfs, lost: multiset<nat>, inode: nat, child: nat, handed: multiset<nat>)
    requires Passed(v, v2, lost, multiset{child}) && Passed(v2, v', multiset{inode} + multiset{child}, handed)
    ensures Passed(v, v', lost + multiset{inode}, handed)
  {
    PassedTwice(v, v2, v', lost, multiset{child}, multiset{inode} + multiset{child}, handed);
    assert lost + (multiset{inode} + multiset{child}) == lost + multiset{inode} + multiset{child};
    Rearrange(multiset{child}, handed);
    Cancel(v, v', lost + multiset{inode}, handed, multiset{child});
  }

  /** traverse_in_fs gives back every reference that it takes, but those that it hands over. */
  lemma {:induction false} TraverseIsGood(v: Vfs, parent: Option<nat>, inode: nat, components: seq<Answer>)
    requires Good(v) && Gained(parent) + multiset{inode} <= v.inflight
    ensures var (v', t) := TraverseStep(v, parent, inode, components);
      Passed(v, v', Gained(parent) + multiset{inode}, Handed(t))
    decreases |components|
  {
    if components != [] {
      DownIsGood(v, parent, inode, components[0]);
      var v1 := CloseOptional(v, parent);
      if !v.inodes[inode].directory {
        GiveUp(v, v1, Gained(parent), inode);
      } else {
        var (v2, child) := LookupStep(v1, v.inodes[inode].fs, components[0]);
        if child.Some? {
          Rearrange(Gained(child), multiset{inode});
          TraverseIsGood(v2, Some(inode), child.value, components[1..]);
          var (v', t) := TraverseStep(v2, Some(inode), child.value, components[1..]);
          Deeper(v, v2, v', Gained(parent), inode, child.value, Handed(t));
        } else if |components| == 1 {
          KeepDirectory(v, v2, Gained(parent), inode);
        } else {
          GiveUp(v, v2, Gained(parent), inode);
        }
      }
    } else {
      Rearrange(v.inflight, Gained(parent) + multiset{inode});
    }
  }

  lemma KeepDirectory(v: Vfs, v': Vfs, lost: multiset<nat>, inode: nat)
    requires Passed(v, v', lost, multiset{})
    ensures Passed(v, v', lost + multiset{inode}, multiset{inode})
  {
    forall p: nat
      ensures (v'.inflight + (lost + multiset{inode}))[p] == (v.inflight + multiset{inode})[p]
    {
      assert (v'.inflight + lost)[p] == (v.inflight + multiset{})[p];
    }
  }

  // ----- vfs_open and its kin -----

  /** What vfs_open is called with: the root of the file system it found, its consent to open it, the
      answers for the components, the answer of the directory's create, the flags and the memory for the
      custody. */
  datatype OpenCall = OpenCall(fs: nat, root: nat, components: seq<Answer>, create: bool, created: Answer,
      directory: bool, memory: bool)

  /** traverse: from the root of the file system, which must be in the cache. */
  function TraverseFrom(v: Vfs, fs: nat, root: nat, components: seq<Answer>): (Vfs, Traversed) {
    match CacheLookup(v.cache, fs, root)
    case None => (v, Failed(ERR_NOENT))
    case Some(p) =>
      var (v1, rc) := OpenStep(v, p, true);
      if rc != 0 then (v1, Failed(rc)) else TraverseStep(v1, None, p, components)
  }

  /** create_inode: the file system makes an inode; a kassert demands that its identifier is not in the
      cache. What happens after a panic has no meaning. */
  function CreateStep(v: Vfs, dir: nat, a: Answer): (Vfs, Option<nat>)
    requires dir in v.inodes
  {
    if a.Absent? then (v, None)
    else if CacheLookup(v.cache, v.inodes[dir].fs, a.identifier).Some? then (v.(panicked := true), None)
    else NewInode(v, v.inodes[dir].fs, a.(directory := false))
  }

  /** The new custody: its reference is no longer in flight, and the one to the parent stays for good. */
  function Settled(v: Vfs, parent: Option<nat>, inode: nat): Vfs {
    v.(inflight := v.inflight - multiset{inode} - Gained(parent), custodies := v.custodies + multiset{inode},
       leaked := v.leaked + Gained(parent))
  }

  function OpenedStep(v: Vfs, parent: Option<nat>, inode: nat, c: OpenCall): (Vfs, int) {
    if inode in v.inodes && v.inodes[inode].directory && !c.directory
    then (CloseStep(CloseOptional(v, parent), inode), ERR_ISDIR)
    else if !c.memory then (CloseStep(CloseOptional(v, parent), inode), ERR_NOMEM)
    else (Settled(v, parent, inode), 0)
  }

  function VfsOpenStep(v: Vfs, c: OpenCall): (Vfs, Option<nat>, int) {
    var (v1, t) := TraverseFrom(v, c.fs, c.root, c.components);
    match t
    case Failed(rc) => (v1, None, rc)
    case Found(parent, inode) =>
      var (v2, rc) := OpenedStep(v1, parent, inode, c);
      (v2, if rc == 0 then Some(inode) else None, rc)
    case Missing(dir) => MissingStep(v1, dir, c)
  }

  /** Where only the last component is missing, it may be created. */
  function MissingStep(v: Vfs, dir: nat, c: OpenCall): (Vfs, Option<nat>, int) {
    if !c.create || dir !in v.inodes then (CloseStep(v, dir), None, ERR_NOENT)
    else
      var (v1, made) := CreateStep(v, dir, c.created);
      if made.None? then (CloseStep(v1, dir), None, ERR_FS)
      else
        var (v2, rc) := OpenedStep(v1, Some(dir), made.value, c);
        (v2, if rc == 0 then made else None, rc)
  }

  /** Between calls nothing is in flight. */
  ghost predicate Idle(v: Vfs) {
    Good(v) && v.inflight == multiset{}
  }

  lemma TraverseFromIsGood(v: Vfs, fs: nat, root: nat, components: seq<Answer>)
    requires Good(v)
    ensures var (v', t) := TraverseFrom(v, fs, root, components);
      Passed(v, v', multiset{}, Handed(t))
  {
    Rearrange(v.inflight, multiset{});
    var r := CacheLookup(v.cache, fs, root);
    if r.Some? {
      assert Cached(v, Entry(fs, root, r.value));
      OpenIsGood(v, r.value, true);
      var v1 := OpenStep(v, r.value, true).0;
      Rearrange(multiset{r.value}, multiset{});
      TraverseIsGood(v1, None, r.value, components);
      var (v', t) := TraverseStep(v1, None, r.value, components);
      PassedTwice(v, v1, v', multiset{}, multiset{r.value}, multiset{r.value}, Handed(t));
      Rearrange(multiset{r.value}, Handed(t));
      assert multiset{} + multiset{r.value} == multiset{r.value};
      Cancel(v, v', multiset{}, Handed(t), multiset{r.value});
    }
  }

  lemma SettledIsGood(v: Vfs, parent: Option<nat>, inode: nat)
    requires Good(v) && v.inflight == Gained(parent) + multiset{inode}
    ensures Idle(Settled(v, parent, inode)) && Settled(v, parent, inode).custodies == v.custodies + multiset{inode}
  {
    var v' := Settled(v, parent, inode);
    assert v'.inflight == multiset{};
    CacheUntouched(v, v');
    SettledSums(v, parent, inode);
  }

  lemma CacheUntouched(v: Vfs, v': Vfs)
    requires CacheGood(v) && v'.inodes == v.inodes && v'.cache == v.cache
    ensures CacheGood(v')
  {
    forall i | 0 <= i < |v'.cache|
      ensures Cached(v', v'.cache[i])
    {
      assert Cached(v, v.cache[i]);
    }
  }

  lemma SettledFields(v: Vfs, v': Vfs, parent: Option<nat>, inode: nat)
    requires v'.inodes == v.inodes && v'.next == v.next && v'.cache == v.cache && v'.hooks == v.hooks
    requires v'.panicked == v.panicked
    requires v'.custodies == v.custodies + multiset{inode}
    requires v'.inflight == v.inflight - multiset{inode} - Gained(parent) && v'.leaked == v.leaked + Gained(parent)
    ensures v' == Settled(v, parent, inode)
  {
  }

  lemma SettledSums(v: Vfs, parent: Option<nat>, inode: nat)
    requires v.inflight == Gained(parent) + multiset{inode}
    ensures var v' := Settled(v, parent, inode);
      forall p: nat :: v'.custodies[p] + v'.inflight[p] + v'.leaked[p] == v.custodies[p] + v.inflight[p] + v.leaked[p]
  {
  }

  lemma BothClosed(v: Vfs, parent: Option<nat>, inode: nat)
    requires Good(v) && v.inflight == Gained(parent) + multiset{inode}
    ensures var v' := CloseStep(CloseOptional(v, parent), inode);
      Idle(v') && v'.custodies == v.custodies && v'.panicked == v.panicked
  {
    CloseOptionalPasses(v, parent);
    var v1 := CloseOptional(v, parent);
    InodeStays(v.inflight, v1.inflight, parent, inode);
    GiveUp(v, v1, Gained(parent), inode);
    NoneInFlight(CloseStep(v1, inode).inflight, v.inflight);
  }

  lemma NoneInFlight(a: multiset<nat>, lost: multiset<nat>)
    requires a + lost == lost + multiset{}
    ensures a == multiset{}
  {
    forall p: nat
      ensures a[p] == 0
    {
      assert (a + lost)[p] == (lost + multiset{})[p];
    }
  }

  lemma OpenedIsGood(v: Vfs, parent: Option<nat>, inode: nat, c: OpenCall)
    requires Good(v) && v.inflight == Gained(parent) + multiset{inode}
    ensures var (v', rc) := OpenedStep(v, parent, inode, c);
      && Idle(v') && v'.custodies == (if rc == 0 then v.custodies + multiset{inode} else v.custodies)
      && v'.panicked == v.panicked
  {
    BothClosed(v, parent, inode);
    SettledIsGood(v, parent, inode);
  }

  /** The new inode has the identifier of one that is in the cache. */
  predicate CreatesCached(v: Vfs, dir: nat, a: Answer) {
    a.Present? && dir in v.inodes && CacheLookup(v.cache, v.inodes[dir].fs, a.identifier).Some?
  }

  lemma CreateIsGood(v: Vfs, dir: nat, a: Answer)
    requires Good(v) && dir in v.inodes
    ensures var (v', p) := CreateStep(v, dir, a);
      if CreatesCached(v, dir, a) then v' == v.(panicked := true) && p.None? else Took(v, v', Gained(p))
  {
    if a.Present? && CacheLookup(v.cache, v.inodes[dir].fs, a.identifier).None? {
      var a' := a.(directory := false);
      assert a'.Present? && a'.identifier == a.identifier;
      NewInodeIsGood(v, v.inodes[dir].fs, a');
    } else {
      assert v.inflight + multiset{} == v.inflight;
    }
  }

  lemma CreatedInFlight(v: Vfs, dir: nat, a: Answer)
    requires Good(v) && dir in v.inodes
    ensures var (v', p) := CreateStep(v, dir, a);
      Good(v') && v'.inflight == v.inflight + Gained(p)
  {
    CreateIsGood(v, dir, a);
    PanickedIsGood(v);
    Rearrange(v.inflight, multiset{});
  }

  lemma PanickedIsGood(v: Vfs)
    requires Good(v)
    ensures Good(v.(panicked := true))
  {
    CacheUntouched(v, v.(panicked := true));
  }

  lemma OnlyLeft(a: multiset<nat>, gained: multiset<nat>)
    requires a + multiset{} == multiset{} + gained
    ensures a == gained
  {
    forall p: nat
      ensures a[p] == gained[p]
    {
      assert (a + multiset{})[p] == (multiset{} + gained)[p];
    }
  }

  lemma InflightIsInode(v: Vfs, p: nat)
    requires Good(v) && p in v.inflight
    ensures p in v.inodes
  {
    assert v.custodies[p] + v.inflight[p] + v.leaked[p] > 0;
  }

  lemma OneClosed(v: Vfs, dir: nat)
    requires Good(v) && v.inflight == multiset{dir}
    ensures Idle(CloseStep(v, dir)) && CloseStep(v, dir).custodies == v.custodies
    ensures CloseStep(v, dir).panicked == v.panicked
  {
    CloseIsGood(v, dir);
  }

  lemma MissingIsGood(v: Vfs, dir: nat, c: OpenCall)
    requires Good(v) && v.inflight == multiset{dir}
    ensures var (v', p, rc) := MissingStep(v, dir, c);
      && Idle(v') && (p.Some? <==> rc == 0) && v'.custodies == v.custodies + Gained(p)
      && (v'.panicked <==> v.panicked || (c.create && CreatesCached(v, dir, c.created)))
  {
    InflightIsInode(v, dir);
    Rearrange(v.custodies, multiset{});
    Rearrange(v.inflight, multiset{});
    if !c.create {
      OneClosed(v, dir);
    } else {
      CreateIsGood(v, dir, c.created);
      var (v1, made) := CreateStep(v, dir, c.created);
      if made.None? {
        PanickedIsGood(v);
        OneClosed(v1, dir);
      } else {
        OpenedIsGood(v1, Some(dir), made.value, c);
      }
    }
  }

  /** vfs_open comes to create a file, and the file system gives it the identifier of a cached inode. */
  predicate OpenCreatesCached(v: Vfs, c: OpenCall) {
    var (v1, t) := TraverseFrom(v, c.fs, c.root, c.components);
    t.Missing? && c.create && CreatesCached(v1, t.dir, c.created)
  }

  /** vfs_open gives back every reference it took, adds exactly the one custody it returns, and keeps the
      cache, the counts and the hooks as they should be. It panics only over a file that it creates. */
  lemma OpenCallIsGood(v: Vfs, c: OpenCall)
    requires Idle(v)
    ensures var (v', p, rc) := VfsOpenStep(v, c);
      && Idle(v') && (p.Some? <==> rc == 0) && v'.custodies == v.custodies + Gained(p)
      && (v'.panicked <==> v.panicked || OpenCreatesCached(v, c))
  {
    TraverseFromIsGood(v, c.fs, c.root, c.components);
    var (v1, t) := TraverseFrom(v, c.fs, c.root, c.components);
    OnlyLeft(v1.inflight, Handed(t));
    Rearrange(v.custodies, multiset{});
    match t {
      case Failed(rc) =>
      case Found(parent, inode) => OpenedIsGood(v1, parent, inode, c);
      case Missing(dir) => MissingIsGood(v1, dir, c);
    }
  }

  /** free_custody: the reference of the custody is given up. */
  function ReleaseStep(v: Vfs, p: nat): Vfs {
    CloseStep(v.(custodies := v.custodies - multiset{p}, inflight := v.inflight + multiset{p}), p)
  }

  /** A custody given up: its reference is in flight. */
  lemma HandedBackIsGood(v: Vfs, p: nat)
    requires Good(v) && p in v.custodies
    ensures Good(v.(custodies := v.custodies - multiset{p}, inflight := v.inflight + multiset{p}))
  {
    var v1 := v.(custodies := v.custodies - multiset{p}, inflight := v.inflight + multiset{p});
    forall i | 0 <= i < |v1.cache|
      ensures Cached(v1, v1.cache[i])
    {
      assert Cached(v, v.cache[i]);
    }
  }

  lemma ReleaseIsGood(v: Vfs, p: nat)
    requires Idle(v) && p in v.custodies
    ensures var v' := ReleaseStep(v, p);
      && Idle(v') && v'.custodies == v.custodies - multiset{p} && v'.panicked == v.panicked
      && (v'.hooks != v.hooks ==> p !in v'.custodies)
  {
    var v1 := v.(custodies := v.custodies - multiset{p}, inflight := v.inflight + multiset{p});
    HandedBackIsGood(v, p);
    CloseIsGood(v1, p);
    assert v.inflight + multiset{p} - multiset{p} == v.inflight;
  }

  /** vfs_duplicate. */
  function DuplicateStep(v: Vfs, p: nat, memory: bool): (Vfs, Option<nat>) {
    if !memory || p !in v.inodes then (v, None)
    else (SetCount(v, p, v.inodes[p].refcount + 1).(custodies := v.custodies + multiset{p}), Some(p))
  }

  lemma DuplicateIsGood(v: Vfs, p: nat, memory: bool)
    requires Idle(v) && p in v.custodies
    ensures var (v', r) := DuplicateStep(v, p, memory);
      && Idle(v') && v'.custodies == v.custodies + Gained(r) && (r.Some? <==> memory)
      && v'.panicked == v.panicked
  {
    assert v.custodies[p] + v.inflight[p] + v.leaked[p] > 0;
    Rearrange(v.custodies, multiset{});
    var v' := DuplicateStep(v, p, memory).0;
    assert CacheGood(v') by {
      forall i | 0 <= i < |v'.cache|
        ensures Cached(v', v'.cache[i])
      {
        assert Cached(v, v.cache[i]);
      }
    }
  }

  /** vfs_create_pipe: two custodies of one inode, or none. */
  function PipeStep(v: Vfs, c: OpenCall, memory: bool): (Vfs, Option<nat>) {
    var (v1, p, rc) := VfsOpenStep(v, c);
    if p.None? then (v1, None)
    else
      var (v2, q) := DuplicateStep(v1, p.value, memory);
      if q.None? then (ReleaseStep(v2, p.value), None) else (v2, p)
  }

  /** The second custody, or the first one given back. */
  lemma PipeEnds(v: Vfs, v1: Vfs, p: nat, memory: bool)
    requires Idle(v1) && v1.custodies == v.custodies + multiset{p}
    ensures var (v2, q) := DuplicateStep(v1, p, memory);
      var v' := if q.None? then ReleaseStep(v2, p) else v2;
      && Idle(v') && v'.panicked == v1.panicked
      && v'.custodies == if q.None? then v.custodies else v.custodies + multiset{p} + multiset{p}
  {
    DuplicateIsGood(v1, p, memory);
    if !memory {
      ReleaseIsGood(v1, p);
      OneFewer(v.custodies, p);
    }
  }

  lemma OneFewer(a: multiset<nat>, p: nat)
    ensures a + multiset{p} - multiset{p} == a
  {
  }

  lemma PipeIsGood(v: Vfs, c: OpenCall, memory: bool)
    requires Idle(v)
    ensures var (v', p) := PipeStep(v, c, memory);
      && Idle(v') && v'.custodies == v.custodies + Gained(p) + Gained(p)
      && (v'.panicked <==> v.panicked || OpenCreatesCached(v, c))
  {
    OpenCallIsGood(v, c);
    var (v1, p, rc) := VfsOpenStep(v, c);
    Rearrange(v.custodies, multiset{});
    if p.Some? {
      PipeEnds(v, v1, p.value, memory);
    }
  }

  /** The references of vfs_stat: whatever it traversed to is given back. */
  function StatStep(v: Vfs, fs: nat, root: nat, components: seq<Answer>): Vfs {
    var (v1, t) := TraverseFrom(v, fs, root, components);
    match t
    case Failed(_) => v1
    case Found(parent, inode) => CloseStep(CloseOptional(v1, parent), inode)
    case Missing(dir) => CloseStep(v1, dir)
  }

  lemma StatIsGood(v: Vfs, fs: nat, root: nat, components: seq<Answer>)
    requires Idle(v)
    ensures var v' := StatStep(v, fs, root, components);
      Idle(v') && v'.custodies == v.custodies && v'.panicked == v.panicked
  {
    TraverseFromIsGood(v, fs, root, components);
    var (v1, t) := TraverseFrom(v, fs, root, components);
    OnlyLeft(v1.inflight, Handed(t));
    match t {
      case Failed(rc) =>
      case Found(parent, inode) => BothClosed(v1, parent, inode);
      case Missing(dir) => OneClosed(v1, dir);
    }
  }

  /** vfs_mount: the root is opened for good; that it may not get a cache entry goes unnoticed, but that
      the file system will not open it or that it has an entry already trips a kassert. */
  function MountStep(v: Vfs, fs: nat, root: nat, opens: bool, cacheMemory: bool): Vfs {
    if !opens || CacheLookup(v.cache, fs, root).Some? then v.(panicked := true)
    else
      var v1 := Made(v, fs, root, true);
      var v2 := if cacheMemory then Entered(v1, fs, root, v.next) else v1;
      v2.(inflight := v2.inflight - multiset{v.next}, leaked := v2.leaked + multiset{v.next})
  }

  lemma KeptForGood(v: Vfs, p: nat)
    requires Good(v) && p in v.inflight
    ensures Good(v.(inflight := v.inflight - multiset{p}, leaked := v.leaked + multiset{p}))
  {
    var v' := v.(inflight := v.inflight - multiset{p}, leaked := v.leaked + multiset{p});
    forall i | 0 <= i < |v'.cache|
      ensures Cached(v', v'.cache[i])
    {
      assert Cached(v, v.cache[i]);
    }
  }

  lemma MountIsGood(v: Vfs, fs: nat, root: nat, opens: bool, cacheMemory: bool)
    requires Idle(v)
    ensures var v' := MountStep(v, fs, root, opens, cacheMemory);
      && Idle(v') && v'.custodies == v.custodies
      && (v'.panicked <==> v.panicked || !opens || CacheLookup(v.cache, fs, root).Some?)
  {
    PanickedIsGood(v);
    if opens && CacheLookup(v.cache, fs, root).None? {
      MadeIsGood(v, fs, root, true);
      var v1 := Made(v, fs, root, true);
      if cacheMemory {
        EnteredIsGood(v1, fs, root, v.next);
      }
      var v2 := if cacheMemory then Entered(v1, fs, root, v.next) else v1;
      KeptForGood(v2, v.next);
      assert v.inflight + multiset{v.next} - multiset{v.next} == v.inflight;
    }
  }

  // ----- Which inode is found -----

  /** Inode p is the one that the file system calls by the identifier. */
  ghost predicate Named(v: Vfs, p: nat, fs: nat, identifier: nat) {
    p in v.inodes && v.inodes[p].fs == fs && v.inodes[p].identifier == identifier
  }

  lemma LookupNames(v: Vfs, fs: nat, a: Answer)
    requires Good(v)
    ensures var (v', p) := LookupStep(v, fs, a);
      p.Some? ==> a.Present? && Named(v', p.value, fs, a.identifier)
  {
    if a.Present? {
      var r := CacheLookup(v.cache, fs, a.identifier);
      if r.Some? {
        assert Cached(v, Entry(fs, a.identifier, r.value));
      }
    }
  }

  /** The identifier that a traversal from an inode leads to: that of the last component. */
  function Destination(identifier: nat, components: seq<Answer>): nat {
    if components == [] then identifier
    else
      var last := components[|components| - 1];
      if last.Present? then last.identifier else identifier
  }

  lemma DestinationBelow(identifier: nat, child: nat, components: seq<Answer>)
    requires components != [] && components[0].Present? && child == components[0].identifier
    requires components[|components| - 1].Present?
    ensures Destination(child, components[1..]) == Destination(identifier, components)
  {
  }

  /** One step down reaches the inode that the file system answered with. */
  lemma DownReaches(v: Vfs, parent: Option<nat>, inode: nat, a: Answer)
    requires Good(v) && Gained(parent) + multiset{inode} <= v.inflight && inode in v.inodes
    ensures var (v2, child) := LookupStep(CloseOptional(v, parent), v.inodes[inode].fs, a);
      child.Some? ==>
        && Good(v2) && Gained(Some(inode)) + multiset{child.value} <= v2.inflight
        && a.Present? && Named(v2, child.value, v.inodes[inode].fs, a.identifier)
  {
    DownIsGood(v, parent, inode, a);
    var v1 := CloseOptional(v, parent);
    LookupNames(v1, v.inodes[inode].fs, a);
    var child := LookupStep(v1, v.inodes[inode].fs, a).1;
    Rearrange(Gained(child), multiset{inode});
  }

  /** From v to v' a traversal from the inode has come to the inode of the last component, if it succeeded. */
  ghost predicate Reaches(v: Vfs, inode: nat, components: seq<Answer>, v': Vfs, t: Traversed) {
    t.Found? ==>
      && (components != [] ==> components[|components| - 1].Present?)
      && inode in v.inodes
      && Named(v', t.inode, v.inodes[inode].fs, Destination(v.inodes[inode].identifier, components))
  }

  lemma ReachesFurther(v: Vfs, inode: nat, components: seq<Answer>, v2: Vfs, child: nat, v': Vfs, t: Traversed)
    requires inode in v.inodes && components != [] && components[0].Present?
    requires Named(v2, child, v.inodes[inode].fs, components[0].identifier)
    requires Reaches(v2, child, components[1..], v', t)
    ensures Reaches(v, inode, components, v', t)
  {
    var rest := components[1..];
    assert rest != [] ==> rest[|rest| - 1] == components[|components| - 1];
    if t.Found? {
      DestinationBelow(v.inodes[inode].identifier, components[0].identifier, components);
    }
  }

  /** A traversal that succeeds ends at the inode of the last component. */
  lemma {:induction false} TraverseReaches(v: Vfs, parent: Option<nat>, inode: nat, components: seq<Answer>)
    requires Good(v) && Gained(parent) + multiset{inode} <= v.inflight && inode in v.inodes
    ensures var (v', t) := TraverseStep(v, parent, inode, components);
      Reaches(v, inode, components, v', t)
    decreases |components|
  {
    if components != [] && v.inodes[inode].directory {
      var a, rest := components[0], components[1..];
      DownReaches(v, parent, inode, a);
      var (v2, child) := LookupStep(CloseOptional(v, parent), v.inodes[inode].fs, a);
      if child.Some? {
        TraverseReaches(v2, Some(inode), child.value, rest);
        var (v', t) := TraverseStep(v2, Some(inode), child.value, rest);
        ReachesFurther(v, inode, components, v2, child.value, v', t);
      }
    }
  }

  /** vfs_open, where nothing has to be created, opens the inode of the last component, or the root for
      an empty path. */
  lemma OpenReaches(v: Vfs, c: OpenCall)
    requires Idle(v) && !c.create
    ensures var (v', p, rc) := VfsOpenStep(v, c);
      p.Some? ==> Named(v', p.value, c.fs, Destination(c.root, c.components))
  {
    var r := CacheLookup(v.cache, c.fs, c.root);
    if r.Some? {
      assert Cached(v, Entry(c.fs, c.root, r.value));
      OpenIsGood(v, r.value, true);
      var v1 := OpenStep(v, r.value, true).0;
      Rearrange(multiset{r.value}, multiset{});
      TraverseReaches(v1, None, r.value, c.components);
    }
  }

  // ----- Inodes that were closed -----

  /** After the last reference is given up and the close hook has run, the inode is handed out again
      exactly if the cache still has it, which nothing takes it out of: with a count of two, and without
      asking the file system to open it. The header of vfs.cpp promises that this cannot happen. */
  lemma ClosedIsHandedOut(v: Vfs, p: nat, fs: nat, a: Answer)
    requires Good(v) && p in v.inflight && v.inodes[p].refcount == 1 && a.Present?
    ensures var v' := CloseStep(v, p);
      var (v'', found) := LookupStep(v', fs, a);
      && v'.hooks == v.hooks + [Hook(p, v.custodies)] && v'.cache == v.cache
      && (found == Some(p) <==> Entry(fs, a.identifier, p) in v.cache)
      && (found == Some(p) ==> v''.inodes[p].refcount == 2 && v''.hooks == v'.hooks)
      && (found == Some(p) ==> forall b: Answer :: b.Present? && b.identifier == a.identifier ==>
            LookupStep(v', fs, b) == (v'', found))
  {
    var v', e := CloseStep(v, p), Entry(fs, a.identifier, p);
    CloseIsGood(v, p);
    var r := CacheLookup(v'.cache, fs, a.identifier);
    if e in v.cache {
      var i :| 0 <= i < |v.cache| && v.cache[i] == e;
      var j :| 0 <= j < |v.cache| && v.cache[j] == Entry(fs, a.identifier, r.value);
      assert i == j;
    } else if r.None? {
      NewIsNotOld(v', fs, a, p);
    }
  }

  lemma NewIsNotOld(v: Vfs, fs: nat, a: Answer, p: nat)
    requires Good(v) && p in v.inodes && a.Present?
    ensures NewInode(v, fs, a).1 != Some(p)
  {
  }

  // ----- Runs -----

  datatype Event =
    | Mount(fs: nat, root: nat, opens: bool, cacheMemory: bool)
    | Open(call: OpenCall)
    | Close(inode: nat)
    | Duplicate(inode: nat, memory: bool)
    | Pipe(call: OpenCall, memory: bool)
    | Stat(fs: nat, root: nat, components: seq<Answer>)

  /** Only live custodies are closed and duplicated. */
  predicate Allowed(v: Vfs, e: Event) {
    match e
    case Close(p) => p in v.custodies
    case Duplicate(p, _) => p in v.custodies
    case _ => true
  }

  /** A panic is the end of the run. */
  function Step(v: Vfs, e: Event): Vfs {
    if v.panicked then v
    else
      match e
      case Mount(fs, root, opens, cacheMemory) => MountStep(v, fs, root, opens, cacheMemory)
      case Open(c) => VfsOpenStep(v, c).0
      case Close(p) => ReleaseStep(v, p)
      case Duplicate(p, memory) => DuplicateStep(v, p, memory).0
      case Pipe(c, memory) => PipeStep(v, c, memory).0
      case Stat(fs, root, components) => StatStep(v, fs, root, components)
  }

  /** A root is mounted, or a file created, under an identifier that is in the cache, or a root that the
      file system will not open. */
  predicate TripsKassert(v: Vfs, e: Event) {
    match e
    case Mount(fs, root, opens, _) => !opens || CacheLookup(v.cache, fs, root).Some?
    case Open(c) => OpenCreatesCached(v, c)
    case Pipe(c, _) => OpenCreatesCached(v, c)
    case _ => false
  }

  function Boot(): Vfs {
    Vfs(map[], 0, [], multiset{}, multiset{}, multiset{}, [], false)
  }

  function Run(events: seq<Event>): Vfs {
    if events == [] then Boot() else Step(Run(events[..|events| - 1]), events[|events| - 1])
  }

  predicate AllAllowed(events: seq<Event>) {
    events == [] || (AllAllowed(events[..|events| - 1]) && Allowed(Run(events[..|events| - 1]), events[|events| - 1]))
  }

  // ----- A file that is closed and opened again -----

  /** Opening the file called id in the root; whether the file system will open it. */
  function FileCall(fs: nat, root: nat, id: nat, opens: bool): OpenCall {
    OpenCall(fs, root, [Present(id, false, opens, true, true)], false, Absent, false, true)
  }

  function MountedVfs(fs: nat, root: nat): Vfs {
    Vfs(map[0 := Inode(1, fs, root, true)], 1, [Entry(fs, root, 0)], multiset{}, multiset{}, multiset{0}, [], false)
  }

  /** With n opens of the file behind it, each of which keeps a reference to the root. */
  function FileVfs(fs: nat, root: nat, id: nat, n: nat, count: nat, custodies: multiset<nat>, leaked: multiset<nat>,
          hooks: seq<Hook>): Vfs {
    Vfs(map[0 := Inode(1 + n, fs, root, true), 1 := Inode(count, fs, id, false)], 2,
        [Entry(fs, id, 1), Entry(fs, root, 0)], custodies, multiset{}, leaked, hooks, false)
  }

  lemma MountedFirst(fs: nat, root: nat)
    ensures MountStep(Boot(), fs, root, true, true) == MountedVfs(fs, root)
  {
  }

  lemma RootFound(cache: seq<Entry>, fs: nat, root: nat, id: nat)
    requires id != root
    ensures CacheLookup([Entry(fs, root, 0)], fs, root) == Some(0) && CacheLookup([Entry(fs, root, 0)], fs, id) == None
    ensures CacheLookup([Entry(fs, id, 1), Entry(fs, root, 0)], fs, root) == Some(0)
    ensures CacheLookup([Entry(fs, id, 1), Entry(fs, root, 0)], fs, id) == Some(1)
  {
    assert [Entry(fs, id, 1), Entry(fs, root, 0)][1..] == [Entry(fs, root, 0)];
  }

  lemma SameVfs(v: Vfs, v': Vfs)
    requires v.inodes == v'.inodes && v.next == v'.next && v.cache == v'.cache && v.custodies == v'.custodies
    requires v.inflight == v'.inflight && v.leaked == v'.leaked && v.hooks == v'.hooks && v.panicked == v'.panicked
    ensures v == v'
  {
  }

  lemma FirstOpen(fs: nat, root: nat, id: nat)
    requires id != root
    ensures VfsOpenStep(MountedVfs(fs, root), FileCall(fs, root, id, true))
      == (FileVfs(fs, root, id, 1, 1, multiset{1}, multiset{0, 0}, []), Some(1), 0)
  {
    RootFound([], fs, root, id);
    var v, c := MountedVfs(fs, root), FileCall(fs, root, id, true);
    var v1 := OpenStep(v, 0, true).0;
    var (v2, child) := LookupStep(v1, fs, c.components[0]);
    assert child == Some(1) && c.components[1..] == [];
    assert TraverseStep(v1, None, 0, c.components) == (v2, Found(Some(0), 1));
    assert v2.inodes == map[0 := Inode(2, fs, root, true), 1 := Inode(1, fs, id, false)];
    assert OpenedStep(v2, Some(0), 1, c) == (Settled(v2, Some(0), 1), 0);
    var v' := Settled(v2, Some(0), 1);
    assert VfsOpenStep(v, c) == (v', Some(1), 0);
    SameVfs(v', FileVfs(fs, root, id, 1, 1, multiset{1}, multiset{0, 0}, []));
  }

  lemma LastClose(fs: nat, root: nat, id: nat)
    ensures ReleaseStep(FileVfs(fs, root, id, 1, 1, multiset{1}, multiset{0, 0}, []), 1)
      == FileVfs(fs, root, id, 1, 1, multiset{}, multiset{0, 0, 1}, [Hook(1, multiset{})])
  {
  }

  lemma SecondOpen(fs: nat, root: nat, id: nat, hooks: seq<Hook>)
    requires id != root
    ensures VfsOpenStep(FileVfs(fs, root, id, 1, 1, multiset{}, multiset{0, 0, 1}, hooks),
        FileCall(fs, root, id, false))
      == (FileVfs(fs, root, id, 2, 2, multiset{1}, multiset{0, 0, 0, 1}, hooks), Some(1), 0)
  {
    RootFound([], fs, root, id);
    var v := FileVfs(fs, root, id, 1, 1, multiset{}, multiset{0, 0, 1}, hooks);
    var c := FileCall(fs, root, id, false);
    var v1 := OpenStep(v, 0, true).0;
    var (v2, child) := LookupStep(v1, fs, c.components[0]);
    assert child == Some(1) && c.components[1..] == [];
    assert TraverseStep(v1, None, 0, c.components) == (v2, Found(Some(0), 1));
    assert v2.inodes == map[0 := Inode(3, fs, root, true), 1 := Inode(2, fs, id, false)];
    assert OpenedStep(v2, Some(0), 1, c) == (Settled(v2, Some(0), 1), 0);
    var v' := Settled(v2, Some(0), 1);
    assert VfsOpenStep(v, c) == (v', Some(1), 0);
    SameVfs(v', FileVfs(fs, root, id, 2, 2, multiset{1}, multiset{0, 0, 0, 1}, hooks));
  }

  lemma RunMore(events: seq<Event>, e: Event)
    ensures Run(events + [e]) == Step(Run(events), e)
    ensures AllAllowed(events + [e]) <==> AllAllowed(events) && Allowed(Run(events), e)
  {
    assert (events + [e])[..|events|] == events;
  }

  /** The run: a file is opened, closed and opened again. The close runs its hook, and the second open
      succeeds with the same inode although the file system will not open it. */
  lemma ClosedFileReopens(fs: nat, root: nat, id: nat)
    requires id != root
    ensures var before := [] + [Mount(fs, root, true, true)] + [Open(FileCall(fs, root, id, true))] + [Close(1)];
      var (v, p, rc) := VfsOpenStep(Run(before), FileCall(fs, root, id, false));
      && AllAllowed(before) && !Run(before).panicked && Run(before).hooks == [Hook(1, multiset{})]
      && p == Some(1) && rc == 0 && v.hooks == [Hook(1, multiset{})] && v.custodies == multiset{1}
  {
    var mounted := [] + [Mount(fs, root, true, true)];
    var atWork := mounted + [Open(FileCall(fs, root, id, true))];
    RunMore([], Mount(fs, root, true, true));
    MountedFirst(fs, root);
    RunMore(mounted, Open(FileCall(fs, root, id, true)));
    FirstOpen(fs, root, id);
    RunMore(atWork, Close(1));
    LastClose(fs, root, id);
    SecondOpen(fs, root, id, [Hook(1, multiset{})]);
  }

  lemma StepIsGood(v: Vfs, e: Event)
    requires Idle(v) && Allowed(v, e)
    ensures Idle(Step(v, e)) && (Step(v, e).panicked <==> v.panicked || TripsKassert(v, e))
  {
    match e {
      case Mount(fs, root, opens, cacheMemory) => MountIsGood(v, fs, root, opens, cacheMemory);
      case Open(c) => OpenCallIsGood(v, c);
      case Close(p) => ReleaseIsGood(v, p);
      case Duplicate(p, memory) => DuplicateIsGood(v, p, memory);
      case Pipe(c, memory) => PipeIsGood(v, c, memory);
      case Stat(fs, root, components) => StatIsGood(v, fs, root, components);
    }
  }

  /** In every run of mounts, opens, closes, duplicates, pipes and stats, each inode counts exactly its
      custodies and the references that were given up for good; no close hook has run while a custody
      pointed at its inode; no identifier is cached twice. */
  lemma {:induction false} EveryRunIsGood(events: seq<Event>)
    requires AllAllowed(events)
    ensures Idle(Run(events))
  {
    if events != [] {
      EveryRunIsGood(events[..|events| - 1]);
      StepIsGood(Run(events[..|events| - 1]), events[|events| - 1]);
    }
  }

  /** A count is at least the number of live custodies. */
  lemma CountCoversCustodies(events: seq<Event>, p: nat)
    requires AllAllowed(events) && p in Run(events).custodies
    ensures p in Run(events).inodes && Run(events).inodes[p].refcount >= Run(events).custodies[p]
  {
    EveryRunIsGood(events);
    var v := Run(events);
    assert (if p in v.inodes then v.inodes[p].refcount else 0) == v.custodies[p] + v.inflight[p] + v.leaked[p];
  }

  // ----- In place -----

  class VirtualFileSystem {
    var inodes: map<nat, Inode>
    var next: nat
    var cache: seq<Entry>
    var custodies: multiset<nat>
    var panicked: bool
    ghost var inflight: multiset<nat>
    ghost var leaked: multiset<nat>
    ghost var hooks: seq<Hook>

    constructor ()
      ensures V() == Boot()
    {
      inodes, next, cache, custodies, panicked := map[], 0, [], multiset{}, false;
      inflight, leaked, hooks := multiset{}, multiset{}, [];
    }

    ghost function V(): Vfs
      reads this
    {
      Vfs(inodes, next, cache, custodies, inflight, leaked, hooks, panicked)
    }

    method OpenInode(p: nat, opens: bool) returns (rc: int)
      requires p in inodes
      modifies this`inodes, this`inflight
      ensures (V(), rc) == OpenStep(old(V()), p, opens)
    {
      var inode := inodes[p];
      if inode.refcount > 0 {
        inodes := inodes[p := inode.(refcount := inode.refcount + 1)];
        inflight := inflight + multiset{p};
        return 0;
      }
      if !opens {
        return ERR_FS;
      }
      inodes := inodes[p := inode.(refcount := 1)];
      inflight := inflight + multiset{p};
      rc := 0;
    }

    /** close_inode, of a reference in flight: the kassert on the count holds. */
    method CloseInode(p: nat)
      requires Good(V()) && p in inflight
      modifies this`inodes, this`inflight, this`leaked, this`hooks
      ensures V() == CloseStep(old(V()), p) && Good(V())
    {
      CloseIsGood(V(), p);
      assert inodes[p].refcount > 0;
      GiveBack(p);
    }

    method GiveBack(p: nat)
      requires p in inodes
      modifies this`inodes, this`inflight, this`leaked, this`hooks
      ensures V() == CloseStep(old(V()), p)
    {
      var inode := inodes[p];
      inflight := inflight - multiset{p};
      if inode.refcount > 1 {
        inodes := inodes[p := inode.(refcount := inode.refcount - 1)];
        return;
      }
      hooks := hooks + [Hook(p, custodies)];
      leaked := leaked + multiset{p};
    }

    /** icache_lookup: the list is searched from its head. */
    method FindInCache(fs: nat, identifier: nat) returns (r: Option<nat>)
      ensures r == CacheLookup(cache, fs, identifier)
    {
      var i := 0;
      while i < |cache|
        invariant 0 <= i <= |cache| && CacheLookup(cache, fs, identifier) == CacheLookup(cache[i..], fs, identifier)
      {
        if cache[i].fs == fs && cache[i].identifier == identifier {
          return Some(cache[i].inode);
        }
        assert cache[i..][1..] == cache[i + 1..];
        i := i + 1;
      }
      r := None;
    }

    method AllocateInode(fs: nat, a: Answer)
      requires a.Present?
      modifies this`inodes, this`next, this`inflight
      ensures V() == Made(old(V()), fs, a.identifier, a.directory)
    {
      inodes := inodes[next := Inode(1, fs, a.identifier, a.directory)];
      inflight := inflight + multiset{next};
      next := next + 1;
    }

    method FreeInode(p: nat)
      modifies this`inodes, this`leaked
      ensures V() == Discarded(old(V()), p)
    {
      inodes := inodes - {p};
      leaked := leaked - multiset{p};
    }

    /** A new inode, opened and entered into the cache; closed and freed again if there is no memory for
        its entry. */
    method MakeInode(fs: nat, a: Answer) returns (r: Option<nat>)
      requires Good(V()) && a.Present?
      modifies this
      ensures (V(), r) == NewInode(old(V()), fs, a)
    {
      if !a.memory || !a.opens {
        return None;
      }
      MadeIsGood(V(), fs, a.identifier, a.directory);
      var p := next;
      AllocateInode(fs, a);
      if a.cacheMemory {
        cache := [Entry(fs, a.identifier, p)] + cache;
        return Some(p);
      }
      CloseInode(p);
      FreeInode(p);
      r := None;
    }

    /** lookup_inode. */
    method LookupInode(fs: nat, a: Answer) returns (r: Option<nat>)
      requires Good(V())
      modifies this
      ensures (V(), r) == LookupStep(old(V()), fs, a)
    {
      if a.Absent? {
        return None;
      }
      r := FindInCache(fs, a.identifier);
      if r.Some? {
        assert Cached(V(), Entry(fs, a.identifier, r.value));
        var _ := OpenInode(r.value, a.opens);
        return;
      }
      r := MakeInode(fs, a);
    }

    /** traverse_in_fs, from the opened root of the file system on. */
    method TraverseInFs(root: nat, components: seq<Answer>) returns (t: Traversed)
      requires Good(V()) && root in inflight
      modifies this
      ensures (V(), t) == TraverseStep(old(V()), None, root, components) && Good(V())
    {
      var parent: Option<nat>, inode := None, root;
      var i := 0;
      while i < |components|
        invariant 0 <= i <= |components| && Good(V()) && Gained(parent) + multiset{inode} <= inflight
        invariant TraverseStep(V(), parent, inode, components[i..]) == TraverseStep(old(V()), None, root, components)
      {
        assert components[i..][1..] == components[i + 1..];
        t := Descend(parent, inode, components[i], components[i..]);
        if !t.Found? {
          return;
        }
        parent, inode := t.parent, t.inode;
        i := i + 1;
      }
      t := Found(parent, inode);
    }

    /** The body of that loop: one component down, or the end of the walk. */
    method Descend(parent: Option<nat>, inode: nat, a: Answer, rest: seq<Answer>) returns (t: Traversed)
      requires Good(V()) && Gained(parent) + multiset{inode} <= inflight && rest != [] && rest[0] == a
      modifies this
      ensures Good(V())
      ensures t.Found? ==> Gained(t.parent) + multiset{t.inode} <= inflight
      ensures TraverseStep(old(V()), parent, inode, rest)
        == if t.Found? then TraverseStep(V(), t.parent, t.inode, rest[1..]) else (V(), t)
    {
      DownIsGood(V(), parent, inode, a);
      if parent.Some? {
        CloseInode(parent.value);
      }
      if !inodes[inode].directory {
        CloseInode(inode);
        t := Failed(ERR_NOTDIR);
      } else {
        var child := LookupInode(inodes[inode].fs, a);
        if child.Some? {
          t := Found(Some(inode), child.value);
        } else if |rest| == 1 {
          t := Missing(inode);
        } else {
          CloseInode(inode);
          t := Failed(ERR_NOENT);
        }
      }
    }

    method CloseIfAny(p: Option<nat>)
      requires Good(V()) && Gained(p) <= inflight
      modifies this`inodes, this`inflight, this`leaked, this`hooks
      ensures V() == CloseOptional(old(V()), p) && Good(V())
    {
      if p.Some? {
        assert p.value in inflight;
        CloseInode(p.value);
      }
    }

    method GiveBackBoth(parent: Option<nat>, inode: nat)
      requires Good(V()) && inflight == Gained(parent) + multiset{inode}
      modifies this`inodes, this`inflight, this`leaked, this`hooks
      ensures V() == CloseStep(CloseOptional(old(V()), parent), inode)
    {
      ghost var v := V();
      CloseOptionalPasses(v, parent);
      InodeStays(v.inflight, CloseOptional(v, parent).inflight, parent, inode);
      CloseIfAny(parent);
      CloseInode(inode);
    }

    /** The end of vfs_open, with an inode at hand: a custody, or everything given back. */
    method FinishOpen(parent: Option<nat>, inode: nat, c: OpenCall) returns (rc: int)
      requires Good(V()) && inflight == Gained(parent) + multiset{inode}
      modifies this
      ensures (V(), rc) == OpenedStep(old(V()), parent, inode, c)
    {
      rc := 0;
      if inode in inodes && inodes[inode].directory && !c.directory {
        rc := ERR_ISDIR;
      } else if !c.memory {
        rc := ERR_NOMEM;
      }
      if rc != 0 {
        GiveBackBoth(parent, inode);
        return;
      }
      MakeCustody(parent, inode);
      SettledFields(old(V()), V(), parent, inode);
    }

    method MakeCustody(parent: Option<nat>, inode: nat)
      modifies this`custodies, this`inflight, this`leaked
      ensures custodies == old(custodies) + multiset{inode}
      ensures inflight == old(inflight) - multiset{inode} - Gained(parent)
      ensures leaked == old(leaked) + Gained(parent)
    {
      custodies := custodies + multiset{inode};
      inflight := inflight - multiset{inode} - Gained(parent);
      leaked := leaked + Gained(parent);
    }

    method TraverseRoot(fs: nat, root: nat, components: seq<Answer>) returns (t: Traversed)
      requires Good(V())
      modifies this
      ensures (V(), t) == TraverseFrom(old(V()), fs, root, components) && Good(V())
    {
      TraverseFromIsGood(V(), fs, root, components);
      var r := FindInCache(fs, root);
      if r.None? {
        return Failed(ERR_NOENT);
      }
      assert Cached(V(), Entry(fs, root, r.value));
      OpenIsGood(V(), r.value, true);
      var rc := OpenInode(r.value, true);
      t := TraverseInFs(r.value, components);
    }

    /** vfs_open where only the last component is missing. */
    method CreateAndOpen(dir: nat, c: OpenCall) returns (p: Option<nat>, rc: int)
      requires Good(V()) && inflight == multiset{dir}
      modifies this
      ensures (V(), p, rc) == MissingStep(old(V()), dir, c)
    {
      InflightIsInode(V(), dir);
      if !c.create {
        CloseInode(dir);
        return None, ERR_NOENT;
      }
      p := CreateInode(dir, c.created);
      if p.None? {
        CloseInode(dir);
        return None, ERR_FS;
      }
      rc := FinishOpen(Some(dir), p.value, c);
      p := if rc == 0 then p else None;
    }

    /** create_inode. */
    method CreateInode(dir: nat, a: Answer) returns (p: Option<nat>)
      requires Good(V()) && dir in inodes && inflight == multiset{dir}
      modifies this
      ensures (V(), p) == CreateStep(old(V()), dir, a)
      ensures Good(V()) && inflight == multiset{dir} + Gained(p)
    {
      CreatedInFlight(V(), dir, a);
      if a.Absent? {
        return None;
      }
      var cached := FindInCache(inodes[dir].fs, a.identifier);
      if cached.Some? {
        panicked := true;
        return None;
      }
      p := MakeInode(inodes[dir].fs, a.(directory := false));
    }

    /** vfs_open. */
    method VfsOpen(c: OpenCall) returns (p: Option<nat>, rc: int)
      requires Idle(V())
      modifies this
      ensures (V(), p, rc) == VfsOpenStep(old(V()), c) && Idle(V())
    {
      OpenCallIsGood(V(), c);
      TraverseFromIsGood(V(), c.fs, c.root, c.components);
      var t := TraverseRoot(c.fs, c.root, c.components);
      OnlyLeft(inflight, Handed(t));
      match t {
        case Failed(e) => p, rc := None, e;
        case Found(parent, inode) =>
          rc := FinishOpen(parent, inode, c);
          p := if rc == 0 then Some(inode) else None;
        case Missing(dir) =>
          p, rc := CreateAndOpen(dir, c);
      }
    }

    /** vfs_close. */
    method VfsClose(p: nat)
      requires Idle(V()) && p in custodies
      modifies this
      ensures V() == ReleaseStep(old(V()), p) && Idle(V())
      ensures hooks != old(hooks) ==> p !in custodies
    {
      ReleaseIsGood(V(), p);
      HandedBackIsGood(V(), p);
      FreeCustody(p);
      CloseInode(p);
    }

    method FreeCustody(p: nat)
      modifies this`custodies, this`inflight
      ensures var v := old(V());
        V() == v.(custodies := v.custodies - multiset{p}, inflight := v.inflight + multiset{p})
    {
      custodies := custodies - multiset{p};
      inflight := inflight + multiset{p};
    }

    /** vfs_duplicate. */
    method VfsDuplicate(p: nat, memory: bool) returns (r: Option<nat>)
      requires Idle(V()) && p in custodies
      modifies this
      ensures (V(), r) == DuplicateStep(old(V()), p, memory) && Idle(V())
    {
      DuplicateIsGood(V(), p, memory);
      if !memory {
        return None;
      }
      CustodyIsInode(V(), p);
      inodes := inodes[p := inodes[p].(refcount := inodes[p].refcount + 1)];
      custodies := custodies + multiset{p};
      r := Some(p);
    }

    /** vfs_create_pipe: the one custody is closed again if there is no second. */
    method VfsCreatePipe(c: OpenCall, memory: bool) returns (p: Option<nat>)
      requires Idle(V())
      modifies this
      ensures (V(), p) == PipeStep(old(V()), c, memory) && Idle(V())
      ensures custodies == old(custodies) + Gained(p) + Gained(p)
    {
      PipeIsGood(V(), c, memory);
      OpenCallIsGood(V(), c);
      var rc;
      p, rc := VfsOpen(c);
      if p.None? {
        return;
      }
      var receiver := VfsDuplicate(p.value, memory);
      if receiver.None? {
        VfsClose(p.value);
        p := None;
      }
    }
  }

  lemma CustodyIsInode(v: Vfs, p: nat)
    requires Good(v) && p in v.custodies
    ensures p in v.inodes
  {
    assert v.custodies[p] + v.inflight[p] + v.leaked[p] > 0;
  }
}
