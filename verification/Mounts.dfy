/** kernel/vfs/vfs.cpp: the list of mount points, and which of them a path belongs to. */
module Mounts {
  import opened IntrusiveList

  const ERR_NOMEM := -12

  /** A mounted file system and its canonical path up to the two NULs at its end. */
  datatype MountPoint = MountPoint(path: string, fs: nat)

  /** canonicalized_path_startswith. */
  predicate StartsWith(path: string, prefix: string) {
    |prefix| <= |path| && path[..|prefix|] == prefix
  }

  function FirstShorter(mounts: seq<MountPoint>, n: nat): (i: nat)
    ensures i <= |mounts|
    ensures forall k :: 0 <= k < i ==> |mounts[k].path| >= n
    ensures i < |mounts| ==> |mounts[i].path| < n
  {
    if mounts == [] || |mounts[0].path| < n then 0 else 1 + FirstShorter(mounts[1..], n)
  }

  /** vfs_mount: before the first shorter path, or at the head of the list if there is none. */
  function Mounted(mounts: seq<MountPoint>, m: MountPoint): seq<MountPoint> {
    var i := FirstShorter(mounts, |m.path|);
    if i < |mounts| then Insert(mounts, i, m) else [m] + mounts
  }

  /** Longer paths come first. */
  predicate Sorted(mounts: seq<MountPoint>) {
    forall i, j :: 0 <= i < j < |mounts| ==> |mounts[i].path| >= |mounts[j].path|
  }

  /** Mounting keeps the list sorted exactly if there is a shorter path to insert before, or none that is
      longer. */
  lemma MountKeepsSorted(mounts: seq<MountPoint>, m: MountPoint)
    requires Sorted(mounts)
    ensures Sorted(Mounted(mounts, m)) <==> (
      || (exists k :: 0 <= k < |mounts| && |mounts[k].path| < |m.path|)
      || (forall k :: 0 <= k < |mounts| ==> |mounts[k].path| <= |m.path|))
  {
    var i, r := FirstShorter(mounts, |m.path|), Mounted(mounts, m);
    if i < |mounts| {
      InsertAt(mounts, i, m);
      forall a, b | 0 <= a < b < |r|
        ensures |r[a].path| >= |r[b].path|
      {
        assert r[a] == if a < i then mounts[a] else if a == i then m else mounts[a - 1];
        assert r[b] == if b < i then mounts[b] else if b == i then m else mounts[b - 1];
      }
    } else if !(forall k :: 0 <= k < |mounts| ==> |mounts[k].path| <= |m.path|) {
      var k :| 0 <= k < |mounts| && |mounts[k].path| > |m.path|;
      assert r[0] == m && r[k + 1] == mounts[k];
    } else {
      forall a, b | 0 <= a < b < |r|
        ensures |r[a].path| >= |r[b].path|
      {
        assert a > 0 ==> r[a] == mounts[a - 1];
        assert r[b] == mounts[b - 1];
      }
    }
  }

  lemma MountAdds(mounts: seq<MountPoint>, m: MountPoint)
    ensures multiset(Mounted(mounts, m)) == multiset(mounts) + multiset{m}
  {
    var i := FirstShorter(mounts, |m.path|);
    assert mounts == mounts[..i] + mounts[i..];
  }

  function MountAll(ms: seq<MountPoint>): seq<MountPoint> {
    if ms == [] then [] else Mounted(MountAll(ms[..|ms| - 1]), ms[|ms| - 1])
  }

  /** The root is mounted first, and nothing else has its empty path. */
  predicate RootFirst(ms: seq<MountPoint>) {
    && (ms != [] ==> ms[0].path == "")
    && forall i :: 0 < i < |ms| ==> ms[i].path != ""
  }

  lemma ShorterIsMounted(before: seq<MountPoint>, mounts: seq<MountPoint>, m: MountPoint)
    requires before != [] && before[0].path == "" && m.path != "" && multiset(mounts) == multiset(before)
    ensures exists k :: 0 <= k < |mounts| && |mounts[k].path| < |m.path|
  {
    InBoth(mounts, before, before[0]);
    var k :| 0 <= k < |mounts| && mounts[k] == before[0];
    assert |mounts[k].path| < |m.path|;
  }

  lemma OneMoreSorted(before: seq<MountPoint>, mounts: seq<MountPoint>, m: MountPoint)
    requires Sorted(mounts) && multiset(mounts) == multiset(before)
    requires before != [] ==> before[0].path == "" && m.path != ""
    ensures Sorted(Mounted(mounts, m))
  {
    if before == [] {
      assert |mounts| == |multiset(mounts)| == |multiset(before)| == |before|;
    } else {
      ShorterIsMounted(before, mounts, m);
    }
    MountKeepsSorted(mounts, m);
  }

  /** If the root is mounted first, the list stays sorted whatever is mounted after it, and it holds all
      that was mounted. */
  lemma {:induction false} EveryRunSorted(ms: seq<MountPoint>)
    requires RootFirst(ms)
    ensures Sorted(MountAll(ms)) && multiset(MountAll(ms)) == multiset(ms)
  {
    if ms != [] {
      var before, m := ms[..|ms| - 1], ms[|ms| - 1];
      EveryRunSorted(before);
      MountAdds(MountAll(before), m);
      assert ms == before + [m];
      OneMoreSorted(before, MountAll(before), m);
    }
  }

  /** Mounting the root later puts it before everything else. */
  lemma RootLaterFails()
    ensures var dev, root := MountPoint("\0dev", 0), MountPoint("", 1);
      MountAll([] + [dev] + [root]) == [root, dev] && !Sorted([root, dev])
  {
    var dev, root := MountPoint("\0dev", 0), MountPoint("", 1);
    var ms := [] + [dev] + [root];
    assert ms[..1] == [] + [dev] && ms[..1][..0] == [];
    assert MountAll(ms[..1]) == [dev];
    assert |[root, dev][0].path| < |[root, dev][1].path|;
  }

  function FirstMatch(mounts: seq<MountPoint>, path: string): (i: nat)
    ensures i <= |mounts|
    ensures forall k :: 0 <= k < i ==> !StartsWith(path, mounts[k].path)
    ensures i < |mounts| ==> StartsWith(path, mounts[i].path)
  {
    if mounts == [] || StartsWith(path, mounts[0].path) then 0 else 1 + FirstMatch(mounts[1..], path)
  }

  /** In a sorted list the first match is the longest mounted prefix of the path. */
  lemma FirstIsLongest(mounts: seq<MountPoint>, path: string, m: MountPoint)
    requires Sorted(mounts) && m in mounts && StartsWith(path, m.path)
    ensures FirstMatch(mounts, path) < |mounts| && |m.path| <= |mounts[FirstMatch(mounts, path)].path|
  {
    var k :| 0 <= k < |mounts| && mounts[k] == m;
  }

  /** After any run that mounts the root first, every path belongs to the longest of the mounted prefixes. */
  lemma EveryRunFindsLongest(ms: seq<MountPoint>, path: string)
    requires RootFirst(ms) && ms != []
    ensures var mounts := MountAll(ms);
      var i := FirstMatch(mounts, path);
      && i < |mounts| && mounts[i] in ms && StartsWith(path, mounts[i].path)
      && forall m :: m in ms && StartsWith(path, m.path) ==> |m.path| <= |mounts[i].path|
  {
    var mounts := MountAll(ms);
    EveryRunSorted(ms);
    InBoth(mounts, ms, ms[0]);
    FirstIsLongest(mounts, path, ms[0]);
    InBoth(mounts, ms, mounts[FirstMatch(mounts, path)]);
    forall m | m in ms && StartsWith(path, m.path)
      ensures |m.path| <= |mounts[FirstMatch(mounts, path)].path|
    {
      InBoth(mounts, ms, m);
      FirstIsLongest(mounts, path, m);
    }
  }

  lemma InBoth(a: seq<MountPoint>, b: seq<MountPoint>, m: MountPoint)
    requires multiset(a) == multiset(b)
    ensures m in a <==> m in b
  {
    assert m in multiset(a) <==> m in multiset(b);
  }

  // ----- On the list -----

  class MountTable {
    const list: List<MountPoint>

    constructor ()
      ensures Valid() && Points() == [] && fresh(list)
    {
      list := new List<MountPoint>();
    }

    ghost predicate Valid()
      reads this, list, list.nodes
    {
      list.Valid()
    }

    ghost function Points(): seq<MountPoint>
      reads this, list
    {
      Data(list.nodes)
    }

    /** The list part of vfs_mount; the allocations before it may fail. */
    method Mount(path: string, fs: nat) returns (rc: int)
      requires Valid()
      modifies list, list.nodes
      ensures Valid() && (rc == 0 || rc == ERR_NOMEM)
      ensures Points() == if rc == 0 then Mounted(old(Points()), MountPoint(path, fs)) else old(Points())
    {
      var fails: bool := *;
      if fails {
        return ERR_NOMEM;
      }
      ghost var was, m := list.nodes, MountPoint(path, fs);
      var mp := new Node<MountPoint>(MountPoint(path, fs));
      var after, i := list.Find((q: MountPoint) => |q.path| < |path|);
      FirstShorterAt(Data(was), |path|, i);
      if after != null {
        list.AppendBefore(mp, after, i);
        DataInsert(was, i, mp);
      } else {
        list.Add(mp);
        assert ([mp] + was)[1..] == was;
      }
      rc := 0;
    }

    /** The mount point that a path belongs to. */
    method FindMount(cpath: string) returns (mp: Node?<MountPoint>)
      requires Valid()
      ensures mp == null <==> FirstMatch(Points(), cpath) == |Points()|
      ensures mp != null ==> mp.data == Points()[FirstMatch(Points(), cpath)]
    {
      ghost var i;
      mp, i := list.Find((q: MountPoint) => StartsWith(cpath, q.path));
      FirstMatchAt(Data(list.nodes), cpath, i);
    }
  }

  lemma FirstShorterAt(mounts: seq<MountPoint>, n: nat, i: nat)
    requires i <= |mounts| && (forall k :: 0 <= k < i ==> |mounts[k].path| >= n)
    requires i < |mounts| ==> |mounts[i].path| < n
    ensures FirstShorter(mounts, n) == i
  {
  }

  lemma FirstMatchAt(mounts: seq<MountPoint>, path: string, i: nat)
    requires i <= |mounts| && (forall k :: 0 <= k < i ==> !StartsWith(path, mounts[k].path))
    requires i < |mounts| ==> StartsWith(path, mounts[i].path)
    ensures FirstMatch(mounts, path) == i
  {
  }

  lemma DataInsert(nodes: seq<Node<MountPoint>>, i: nat, mp: Node<MountPoint>)
    requires i <= |nodes|
    ensures Data(Insert(nodes, i, mp)) == Insert(Data(nodes), i, mp.data)
  {
    var x, y := Data(Insert(nodes, i, mp)), Insert(Data(nodes), i, mp.data);
    forall k | 0 <= k <= |nodes|
      ensures x[k] == y[k]
    {
      InsertedAt(nodes, i, mp, k);
      InsertedAt(Data(nodes), i, mp.data, k);
    }
  }

  /** One index after an insertion. */
  lemma InsertedAt<T>(s: seq<T>, i: nat, x: T, k: nat)
    requires i <= |s| && k <= |s|
    ensures Insert(s, i, x)[k] == if k < i then s[k] else if k == i then x else s[k - 1]
  {
    InsertAt(s, i, x);
  }
}
