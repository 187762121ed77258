/** kernel/vfs/fs.cpp: canonicalize_path, decanonicalize_path and the functions on canonical paths, in
    place on NUL-terminated buffers. */
module PathBuffers {
  import opened Paths

  /** A string of n characters and two NULs behind it. */
  ghost predicate Holds(b: array<char>, s: string)
    reads b
  {
    |s| + 2 <= b.Length && b[..|s|] == s && b[|s|] == NUL && b[|s| + 1] == NUL && Free(s, NUL)
  }

  lemma EraseKeepsFree(s: string, start: nat, src: nat, s': string)
    requires start <= src < |s| && Free(s, NUL) && s' == s[..start] + Slashes(src + 1 - start) + s[src + 1..]
    ensures |s'| == |s| && Free(s', NUL)
  {
  }

  /** "..": memset over the component before, up to and including the first dot. */
  method EraseDotDotsPass(b: array<char>, ghost s0: string)
    requires Holds(b, s0) && b.Length == |s0| + 2
    modifies b
    ensures Holds(b, EraseDotDots(s0, 0, 0, 0))
  {
    ghost var s := s0;
    var src, start, end := 0, 0, 0;
    while b[src] != NUL
      invariant Holds(b, s) && |s| == |s0| && start <= end <= src <= |s|
      invariant EraseDotDots(s, src, start, end) == EraseDotDots(s0, 0, 0, 0)
      decreases |s| - src
    {
      if b[src] == '/' {
        start, end := end, src;
      }
      if b[src] != '.' || b[src + 1] != '.' {
        src := src + 1;
        continue;
      }
      ghost var s' := s[..start] + Slashes(src + 1 - start) + s[src + 1..];
      EraseKeepsFree(s, start, src, s');
      forall i | start <= i < src + 1 {
        b[i] := '/';
      }
      assert b[..|s'|] == s';
      s := s';
      src := src + 2;
    }
  }

  /** "/.": every dot behind a separator becomes a separator. */
  method EraseDotsPass(b: array<char>, ghost s0: string)
    requires Holds(b, s0) && b.Length == |s0| + 2
    modifies b
    ensures Holds(b, EraseDots(false, s0))
  {
    if b[0] == NUL {
      return;
    }
    ghost var s := s0;
    var src := 0;
    assert s[..1] == [s0[0]];
    while b[src] != NUL && b[src + 1] != NUL
      invariant Holds(b, s) && |s| == |s0| && src < |s|
      invariant EraseDots(false, s0) == s[..src + 1] + EraseDots(s[src] == '/', s[src + 1..])
      decreases |s| - src
    {
      ghost var s' := if s[src] == '/' && s[src + 1] == '.' then s[src + 1 := '/'] else s;
      if b[src] == '/' && b[src + 1] == '.' {
        b[src + 1] := '/';
      }
      assert b[..|s'|] == s';
      OneMoreDot(s, s', src);
      s := s';
      src := src + 1;
    }
    assert s[..src + 1] + EraseDots(s[src] == '/', s[src + 1..]) == s;
  }

  lemma OneMoreDot(s: string, s': string, src: nat)
    requires src + 1 < |s| && s' == if s[src] == '/' && s[src + 1] == '.' then s[src + 1 := '/'] else s
    ensures s'[..src + 2] + EraseDots(s'[src + 1] == '/', s'[src + 2..])
        == s[..src + 1] + EraseDots(s[src] == '/', s[src + 1..])
  {
    var rest := EraseDots(s'[src + 1] == '/', s'[src + 2..]);
    assert s[src + 1..][1..] == s'[src + 2..];
    assert EraseDots(s[src] == '/', s[src + 1..]) == [s'[src + 1]] + rest;
    assert s'[..src + 2] == s[..src + 1] + [s'[src + 1]];
    Associative(s[..src + 1], [s'[src + 1]], rest);
  }

  // ----- Collapsing separators -----

  /** Positions i to j hold separators only. */
  predicate Run(s: string, i: nat, j: nat) {
    j <= |s| && forall k :: i <= k < j ==> s[k] == '/'
  }

  /** The end of the run of separators at position i. */
  method CountSlashes(b: array<char>, i: nat, ghost s: string) returns (temp: nat)
    requires Holds(b, s) && i < |s| && s[i] == '/'
    ensures i < temp && Run(s, i, temp) && (temp < |s| ==> s[temp] != '/')
  {
    temp := i;
    while b[temp] == '/'
      invariant i <= temp && Run(s, i, temp)
      decreases |s| - temp
    {
      temp := temp + 1;
    }
  }

  lemma CollapseRun(s: string, k: nat)
    requires Run(s, 0, k)
    ensures Collapse(true, s) == Collapse(true, s[k..])
    decreases |s|
  {
    if k > 0 {
      CollapseRun(s[1..], k - 1);
      assert s[1..][k - 1..] == s[k..];
    }
  }

  /** A run of separators shrinks to one. */
  lemma RunCollapses(s: string, s': string, src: nat, temp: nat)
    requires src < temp && Run(s, src, temp) && (temp < |s| ==> s[temp] != '/')
    requires s' == s[..src + 1] + s[temp..]
    ensures s[..src] + Collapse(false, s[src..]) == s'[..src + 1] + Collapse(false, s'[src + 1..])
  {
    var rest := s[src + 1..];
    assert s[src..][1..] == rest;
    assert Collapse(false, s[src..]) == ['/'] + Collapse(true, rest);
    CollapseRun(rest, temp - src - 1);
    assert rest[temp - src - 1..] == s[temp..] == s'[src + 1..];
    assert s'[..src + 1] == s[..src] + ['/'];
    Associative(s[..src], ['/'], Collapse(true, s[temp..]));
  }

  lemma OrdinaryStays(s: string, src: nat)
    requires src < |s| && s[src] != '/'
    ensures s[..src] + Collapse(false, s[src..]) == s[..src + 1] + Collapse(false, s[src + 1..])
  {
    assert s[src..][1..] == s[src + 1..];
    assert s[..src + 1] == s[..src] + [s[src]];
    Associative(s[..src], [s[src]], Collapse(false, s[src + 1..]));
  }

  /** memmove within a buffer, to a lower position. */
  method Memmove(b: array<char>, dst: nat, src: nat, n: nat)
    requires dst <= src && src + n <= b.Length
    modifies b
    ensures forall i :: 0 <= i < dst ==> b[i] == old(b[i])
    ensures forall i :: dst <= i < dst + n ==> b[i] == old(b[i - dst + src])
    ensures forall i :: dst + n <= i < b.Length ==> b[i] == old(b[i])
  {
    forall i | dst <= i < dst + n {
      b[i] := b[i - dst + src];
    }
  }

  lemma FreeShrinks(s: string, s': string, src: nat, temp: nat)
    requires src < temp <= |s| && Free(s, NUL) && s' == s[..src + 1] + s[temp..]
    ensures Free(s', NUL)
  {
  }

  /** At a separator: those behind it are dropped, and the rest of the buffer moves down. */
  method CollapseAt(b: array<char>, src: nat, ghost s: string) returns (ghost s': string)
    requires Holds(b, s) && src < |s| && s[src] == '/'
    modifies b
    ensures Holds(b, s') && src < |s'| <= |s|
    ensures s[..src] + Collapse(false, s[src..]) == s'[..src + 1] + Collapse(false, s'[src + 1..])
  {
    var temp := CountSlashes(b, src, s);
    s' := s[..src + 1] + s[temp..];
    RunCollapses(s, s', src, temp);
    if temp - src == 1 {
      assert s' == s;
      return;
    }
    MoveDown(b, src, temp, s, s');
  }

  method MoveDown(b: array<char>, src: nat, temp: nat, ghost s: string, ghost s': string)
    requires Holds(b, s) && src < temp <= |s| && s' == s[..src + 1] + s[temp..]
    modifies b
    ensures Holds(b, s')
  {
    ghost var before := b[..];
    Memmove(b, src + 1, temp, b.Length - temp);
    Moved(before, b[..], s, s', src, temp);
    FreeShrinks(s, s', src, temp);
  }

  method CollapsePass(b: array<char>, ghost s0: string) returns (ghost s: string)
    requires Holds(b, s0)
    modifies b
    ensures s == Collapse(false, s0) && Holds(b, s)
  {
    s := s0;
    var src := 0;
    assert s[..0] + Collapse(false, s[0..]) == Collapse(false, s);
    while b[src] != NUL
      invariant Holds(b, s) && src <= |s|
      invariant Collapse(false, s0) == s[..src] + Collapse(false, s[src..])
      decreases |s| - src
    {
      if b[src] != '/' {
        OrdinaryStays(s, src);
      } else {
        s := CollapseAt(b, src, s);
      }
      src := src + 1;
    }
    assert s[..src] + Collapse(false, s[src..]) == s;
  }

  lemma Moved(b: seq<char>, b': seq<char>, s: string, s': string, src: nat, temp: nat)
    requires |b| == |b'| && |s| + 2 <= |b| && b[..|s|] == s && b[|s|] == NUL && b[|s| + 1] == NUL && src < temp <= |s|
    requires s' == s[..src + 1] + s[temp..]
    requires forall i :: 0 <= i < src + 1 ==> b'[i] == b[i]
    requires forall i :: src + 1 <= i < src + 1 + |b| - temp ==> b'[i] == b[i - src - 1 + temp]
    ensures b'[..|s'|] == s' && b'[|s'|] == NUL && b'[|s'| + 1] == NUL
  {
    forall i | 0 <= i < |s'|
      ensures b'[i] == s'[i]
    {
      if i < src + 1 {
        assert b[i] == s[i];
      } else {
        assert b[i - src - 1 + temp] == s[i - src - 1 + temp];
      }
    }
  }

  // ----- canonicalize_path -----

  method ReplaceSeparators(b: array<char>, ghost s: string)
    requires Holds(b, s)
    modifies b
    ensures EndsAt(b, SeparatorsToNul(s))
  {
    var len := 0;
    while b[len] != NUL
      invariant len <= |s|
      decreases |s| - len
    {
      len := len + 1;
    }
    var i := 0;
    while i < len
      invariant 0 <= i <= len && b[|s|] == NUL && b[|s| + 1] == NUL
      invariant forall k :: 0 <= k < i ==> b[k] == if s[k] == '/' then NUL else s[k]
      invariant forall k :: i <= k < |s| ==> b[k] == s[k]
    {
      if b[i] == '/' {
        b[i] := NUL;
      }
      i := i + 1;
    }
    b[len] := NUL;
    b[len + 1] := NUL;
  }

  /** As Holds, but the string may have NULs of its own. */
  ghost predicate EndsAt(b: array<char>, s: string)
    reads b
  {
    |s| + 2 <= b.Length && b[..|s|] == s && b[|s|] == NUL && b[|s| + 1] == NUL
  }

  lemma IsCanonical(b: string, p: string, s: string)
    requires s == Cleaned(p) && |s| + 2 <= |b| && b[..|s|] == SeparatorsToNul(s) && b[|s|] == NUL && b[|s| + 1] == NUL
    ensures Canonical(b, p)
  {
    assert TwoNuls(b[|s|..]) && b == SeparatorsToNul(s) + b[|s|..];
  }

  /** canonicalize_path, for every string: it stays inside its buffer of two characters more than the
      path, and what it leaves there is the canonical path. */
  method CanonicalizePath(path: string) returns (cpath: array?<char>)
    requires Free(path, NUL)
    ensures cpath != null ==> fresh(cpath) && cpath.Length == |SkipSeparators(path)| + 2 && Canonical(cpath[..], path)
  {
    var skipped := 0;
    while skipped + 1 < |path| && path[skipped] == '/' && path[skipped + 1] == '/'
      invariant skipped <= |path| && SkipSeparators(path) == SkipSeparators(path[skipped..])
      decreases |path| - skipped
    {
      assert path[skipped..][1..] == path[skipped + 1..];
      skipped := skipped + 1;
    }
    var p := path[skipped..];
    assert p == SkipSeparators(path);
    var fails: bool := *;
    if fails {
      return null;
    }
    cpath := new char[|p| + 2](i => if 0 <= i < |p| then p[i] else NUL);
    assert cpath[..|p|] == p;
    EraseDotDotsPass(cpath, p);
    EraseDotsPass(cpath, EraseDotDots(p, 0, 0, 0));
    ghost var s := CollapsePass(cpath, EraseDots(false, EraseDotDots(p, 0, 0, 0)));
    ReplaceSeparators(cpath, s);
    IsCanonical(cpath[..], path, s);
  }

  // ----- decanonicalize_path and the canonical length -----

  method CanonicalizedPathStrlen(b: array<char>, ghost n: nat) returns (len: nat)
    requires n + 1 < b.Length && b[n] == NUL && b[n + 1] == NUL
    ensures len == CanonicalLength(b[..]) && len <= n && b[len] == NUL && b[len + 1] == NUL
  {
    len := 0;
    assert b[0..] == b[..];
    while b[len] != NUL || b[len + 1] != NUL
      invariant len <= n && CanonicalLength(b[..]) == len + CanonicalLength(b[len..])
      decreases n - len
    {
      assert b[len..][1..] == b[len + 1..];
      len := len + 1;
    }
  }

  /** decanonicalize_path: up to the first two NULs. */
  method DecanonicalizePath(b: array<char>, ghost n: nat)
    requires n + 1 < b.Length && b[n] == NUL && b[n + 1] == NUL
    modifies b
    ensures b[..] == Decanonicalized(old(b[..]))
  {
    ghost var was := b[..];
    if b[0] == NUL && b[1] == NUL {
      b[0] := '/';
      assert b[..] == "/" + was[1..];
      return;
    }
    var src := 0;
    assert was[0..] == was;
    while b[src] != NUL || b[src + 1] != NUL
      invariant src <= n && b[n] == NUL && b[n + 1] == NUL && CanonicalLength(was) == src + CanonicalLength(was[src..])
      invariant forall k :: 0 <= k < src ==> b[k] == if was[k] == NUL then '/' else was[k]
      invariant forall k :: src <= k < b.Length ==> b[k] == was[k]
      decreases n - src
    {
      assert was[src..][1..] == was[src + 1..];
      if b[src] == NUL {
        b[src] := '/';
      }
      src := src + 1;
    }
    assert b[..] == NulsToSeparators(was[..src]) + was[src..];
  }

  /** canonicalized_path_startswith: whether the one path, up to its two NULs, begins with the other. */
  method CanonicalizedPathStartsWith(path: array<char>, prefix: array<char>, ghost n: nat, ghost m: nat)
    returns (starts: bool)
    requires n + 1 < path.Length && path[n] == NUL && path[n + 1] == NUL
    requires m + 1 < prefix.Length && prefix[m] == NUL && prefix[m + 1] == NUL
    ensures starts <==>
      var p, q := path[..CanonicalLength(path[..])], prefix[..CanonicalLength(prefix[..])];
      |q| <= |p| && p[..|q|] == q
  {
    var pathLen := CanonicalizedPathStrlen(path, n);
    var prefixLen := CanonicalizedPathStrlen(prefix, m);
    if pathLen < prefixLen {
      return false;
    }
    var i := 0;
    while i < prefixLen
      invariant 0 <= i <= prefixLen && path[..i] == prefix[..i]
    {
      if path[i] != prefix[i] {
        assert path[..pathLen][..prefixLen][i] != prefix[..prefixLen][i];
        return false;
      }
      i := i + 1;
    }
    assert path[..pathLen][..prefixLen] == path[..prefixLen];
    starts := true;
  }
}
