/** kernel/vfs/fs.cpp: paths as components, what canonicalize_path makes of them, and the form in which
    traverse_in_fs steps through them. */
module Paths {

  const NUL := '\0'

  // ----- Paths and their segments -----

  /** A path with one separator in front of each segment. */
  function Join(segs: seq<string>): string {
    if segs == [] then "" else Join(segs[..|segs| - 1]) + "/" + segs[|segs| - 1]
  }

  predicate Free(s: string, c: char) {
    forall i :: 0 <= i < |s| ==> s[i] != c
  }

  /** Two dots in a row. */
  predicate HasDotDot(s: string) {
    exists i :: 0 <= i < |s| - 1 && s[i] == '.' && s[i + 1] == '.'
  }

  predicate IsName(s: string) {
    s != "" && s[0] != '.' && !HasDotDot(s) && Free(s, '/') && Free(s, NUL)
  }

  /** The segments that canonicalize_path is made for: names that do not start with a dot and have no
      two dots in a row, and the three special ones. */
  predicate IsSegment(s: string) {
    s == "" || s == "." || s == ".." || IsName(s)
  }

  predicate AllSegments(segs: seq<string>) {
    forall i :: 0 <= i < |segs| ==> IsSegment(segs[i])
  }

  predicate AllNames(segs: seq<string>) {
    forall i :: 0 <= i < |segs| ==> IsName(segs[i])
  }

  /** What a path means: "" and "." stay, ".." goes back one component, from the root to the root. */
  function Resolve(segs: seq<string>): (names: seq<string>)
    ensures forall i :: 0 <= i < |names| ==> names[i] in segs
  {
    if segs == [] then []
    else
      var before, last := Resolve(segs[..|segs| - 1]), segs[|segs| - 1];
      if last == "" || last == "." then before
      else if last == ".." then (if before == [] then [] else before[..|before| - 1])
      else before + [last]
  }

  /** What canonicalize_path keeps: the names that are not directly followed by "..". */
  function Kept(segs: seq<string>): (names: seq<string>)
    ensures forall i :: 0 <= i < |names| ==> names[i] in segs
  {
    if segs == [] then []
    else
      var before, last := Kept(segs[..|segs| - 1]), segs[|segs| - 1];
      if last == "" || last == "." then before
      else if last == ".." then (if EndsWithName(segs[..|segs| - 1]) && before != [] then before[..|before| - 1]
          else before)
      else before + [last]
  }

  predicate EndsWithName(segs: seq<string>) {
    segs != [] && segs[|segs| - 1] != "" && segs[|segs| - 1] != "." && segs[|segs| - 1] != ".."
  }

  /** Every ".." comes directly after a name, or where nothing is left to go back from. */
  predicate DotDotsFit(segs: seq<string>) {
    segs == [] || (
      var before := segs[..|segs| - 1];
      DotDotsFit(before) && (segs[|segs| - 1] == ".." ==> EndsWithName(before) || Resolve(before) == []))
  }

  lemma {:induction false} KeptAtLeast(segs: seq<string>)
    ensures |Resolve(segs)| <= |Kept(segs)|
    ensures EndsWithName(segs) ==> Kept(segs) != [] && Resolve(segs) != []
  {
    if segs != [] {
      KeptAtLeast(segs[..|segs| - 1]);
    }
  }

  /** canonicalize_path resolves a path exactly if its ".." fit. */
  lemma {:induction false} KeptIsResolved(segs: seq<string>)
    ensures Kept(segs) == Resolve(segs) <==> DotDotsFit(segs)
    ensures !DotDotsFit(segs) ==> |Resolve(segs)| < |Kept(segs)|
  {
    if segs != [] {
      var before := segs[..|segs| - 1];
      KeptIsResolved(before);
      KeptAtLeast(before);
    }
  }

  lemma OneMore(segs: seq<string>, x: string)
    ensures Resolve(segs + [x]) == (
      var before := Resolve(segs);
      if x == "" || x == "." then before
          else if x == ".." then (if before == [] then [] else before[..|before| - 1]) else before + [x])
    ensures Kept(segs + [x]) == (
      var before := Kept(segs);
      if x == "" || x == "." then before
      else if x == ".." then (if EndsWithName(segs) && before != [] then before[..|before| - 1] else before)
      else before + [x])
  {
    assert (segs + [x])[..|segs|] == segs;
  }

  /** Two ".." in a row go back only once. */
  lemma DotDotTwiceFails()
    ensures Resolve([] + ["a"] + ["b"] + [".."] + [".."]) == [] && Kept([] + ["a"] + ["b"] + [".."] + [".."]) == ["a"]
  {
    OneMore([], "a");
    OneMore([] + ["a"], "b");
    OneMore([] + ["a"] + ["b"], "..");
    OneMore([] + ["a"] + ["b"] + [".."], "..");
  }

  // ----- The three passes, on characters -----

  function Slashes(n: nat): (s: string)
    ensures |s| == n && forall i :: 0 <= i < n ==> s[i] == '/'
  {
    seq(n, _ => '/')
  }

  predicate DotDotAt(b: string, i: nat) {
    i + 1 < |b| && b[i] == '.' && b[i + 1] == '.'
  }

  /** Removing the component before each "..": from position src on, with the last two separators seen. */
  function EraseDotDots(b: string, src: nat, start: nat, end: nat): (r: string)
    requires start <= end <= src <= |b|
    ensures |r| == |b|
    decreases |b| - src
  {
    if src == |b| then b
    else
      var start', end' := if b[src] == '/' then end else start, if b[src] == '/' then src else end;
      if DotDotAt(b, src)
      then EraseDotDots(b[..start'] + Slashes(src + 1 - start') + b[src + 1..], src + 2, start', end')
      else EraseDotDots(b, src + 1, start', end')
  }

  /** Turning "/." into "//"; slash says whether the character before is a separator. */
  function EraseDots(slash: bool, s: string): (r: string)
    ensures |r| == |s|
    decreases |s|
  {
    if s == "" then ""
    else
      var c := if slash && s[0] == '.' then '/' else s[0];
      [c] + EraseDots(c == '/', s[1..])
  }

  /** Dropping separators after a separator. */
  function Collapse(slash: bool, s: string): string
    decreases |s|
  {
    if s == "" then ""
    else if slash && s[0] == '/' then Collapse(true, s[1..])
    else [s[0]] + Collapse(s[0] == '/', s[1..])
  }

  function SeparatorsToNul(s: string): (r: string)
    ensures |r| == |s| && forall i :: 0 <= i < |s| ==> r[i] == if s[i] == '/' then NUL else s[i]
  {
    if s == "" then "" else [if s[0] == '/' then NUL else s[0]] + SeparatorsToNul(s[1..])
  }

  /** Leading separators but one are skipped. */
  function SkipSeparators(p: string): string {
    if |p| > 1 && p[0] == '/' && p[1] == '/' then SkipSeparators(p[1..]) else p
  }

  /** The string that the passes leave, before its separators are turned into NULs. */
  function Cleaned(p: string): string {
    Collapse(false, EraseDots(false, EraseDotDots(SkipSeparators(p), 0, 0, 0)))
  }

  // ----- The passes, on segments -----

  /** A segment after the first pass: as it was, erased, or a ".." of which the second dot is left. */
  predicate Pending(t: string) {
    t == "" || t == "." || t == "/." || IsName(t)
  }

  predicate AllSlashes(t: string) {
    forall i :: 0 <= i < |t| ==> t[i] == '/'
  }

  predicate Settled(t: string) {
    Pending(t) || AllSlashes(t)
  }

  /** The first pass, one segment at a time: done are the segments that no ".." can reach any more, t is
      the last one. */
  function Erased(done: seq<string>, t: string, segs: seq<string>): seq<string>
    decreases |segs|
  {
    if segs == [] then done + [t]
    else if segs[0] == ".." then Erased(done + [Slashes(|t|)], "/.", segs[1..])
    else Erased(done + [t], segs[0], segs[1..])
  }

  lemma {:induction false} JoinAppend(a: seq<string>, b: seq<string>)
    ensures Join(a + b) == Join(a) + Join(b)
  {
    if b == [] {
      assert a + b == a;
    } else {
      var b', x := b[..|b| - 1], b[|b| - 1];
      assert (a + b)[..|a + b| - 1] == a + b' && (a + b)[|a + b| - 1] == x;
      JoinAppend(a, b');
      assert Join(a) + Join(b') + "/" + x == Join(a) + (Join(b') + "/" + x);
    }
  }

  lemma JoinOne(x: string)
    ensures Join([x]) == "/" + x
  {
    assert [x][..0] == [];
  }

  lemma JoinFirst(x: string, segs: seq<string>)
    ensures Join([x] + segs) == "/" + x + Join(segs)
  {
    JoinAppend([x], segs);
    JoinOne(x);
  }

  lemma JoinLast(segs: seq<string>, x: string)
    ensures Join(segs + [x]) == Join(segs) + "/" + x
  {
    assert (segs + [x])[..|segs|] == segs;
  }

  lemma JoinStarts(segs: seq<string>)
    ensures Join(segs) == "" <==> segs == []
    ensures segs != [] ==> Join(segs)[0] == '/'
  {
    if segs != [] {
      assert segs == [segs[0]] + segs[1..];
      JoinFirst(segs[0], segs[1..]);
    }
  }

  // ----- First pass -----

  lemma {:induction false} Walk(b: string, src: nat, k: nat, start: nat, end: nat)
    requires start <= end <= src && src + k <= |b|
    requires forall i :: src <= i < src + k ==> b[i] != '/' && !DotDotAt(b, i)
    ensures EraseDotDots(b, src, start, end) == EraseDotDots(b, src + k, start, end)
    decreases k
  {
    if k > 0 {
      Walk(b, src + 1, k - 1, start, end);
    }
  }

  /** Over a segment that is not "..": nothing changes but the separators seen. */
  lemma PassSegment(b: string, x: string, src: nat, start: nat, end: nat, seg: string, rest: string, src': nat)
    requires b == x + "/" + seg + rest && src == |x| && src' == |x| + 1 + |seg|
    requires start <= end <= src && IsSegment(seg) && seg != ".." && (rest == "" || rest[0] == '/')
    ensures EraseDotDots(b, src, start, end) == EraseDotDots(b, src', end, src)
  {
    forall i | |x| + 1 <= i < |x| + 1 + |seg|
      ensures b[i] != '/' && !DotDotAt(b, i)
    {
      var k := i - |x| - 1;
      assert b[i] == seg[k];
      if k + 1 < |seg| {
        assert b[i + 1] == seg[k + 1];
      }
    }
    Walk(b, |x| + 1, |seg|, end, |x|);
  }

  /** At "..": the segment before it and its first dot become separators. */
  lemma PassDotDot(b: string, b': string, x: string, src: nat, start: nat, end: nat, rest: string, src': nat)
    requires b == x + "/" + ".." + rest && src == |x| && src' == |x| + 3 && start <= end <= src
    requires b' == x[..end] + Slashes(|x| - end) + "/" + "/." + rest
    ensures EraseDotDots(b, src, start, end) == EraseDotDots(b', src', end, src)
  {
    assert DotDotAt(b, |x| + 1) && b[|x|] == '/';
    assert b[..end] == x[..end] && b[|x| + 2..] == "." + rest;
    assert Slashes(|x| + 2 - end) == Slashes(|x| - end) + "/" + "/";
    assert b[..end] + Slashes(|x| + 2 - end) + b[|x| + 2..] == b';
  }

  /** The separators that a ".." leaves. */
  lemma ErasedPrefix(x: string, e: string, t: string)
    requires x == e + "/" + t
    ensures x[..|e|] + Slashes(|x| - |e|) == e + "/" + Slashes(|t|)
  {
    assert Slashes(|t| + 1) == "/" + Slashes(|t|);
  }

  lemma PassOneDotDot(b: string, b': string, x: string, x': string, src: nat, start: nat, end: nat, done: seq<string>,
          t: string, rest: string)
    requires x == Join(done) + "/" + t && end == |Join(done)| && src == |x| && start <= end
    requires b == x + "/" + ".." + rest
    requires x' == Join(done + [Slashes(|t|)]) + "/" + "/." && b' == x' + rest
    ensures |x'| == src + 3 && src == |Join(done + [Slashes(|t|)])|
    ensures EraseDotDots(b, src, start, end) == EraseDotDots(b', |x'|, end, src)
  {
    JoinLast(done, Slashes(|t|));
    ErasedPrefix(x, Join(done), t);
    PassDotDot(b, b', x, src, start, end, rest, |x'|);
  }

  lemma {:induction false} PassOne(b: string, x: string, src: nat, start: nat, end: nat, done: seq<string>, t: string,
          segs: seq<string>)
    requires AllSegments(segs) && x == Join(done) + "/" + t && end == |Join(done)| && src == |x| && b == x + Join(segs)
    requires start <= end
    ensures EraseDotDots(b, src, start, end) == Join(Erased(done, t, segs))
    decreases |segs|
  {
    JoinLast(done, t);
    if segs == [] {
      assert b == x;
    } else {
      var seg, rest := segs[0], segs[1..];
      assert segs == [seg] + rest;
      JoinFirst(seg, rest);
      JoinStarts(rest);
      assert b == x + "/" + seg + Join(rest);
      if seg == ".." {
        var done' := done + [Slashes(|t|)];
        var x' := Join(done') + "/" + "/.";
        var b' := x' + Join(rest);
        PassOneDotDot(b, b', x, x', src, start, end, done, t, Join(rest));
        PassOne(b', x', |x'|, end, src, done', "/.", rest);
      } else {
        var x' := x + "/" + seg;
        PassSegment(b, x, src, start, end, seg, Join(rest), |x'|);
        PassOne(b, x', |x'|, end, src, done + [t], seg, rest);
      }
    }
  }

  function FirstForm(seg: string): string {
    if seg == ".." then "/." else seg
  }

  /** The first segment, whose separator is the only one seen so far. */
  lemma FirstStep(b: string, b': string, seg: string, rest: string, src': nat)
    requires IsSegment(seg) && (rest == "" || rest[0] == '/')
    requires b == "/" + seg + rest && b' == "/" + FirstForm(seg) + rest && src' == |seg| + 1
    ensures EraseDotDots(b, 0, 0, 0) == EraseDotDots(b', src', 0, 0)
  {
    var x := "";
    assert b == x + "/" + seg + rest;
    if seg == ".." {
      assert b' == x[..0] + Slashes(|x| - 0) + "/" + "/." + rest;
      PassDotDot(b, b', x, 0, 0, 0, rest, src');
    } else {
      PassSegment(b, x, 0, 0, 0, seg, rest, src');
    }
  }

  lemma JoinSplits(segs: seq<string>)
    requires segs != []
    ensures var rest := Join(segs[1..]);
      Join(segs) == "/" + segs[0] + rest && (rest == "" || rest[0] == '/')
  {
    assert segs == [segs[0]] + segs[1..];
    JoinFirst(segs[0], segs[1..]);
    JoinStarts(segs[1..]);
  }

  lemma FirstPass(segs: seq<string>)
    requires AllSegments(segs) && segs != []
    ensures EraseDotDots(Join(segs), 0, 0, 0) == Join(Erased([], FirstForm(segs[0]), segs[1..]))
  {
    var seg, rest, t := segs[0], segs[1..], FirstForm(segs[0]);
    var x := "/" + t;
    JoinSplits(segs);
    FirstStep(Join(segs), x + Join(rest), seg, Join(rest), |x|);
    JoinNothing(t);
    PassOne(x + Join(rest), x, |x|, 0, 0, [], t, rest);
  }

  lemma JoinNothing(t: string)
    ensures Join([]) + "/" + t == "/" + t
  {
  }

  // ----- Second pass -----

  lemma Associative(a: string, b: string, c: string)
    ensures a + b + c == a + (b + c)
  {
  }

  lemma {:induction false} EraseDotsAppend(slash: bool, a: string, b: string, ab: string)
    requires ab == a + b && b != "" && b[0] == '/'
    ensures EraseDots(slash, ab) == EraseDots(slash, a) + EraseDots(false, b)
    decreases |a|
  {
    if a == "" {
      assert ab == b;
    } else {
      var c := if slash && a[0] == '.' then '/' else a[0];
      assert ab[1..] == a[1..] + b;
      EraseDotsAppend(c == '/', a[1..], b, ab[1..]);
      Associative([c], EraseDots(c == '/', a[1..]), EraseDots(false, b));
    }
  }

  lemma {:induction false} EraseDotsKeeps(slash: bool, s: string)
    requires Free(s, '/') && (slash && s != "" ==> s[0] != '.')
    ensures EraseDots(slash, s) == s
    decreases |s|
  {
    if s != "" {
      EraseDotsKeeps(false, s[1..]);
    }
  }

  lemma {:induction false} EraseDotsKeepsSlashes(slash: bool, s: string)
    requires AllSlashes(s)
    ensures EraseDots(slash, s) == s
    decreases |s|
  {
    if s != "" {
      EraseDotsKeepsSlashes(true, s[1..]);
    }
  }

  /** What the second pass makes of a segment. */
  function Clear(t: string): string {
    if t == "." || t == "/." then Slashes(|t|) else t
  }

  function ClearAll(ts: seq<string>): (us: seq<string>)
    ensures |us| == |ts| && forall i :: 0 <= i < |ts| ==> us[i] == Clear(ts[i])
  {
    if ts == [] then [] else ClearAll(ts[..|ts| - 1]) + [Clear(ts[|ts| - 1])]
  }

  lemma ClearOne(t: string)
    requires Settled(t)
    ensures EraseDots(true, t) == Clear(t)
  {
    if t == "." {
      assert EraseDots(true, t) == ['/'] + EraseDots(true, t[1..]);
    } else if t == "/." {
      assert t[1..] == "." && t[1..][1..] == "";
      assert EraseDots(true, ".") == ['/'] + EraseDots(true, ""[..]);
    } else if AllSlashes(t) {
      EraseDotsKeepsSlashes(true, t);
    } else {
      EraseDotsKeeps(true, t);
    }
  }

  lemma SeparatorAndSegment(t: string)
    requires Settled(t)
    ensures EraseDots(false, "/" + t) == "/" + Clear(t)
  {
    assert ("/" + t)[1..] == t;
    ClearOne(t);
  }

  lemma {:induction false} PassTwo(ts: seq<string>)
    requires forall i :: 0 <= i < |ts| ==> Settled(ts[i])
    ensures EraseDots(false, Join(ts)) == Join(ClearAll(ts))
  {
    if ts != [] {
      var before, t := ts[..|ts| - 1], ts[|ts| - 1];
      PassTwo(before);
      SeparatorAndSegment(t);
      Associative(Join(before), "/", t);
      EraseDotsAppend(false, Join(before), "/" + t, Join(ts));
      JoinLast(ClearAll(before), Clear(t));
      Associative(Join(ClearAll(before)), "/", Clear(t));
    }
  }

  // ----- Third pass -----

  predicate EndsWithSlash(slash: bool, a: string) {
    if a == "" then slash else a[|a| - 1] == '/'
  }

  lemma {:induction false} CollapseAppend(slash: bool, a: string, b: string, ab: string)
    requires ab == a + b
    ensures Collapse(slash, ab) == Collapse(slash, a) + Collapse(EndsWithSlash(slash, a), b)
    decreases |a|
  {
    if a == "" {
      assert ab == b;
    } else {
      var rest := a[1..];
      assert ab[1..] == rest + b && ab[0] == a[0];
      CollapseAppend(a[0] == '/', rest, b, ab[1..]);
      Associative([a[0]], Collapse(a[0] == '/', rest), Collapse(EndsWithSlash(slash, a), b));
    }
  }

  lemma {:induction false} CollapseSlashes(s: string)
    requires AllSlashes(s)
    ensures Collapse(true, s) == ""
    decreases |s|
  {
    if s != "" {
      CollapseSlashes(s[1..]);
    }
  }

  lemma {:induction false} CollapseKeeps(slash: bool, s: string)
    requires Free(s, '/')
    ensures Collapse(slash, s) == s
    decreases |s|
  {
    if s != "" {
      CollapseKeeps(false, s[1..]);
    }
  }

  function Alive(ts: seq<string>): (names: seq<string>)
    ensures AllNames(names)
  {
    if ts == [] then []
    else Alive(ts[..|ts| - 1]) + if IsName(ts[|ts| - 1]) then [ts[|ts| - 1]] else []
  }

  /** The separator that is left where the last segment is not a name. */
  function Tail(us: seq<string>): string {
    if us == [] || IsName(us[|us| - 1]) then "" else "/"
  }

  lemma LastCharacter(us: seq<string>)
    requires forall i :: 0 <= i < |us| ==> IsName(us[i]) || AllSlashes(us[i])
    ensures EndsWithSlash(false, Join(us)) <==> Tail(us) == "/"
  {
    if us != [] {
      var u := us[|us| - 1];
      if u != "" {
        assert Join(us)[|Join(us)| - 1] == u[|u| - 1];
      }
    }
  }

  /** A separator and a segment, after the separator of the segments before or not. */
  lemma CollapseSegment(slash: bool, u: string)
    requires IsName(u) || AllSlashes(u)
    ensures Collapse(slash, "/" + u) == (if slash then "" else "/") + (if IsName(u) then u else "")
  {
    assert ("/" + u)[1..] == u;
    if IsName(u) {
      CollapseKeeps(true, u);
    } else {
      CollapseSlashes(u);
    }
  }

  lemma OneSeparator(j: string, tail: string, u: string)
    requires tail == "" || tail == "/"
    ensures j + tail + ((if tail == "/" then "" else "/") + u) == j + "/" + u
  {
  }

  lemma {:induction false} PassThree(us: seq<string>)
    requires forall i :: 0 <= i < |us| ==> IsName(us[i]) || AllSlashes(us[i])
    ensures Collapse(false, Join(us)) == Join(Alive(us)) + Tail(us)
  {
    if us != [] {
      var before, u := us[..|us| - 1], us[|us| - 1];
      PassThree(before);
      LastCharacter(before);
      Associative(Join(before), "/", u);
      CollapseAppend(false, Join(before), "/" + u, Join(us));
      CollapseSegment(Tail(before) == "/", u);
      JoinLast(Alive(before), u);
      OneSeparator(Join(Alive(before)), Tail(before), if IsName(u) then u else "");
      if IsName(u) {
        assert Join(Alive(us)) + Tail(us) == Join(Alive(us));
      } else {
        assert Alive(us) == Alive(before) && Join(Alive(before)) + "/" + "" == Join(Alive(before)) + "/";
      }
    }
  }

  // ----- The three passes together -----

  lemma AliveAppend(ts: seq<string>, t: string)
    ensures Alive(ts + [t]) == Alive(ts) + (if IsName(t) then [t] else [])
  {
    assert (ts + [t])[..|ts|] == ts;
  }

  lemma SlashesAreNoName(n: nat)
    ensures !IsName(Slashes(n))
  {
    if n > 0 {
      assert Slashes(n)[0] == '/';
    }
  }

  /** The first pass has come this far: of the segments pre, what is alive is what is kept. */
  ghost predicate Follows(pre: seq<string>, done: seq<string>, t: string) {
    && AllSegments(pre) && Alive(done + [t]) == Kept(pre) && (IsName(t) <==> EndsWithName(pre))
    && Settled(t) && forall i :: 0 <= i < |done| ==> Settled(done[i])
  }

  lemma MoreSegments(pre: seq<string>, x: string)
    requires AllSegments(pre) && IsSegment(x)
    ensures AllSegments(pre + [x]) && (EndsWithName(pre + [x]) <==> IsName(x))
  {
  }

  lemma MoreSettled(done: seq<string>, t: string)
    requires Settled(t) && forall i :: 0 <= i < |done| ==> Settled(done[i])
    ensures forall i :: 0 <= i < |done + [t]| ==> Settled((done + [t])[i])
  {
  }

  /** An erased segment and what is left of a ".." are not alive. */
  lemma AliveErased(done: seq<string>, n: nat)
    ensures Alive(done + [Slashes(n)] + ["/."]) == Alive(done)
  {
    SlashesAreNoName(n);
    AliveAppend(done, Slashes(n));
    AliveAppend(done + [Slashes(n)], "/.");
  }

  lemma DropLast(names: seq<string>, x: string)
    ensures names + [x] != [] && (names + [x])[..|names + [x]| - 1] == names && names + [] == names
  {
  }

  lemma FollowsDotDot(pre: seq<string>, done: seq<string>, t: string)
    requires Follows(pre, done, t)
    ensures Follows(pre + [".."], done + [Slashes(|t|)], "/.")
  {
    var done' := done + [Slashes(|t|)];
    MoreSegments(pre, "..");
    MoreSettled(done, Slashes(|t|));
    AliveErased(done, |t|);
    assert Alive(done' + ["/."]) == Kept(pre + [".."]) by {
      OneMore(pre, "..");
      AliveAppend(done, t);
      DropLast(Alive(done), t);
    }
  }

  lemma FollowsOther(pre: seq<string>, done: seq<string>, t: string, x: string)
    requires Follows(pre, done, t) && IsSegment(x) && x != ".."
    ensures Follows(pre + [x], done + [t], x)
  {
    MoreSegments(pre, x);
    MoreSettled(done, t);
    assert Alive(done + [t] + [x]) == Kept(pre + [x]) by {
      OneMore(pre, x);
      AliveAppend(done + [t], x);
      DropLast(Kept(pre), x);
    }
  }

  lemma {:induction false} AliveIsKept(pre: seq<string>, done: seq<string>, t: string, segs: seq<string>)
    requires Follows(pre, done, t) && AllSegments(segs)
    ensures var ts := Erased(done, t, segs);
      ts != [] && Follows(pre + segs, ts[..|ts| - 1], ts[|ts| - 1])
    decreases |segs|
  {
    if segs == [] {
      assert pre + segs == pre && (done + [t])[..|done|] == done;
    } else {
      var x := segs[0];
      assert pre + segs == pre + [x] + segs[1..];
      if x == ".." {
        FollowsDotDot(pre, done, t);
        AliveIsKept(pre + [x], done + [Slashes(|t|)], "/.", segs[1..]);
      } else {
        FollowsOther(pre, done, t, x);
        AliveIsKept(pre + [x], done + [t], x, segs[1..]);
      }
    }
  }

  lemma {:induction false} ClearKeepsAlive(ts: seq<string>)
    requires forall i :: 0 <= i < |ts| ==> Settled(ts[i])
    ensures Alive(ClearAll(ts)) == Alive(ts) && Tail(ClearAll(ts)) == Tail(ts)
    ensures forall i :: 0 <= i < |ts| ==> IsName(ClearAll(ts)[i]) || AllSlashes(ClearAll(ts)[i])
  {
    if ts != [] {
      var before, t := ts[..|ts| - 1], ts[|ts| - 1];
      ClearKeepsAlive(before);
      SlashesAreNoName(|t|);
      AliveAppend(ClearAll(before), Clear(t));
    }
  }

  lemma {:induction false} SkippedSegments(segs: seq<string>) returns (rest: seq<string>)
    requires AllSegments(segs) && segs != []
    ensures rest != [] && AllSegments(rest) && SkipSeparators(Join(segs)) == Join(rest)
    ensures Kept(rest) == Kept(segs) && (EndsWithName(rest) <==> EndsWithName(segs))
    decreases |segs|
  {
    var seg, tail := segs[0], segs[1..];
    assert segs == [seg] + tail;
    JoinFirst(seg, tail);
    JoinStarts(tail);
    if seg == "" && tail != [] {
      assert Join(segs)[1..] == Join(tail);
      KeptAfterEmpty(tail);
      rest := SkippedSegments(tail);
    } else {
      rest := segs;
      if seg != "" {
        assert Join(segs)[1] == seg[0];
      }
    }
  }

  lemma {:induction false} KeptAfterEmpty(segs: seq<string>)
    ensures Kept([""] + segs) == Kept(segs) && (EndsWithName([""] + segs) <==> EndsWithName(segs))
  {
    if segs == [] {
      assert [""] + segs == [""] && [""][..0] == [];
    } else {
      var before, x := segs[..|segs| - 1], segs[|segs| - 1];
      KeptAfterEmpty(before);
      assert ([""] + segs)[..|segs|] == [""] + before;
    }
  }

  lemma ErasedIsKept(segs: seq<string>, ts: seq<string>)
    requires AllSegments(segs) && segs != [] && ts == Erased([], FirstForm(segs[0]), segs[1..])
    ensures Alive(ts) == Kept(segs) && Tail(ts) == (if EndsWithName(segs) then "" else "/")
    ensures forall i :: 0 <= i < |ts| ==> Settled(ts[i])
  {
    var x, rest := segs[0], segs[1..];
    FollowsFirst(x);
    AliveIsKept([x], [], FirstForm(x), rest);
    assert segs == [x] + rest;
    FollowsToTheEnd(segs, ts);
  }

  lemma FollowsToTheEnd(segs: seq<string>, ts: seq<string>)
    requires ts != [] && Follows(segs, ts[..|ts| - 1], ts[|ts| - 1])
    ensures Alive(ts) == Kept(segs) && Tail(ts) == (if EndsWithName(segs) then "" else "/")
    ensures forall i :: 0 <= i < |ts| ==> Settled(ts[i])
  {
    var done, t := ts[..|ts| - 1], ts[|ts| - 1];
    assert ts == done + [t];
    MoreSettled(done, t);
  }

  lemma FollowsFirst(x: string)
    requires IsSegment(x)
    ensures Follows([x], [], FirstForm(x))
  {
    OneMore([], x);
    AliveAppend([], FirstForm(x));
    assert [] + [x] == [x] && [] + [FirstForm(x)] == [FirstForm(x)];
  }

  /** The passes leave the names that are kept, one separator before each and one at the end if the path
      does not end with a name. */
  lemma CleanedIsKept(segs: seq<string>)
    requires AllSegments(segs) && segs != []
    ensures Cleaned(Join(segs)) == Join(Kept(segs)) + (if EndsWithName(segs) then "" else "/")
    ensures AllNames(Kept(segs))
  {
    var rest := SkippedSegments(segs);
    var ts := Erased([], FirstForm(rest[0]), rest[1..]);
    FirstPass(rest);
    ErasedIsKept(rest, ts);
    PassTwo(ts);
    ClearKeepsAlive(ts);
    PassThree(ClearAll(ts));
  }

  // ----- Stepping through the canonical path -----

  /** The NUL-terminated string at position i. */
  function CString(b: string, i: nat): (s: string)
    requires i <= |b|
    ensures i + |s| <= |b|
    decreases |b| - i
  {
    if i == |b| || b[i] == NUL then "" else [b[i]] + CString(b, i + 1)
  }

  /** The components that traverse_in_fs looks up one after the other, from position i on. */
  function Steps(b: string, i: nat): seq<string>
    decreases |b| - i
  {
    if i >= |b| || b[i] == NUL then [] else [CString(b, i)] + Steps(b, i + |CString(b, i)| + 1)
  }

  lemma {:induction false} CStringAt(b: string, i: nat, s: string)
    requires Free(s, NUL) && i + |s| <= |b| && b[i..i + |s|] == s && (i + |s| == |b| || b[i + |s|] == NUL)
    ensures CString(b, i) == s
    decreases |s|
  {
    if s != "" {
      assert b[i] == s[0];
      assert b[i + 1..i + 1 + |s[1..]|] == s[1..];
      CStringAt(b, i + 1, s[1..]);
    }
  }

  lemma {:induction false} NulAppend(a: string, b: string)
    ensures SeparatorsToNul(a + b) == SeparatorsToNul(a) + SeparatorsToNul(b)
  {
    var ab := a + b;
    var x, y := SeparatorsToNul(ab), SeparatorsToNul(a) + SeparatorsToNul(b);
    assert |x| == |a| + |b| == |y|;
    forall i | 0 <= i < |x|
      ensures x[i] == y[i]
    {
      if i < |a| {
        assert ab[i] == a[i] && y[i] == SeparatorsToNul(a)[i];
      } else {
        assert ab[i] == b[i - |a|] && y[i] == SeparatorsToNul(b)[i - |a|];
      }
    }
  }

  lemma NulKeeps(s: string)
    requires Free(s, '/')
    ensures SeparatorsToNul(s) == s
  {
  }

  lemma Regroup(x: string, a: string, n: string, j: string, rest: string)
    ensures x + (a + n + j) + rest == x + a + n + (j + rest)
  {
  }

  lemma SplitOff(x: string, n: string, j: string, rest: string)
    requires Free(n, '/')
    ensures x + SeparatorsToNul("/" + n + j) + rest == x + [NUL] + n + (SeparatorsToNul(j) + rest)
  {
    NulAppend("/" + n, j);
    NulAppend("/", n);
    NulKeeps(n);
    assert SeparatorsToNul("/") == [NUL];
    Regroup(x, [NUL], n, SeparatorsToNul(j), rest);
  }

  /** The name after the NUL at the end of x. */
  lemma ReadName(b: string, x: string, n: string, after: string, i: nat)
    requires b == x + [NUL] + n + after && i == |x| + 1 && IsName(n) && after != "" && after[0] == NUL
    ensures i < |b| && b[i] != NUL && CString(b, i) == n
  {
    assert b[i] == n[0] && b[i + |n|] == after[0] && b[i..i + |n|] == n;
    CStringAt(b, i, n);
  }

  lemma NextName(b: string, x: string, names: seq<string>, rest: string, i: nat, x': string, j: nat, more: seq<string>)
    requires names != [] && x' == x + [NUL] + names[0] && j == |x'| + 1 && more == names[1..]
    requires AllNames(names) && names != [] && b == x + SeparatorsToNul(Join(names)) + rest && i == |x| + 1
    requires rest != "" && rest[0] == NUL
    ensures i < |b| && b[i] != NUL && CString(b, i) == names[0]
    ensures b == x' + SeparatorsToNul(Join(more)) + rest && AllNames(more) && j == i + |names[0]| + 1
    ensures names == [names[0]] + more
  {
    var n := names[0];
    assert names == [n] + more;
    JoinFirst(n, more);
    SplitOff(x, n, Join(more), rest);
    JoinStarts(more);
    var after := SeparatorsToNul(Join(more)) + rest;
    ReadName(b, x, n, after, i);
    Associative(x + [NUL] + n, SeparatorsToNul(Join(more)), rest);
  }

  lemma OneStep(b: string, i: nat, n: string, j: nat, more: seq<string>)
    requires i < |b| && b[i] != NUL && CString(b, i) == n && j == i + |n| + 1 && Steps(b, j) == more
    ensures Steps(b, i) == [n] + more
  {
  }

  lemma NoMoreNames(b: string, x: string, rest: string, i: nat)
    requires b == x + SeparatorsToNul(Join([])) + rest && i == |x| + 1 && TwoNuls(rest)
    ensures Steps(b, i) == []
  {
    assert b == x + rest;
  }

  /** The names between NULs are read back one by one. */
  lemma {:induction false} StepsThroughNames(b: string, x: string, names: seq<string>, rest: string, i: nat)
    requires AllNames(names) && b == x + SeparatorsToNul(Join(names)) + rest && i == |x| + 1
    requires TwoNuls(rest)
    ensures Steps(b, i) == names
    decreases |names|
  {
    if names == [] {
      NoMoreNames(b, x, rest, i);
    } else {
      var x', more := x + [NUL] + names[0], names[1..];
      var j := |x'| + 1;
      NextName(b, x, names, rest, i, x', j, more);
      StepsThroughNames(b, x', more, rest, j);
      OneStep(b, i, names[0], j, more);
    }
  }

  // ----- The canonical path and back -----

  /** What canonicalize_path returns: the cleaned path with NULs for separators, two more NULs, and then
      whatever the buffer held. */
  ghost predicate Canonical(b: string, p: string) {
    exists rest :: TwoNuls(rest) && b == SeparatorsToNul(Cleaned(p)) + rest
  }

  predicate TwoNuls(rest: string) {
    |rest| >= 2 && rest[0] == NUL && rest[1] == NUL
  }

  /** canonicalized_path_strlen: up to the first two NULs in a row. */
  function CanonicalLength(b: string): (n: nat)
    ensures n <= |b|
  {
    if |b| < 2 || (b[0] == NUL && b[1] == NUL) then 0 else 1 + CanonicalLength(b[1..])
  }

  function NulsToSeparators(s: string): (r: string)
    ensures |r| == |s| && forall i :: 0 <= i < |s| ==> r[i] == if s[i] == NUL then '/' else s[i]
  {
    seq(|s|, i requires 0 <= i < |s| => if s[i] == NUL then '/' else s[i])
  }

  /** decanonicalize_path: the separators are put back. */
  function Decanonicalized(b: string): string
    requires |b| >= 2
  {
    if b[0] == NUL && b[1] == NUL then "/" + b[1..]
    else NulsToSeparators(b[..CanonicalLength(b)]) + b[CanonicalLength(b)..]
  }

  /** The path with exactly the given components. */
  function NormalForm(names: seq<string>): string {
    if names == [] then "/" else Join(names)
  }

  lemma LengthStep(b: string, n: string, after: string)
    requires IsName(n) && b == [NUL] + n + after && |after| >= 2
    ensures CanonicalLength(b) == 1 + |n| + CanonicalLength(after)
  {
    assert b[1] == n[0] && b[1..] == n + after;
    LengthPastName(b[1..], n, after);
  }

  lemma FrontName(n: string, j: string, rest: string)
    requires Free(n, '/')
    ensures SeparatorsToNul("/" + n + j) + rest == [NUL] + n + (SeparatorsToNul(j) + rest)
  {
    NulAppend("/" + n, j);
    NulAppend("/", n);
    NulKeeps(n);
    assert SeparatorsToNul("/") == [NUL];
    Associative([NUL] + n, SeparatorsToNul(j), rest);
  }

  lemma FirstName(b: string, names: seq<string>, rest: string, after: string)
    requires AllNames(names) && names != [] && b == SeparatorsToNul(Join(names)) + rest && TwoNuls(rest)
    requires after == SeparatorsToNul(Join(names[1..])) + rest
    ensures b == [NUL] + names[0] + after
    ensures |Join(names)| == 1 + |names[0]| + |Join(names[1..])|
  {
    var n, more := names[0], names[1..];
    assert names == [n] + more;
    JoinFirst(n, more);
    FrontName(n, Join(more), rest);
  }

  lemma {:induction false} LengthOfNames(b: string, names: seq<string>, rest: string)
    requires AllNames(names) && b == SeparatorsToNul(Join(names)) + rest && TwoNuls(rest)
    ensures CanonicalLength(b) == |Join(names)|
    decreases |names|
  {
    if names == [] {
      assert b == rest;
    } else {
      var after := SeparatorsToNul(Join(names[1..])) + rest;
      FirstName(b, names, rest, after);
      LengthStep(b, names[0], after);
      LengthOfNames(after, names[1..], rest);
    }
  }

  lemma {:induction false} LengthPastName(b: string, n: string, after: string)
    requires Free(n, NUL) && b == n + after && |after| >= 2
    ensures CanonicalLength(b) == |n| + CanonicalLength(after)
    decreases |n|
  {
    if n == "" {
      assert b == after;
    } else {
      assert b[1..] == n[1..] + after;
      LengthPastName(b[1..], n[1..], after);
    }
  }

  /** Behind a trailing separator there are still two NULs. */
  lemma CanonicalOfNames(b: string, p: string, segs: seq<string>) returns (rest: string)
    requires AllSegments(segs) && segs != [] && p == Join(segs) && Canonical(b, p)
    ensures TwoNuls(rest) && b == SeparatorsToNul(Join(Kept(segs))) + rest && AllNames(Kept(segs))
  {
    CleanedIsKept(segs);
    var tail: string := if EndsWithName(segs) then "" else "/";
    var junk: string :| TwoNuls(junk) && b == SeparatorsToNul(Cleaned(p)) + junk;
    NulAppend(Join(Kept(segs)), tail);
    rest := SeparatorsToNul(tail) + junk;
    Associative(SeparatorsToNul(Join(Kept(segs))), SeparatorsToNul(tail), junk);
  }

  /** traverse_in_fs, from behind the leading NUL on, looks up exactly the names that are kept. */
  lemma TraversalFollowsKept(b: string, p: string, segs: seq<string>)
    requires AllSegments(segs) && segs != [] && p == Join(segs) && Canonical(b, p)
    ensures Steps(b, 1) == Kept(segs)
  {
    var rest := CanonicalOfNames(b, p, segs);
    assert b == "" + SeparatorsToNul(Join(Kept(segs))) + rest;
    StepsThroughNames(b, "", Kept(segs), rest, 1);
  }

  /** It looks up what the path means exactly if every ".." fits. */
  lemma TraversalResolves(b: string, p: string, segs: seq<string>)
    requires AllSegments(segs) && segs != [] && p == Join(segs) && Canonical(b, p)
    ensures Steps(b, 1) == Resolve(segs) <==> DotDotsFit(segs)
  {
    TraversalFollowsKept(b, p, segs);
    KeptIsResolved(segs);
  }

  lemma NulsBack(names: seq<string>)
    requires AllNames(names)
    ensures NulsToSeparators(SeparatorsToNul(Join(names))) == Join(names)
    ensures Free(Join(names), NUL)
  {
    NoNuls(names);
  }

  lemma {:induction false} NoNuls(names: seq<string>)
    requires AllNames(names)
    ensures Free(Join(names), NUL)
  {
    if names != [] {
      NoNuls(names[..|names| - 1]);
    }
  }

  lemma DecanonicalizedNames(b: string, names: seq<string>, rest: string)
    requires AllNames(names) && names != [] && TwoNuls(rest) && b == SeparatorsToNul(Join(names)) + rest
    ensures |b| >= 2 && CString(Decanonicalized(b), 0) == Join(names)
  {
    var n := Join(names);
    LengthOfNames(b, names, rest);
    NulsBack(names);
    FirstName(b, names, rest, SeparatorsToNul(Join(names[1..])) + rest);
    assert b[..|n|] == SeparatorsToNul(n) && b[|n|..] == rest;
    var d := n + rest;
    assert Decanonicalized(b) == d;
    assert d[0..|n|] == n && d[|n|] == NUL;
    CStringAt(d, 0, n);
  }

  lemma DecanonicalizedRoot(b: string)
    requires TwoNuls(b)
    ensures CString(Decanonicalized(b), 0) == "/"
  {
    var d := Decanonicalized(b);
    assert d[0..1] == "/" && d[1] == NUL;
    CStringAt(d, 0, "/");
  }

  /** decanonicalize_path turns the canonical path into the normal form. */
  lemma DecanonicalizedIsNormal(b: string, p: string, segs: seq<string>)
    requires AllSegments(segs) && segs != [] && p == Join(segs) && Canonical(b, p)
    ensures |b| >= 2 && CString(Decanonicalized(b), 0) == NormalForm(Kept(segs))
  {
    var rest := CanonicalOfNames(b, p, segs);
    if Kept(segs) == [] {
      assert b == rest;
      DecanonicalizedRoot(b);
    } else {
      DecanonicalizedNames(b, Kept(segs), rest);
    }
  }

  lemma {:induction false} KeptOfNames(names: seq<string>)
    requires AllNames(names)
    ensures Kept(names) == names
  {
    if names != [] {
      KeptOfNames(names[..|names| - 1]);
    }
  }

  /** The normal form is canonicalized to the same components, so going there and back again changes
      nothing. */
  lemma NormalFormIsStable(names: seq<string>) returns (segs: seq<string>)
    requires AllNames(names)
    ensures AllSegments(segs) && segs != [] && Join(segs) == NormalForm(names) && Kept(segs) == names
  {
    if names == [] {
      segs := [""];
      JoinOne("");
      assert [""][..0] == [];
    } else {
      segs := names;
      KeptOfNames(names);
    }
  }

  lemma GoingBackTwice(b: string, p: string, segs: seq<string>, b': string)
    requires AllSegments(segs) && segs != [] && p == Join(segs) && Canonical(b, p)
    requires Canonical(b', CString(Decanonicalized(b), 0))
    ensures |b| >= 2 && |b'| >= 2 && CString(Decanonicalized(b'), 0) == CString(Decanonicalized(b), 0)
    ensures Steps(b', 1) == Steps(b, 1)
  {
    DecanonicalizedIsNormal(b, p, segs);
    TraversalFollowsKept(b, p, segs);
    CleanedIsKept(segs);
    var segs' := NormalFormIsStable(Kept(segs));
    DecanonicalizedIsNormal(b', NormalForm(Kept(segs)), segs');
    TraversalFollowsKept(b', NormalForm(Kept(segs)), segs');
  }

  // ----- Every absolute path has segments -----

  function UpToSlash(p: string): (n: nat)
    ensures n <= |p| && Free(p[..n], '/') && (n == |p| || p[n] == '/')
  {
    if p == "" || p[0] == '/' then 0
    else
      var n := 1 + UpToSlash(p[1..]);
      assert p[..n] == [p[0]] + p[1..][..n - 1];
      n
  }

  function Split(p: string): (segs: seq<string>)
    requires p != "" && p[0] == '/'
    ensures segs != []
    decreases |p|
  {
    var n := UpToSlash(p[1..]);
    [p[1..][..n]] + if n + 1 == |p| then [] else Split(p[n + 1..])
  }

  lemma FirstSegment(p: string, n: nat)
    requires p != "" && p[0] == '/' && n + 1 <= |p|
    ensures p == "/" + p[1..][..n] + p[n + 1..]
  {
  }

  lemma {:induction false} SplitThenJoin(p: string)
    requires p != "" && p[0] == '/'
    ensures Join(Split(p)) == p
    decreases |p|
  {
    var n := UpToSlash(p[1..]);
    var seg, rest := p[1..][..n], p[n + 1..];
    FirstSegment(p, n);
    if n + 1 == |p| {
      JoinOne(seg);
      assert rest == "" && [seg] + [] == [seg];
    } else {
      SplitThenJoin(rest);
      JoinFirst(seg, Split(rest));
    }
  }

  /** Every absolute path is looked up as what it means exactly if its ".." fit, and decanonicalize_path
      gives it back in normal form. */
  lemma AbsolutePath(p: string, b: string)
    requires p != "" && p[0] == '/' && AllSegments(Split(p)) && Canonical(b, p)
    ensures Steps(b, 1) == Resolve(Split(p)) <==> DotDotsFit(Split(p))
    ensures |b| >= 2 && CString(Decanonicalized(b), 0) == NormalForm(Steps(b, 1))
  {
    SplitThenJoin(p);
    TraversalResolves(b, p, Split(p));
    TraversalFollowsKept(b, p, Split(p));
    DecanonicalizedIsNormal(b, p, Split(p));
  }
}
