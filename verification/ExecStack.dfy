/** kernel/scheduler.cpp: the argument block that exec leaves on a new process's stack, and what the
    process finds when it follows the block's pointers. */
module ExecStack {
  import opened Basics

  type String = s: seq<Byte> | 0 !in s

  const ARCH_STACK_ALIGNMENT := 8

  /** The stack alignment is 8. */
  function RoundDown(a: nat): (r: nat)
    ensures r <= a < r + 8 && r % 8 == 0
    ensures a % 8 == 0 ==> r == a
  {
    a / ARCH_STACK_ALIGNMENT * ARCH_STACK_ALIGNMENT
  }

  // ----- Memory: little-endian words and terminated strings -----

  function WordAt(m: seq<Byte>, a: nat): (w: nat)
    requires a + 4 <= |m|
  {
    var b0: int, b1: int, b2: int, b3: int := m[a], m[a + 1], m[a + 2], m[a + 3];
    b0 + 0x100 * b1 + 0x1_0000 * b2 + 0x100_0000 * b3
  }

  /** The string at an address: the bytes up to the first zero byte, or to the end of memory. */
  function StringAt(m: seq<Byte>, a: nat): (s: String)
    requires a <= |m|
    decreases |m| - a
  {
    if a == |m| || m[a] == 0 then [] else [m[a]] + StringAt(m, a + 1)
  }

  /** The first n strings that a table of pointers names; None where a pointer leaves memory. */
  function StringsAt(m: seq<Byte>, table: nat, n: nat): (r: Option<seq<String>>)
  {
    if n == 0 then Some([])
    else if table + 4 * n > |m| then None
    else
      var rest := StringsAt(m, table, n - 1);
      var p := WordAt(m, table + 4 * (n - 1));
      if rest.None? || p > |m| then None else Some(rest.value + [StringAt(m, p)])
  }

  datatype Args = Args(argv: seq<String>, envp: seq<String>)

  /** What a process finds when its stack pointer holds an initial stack state:
      argc, argv, envc and envp, in that order. */
  function ReadArgs(m: seq<Byte>, sp: nat): Option<Args> {
    if sp + 16 > |m| then None
    else
      var argv := StringsAt(m, WordAt(m, sp + 4), WordAt(m, sp));
      var envp := StringsAt(m, WordAt(m, sp + 12), WordAt(m, sp + 8));
      if argv.None? || envp.None? then None else Some(Args(argv.value, envp.value))
  }

  // ----- Placement -----

  function TotalLength(strings: seq<String>): nat {
    if strings == [] then 0 else TotalLength(strings[..|strings| - 1]) + |strings[|strings| - 1]| + 1
  }

  /** The stack pointer after pushing an array of strings, before its bounds are checked. */
  function AfterStrings(sp: int, strings: seq<String>): int {
    var low := sp - 4 * |strings| - TotalLength(strings);
    if low < 0 then low else RoundDown(low)
  }

  function AfterArgs(sp: int, args: Args): int {
    AfterStrings(AfterStrings(sp, args.argv), args.envp) - 16
  }

  ghost predicate Holds(m: seq<Byte>, a: nat, s: String) {
    a + |s| < |m| && m[a..a + |s|] == s && m[a + |s|] == 0
  }

  lemma {:induction false} HeldStringIsRead(m: seq<Byte>, a: nat, s: String)
    requires Holds(m, a, s)
    ensures StringAt(m, a) == s
    decreases |s|
  {
    if s != [] {
      assert m[a] == m[a..a + |s|][0] == s[0];
      assert m[a + 1..a + 1 + |s[1..]|] == m[a..a + |s|][1..];
      HeldStringIsRead(m, a + 1, s[1..]);
      assert s == [s[0]] + s[1..];
    }
  }

  /** The table's entries are the given pointers, and each points at its string in [low, table). */
  ghost predicate TableHolds(m: seq<Byte>, table: nat, strings: seq<String>, ps: seq<nat>, low: nat) {
    && |ps| <= |strings| && table + 4 * |ps| <= |m|
    && (forall i :: 0 <= i < |ps| ==> WordAt(m, table + 4 * i) == ps[i])
    && (forall i :: 0 <= i < |ps| ==> low <= ps[i] && ps[i] + |strings[i]| < table)
    && (forall i :: 0 <= i < |ps| ==> Holds(m, ps[i], strings[i]))
  }

  lemma {:induction false} HeldTableIsRead(m: seq<Byte>, table: nat, strings: seq<String>, ps: seq<nat>, low: nat)
    requires TableHolds(m, table, strings, ps, low)
    ensures StringsAt(m, table, |ps|) == Some(strings[..|ps|])
    decreases |ps|
  {
    if ps != [] {
      var n := |ps| - 1;
      HeldTableIsRead(m, table, strings, ps[..n], low);
      assert WordAt(m, table + 4 * n) == ps[n];
      HeldStringIsRead(m, ps[n], strings[n]);
      assert strings[..n + 1] == strings[..n] + [strings[n]];
    }
  }

  /** Writes below a table and its strings leave what they hold alone. */
  lemma TableKept(m: seq<Byte>, m': seq<Byte>, table: nat, strings: seq<String>, ps: seq<nat>, low: nat)
    requires |m| == |m'| && low <= table
    requires forall k :: low <= k < |m| ==> m[k] == m'[k]
    requires TableHolds(m, table, strings, ps, low)
    ensures TableHolds(m', table, strings, ps, low)
  {
    forall i | 0 <= i < |ps|
      ensures Holds(m', ps[i], strings[i])
    {
      var p := ps[i];
      assert m'[p..p + |strings[i]|] == m[p..p + |strings[i]|];
    }
  }

  // ----- The pushes -----

  method WriteWord(mem: array<Byte>, a: nat, v: int)
    requires a + 4 <= mem.Length && 0 <= v < 0x1_0000_0000
    modifies mem
    ensures WordAt(mem[..], a) == v
    ensures forall k :: 0 <= k < mem.Length && !(a <= k < a + 4) ==> mem[k] == old(mem[k])
  {
    mem[a] := v % 0x100;
    mem[a + 1] := v / 0x100 % 0x100;
    mem[a + 2] := v / 0x1_0000 % 0x100;
    mem[a + 3] := v / 0x100_0000;
    WordDigits(v);
  }

  lemma WordDigits(v: int)
    requires 0 <= v < 0x1_0000_0000
    ensures v % 0x100 + 0x100 * (v / 0x100 % 0x100) + 0x1_0000 * (v / 0x1_0000 % 0x100)
        + 0x100_0000 * (v / 0x100_0000) == v
    ensures 0 <= v / 0x100_0000 < 0x100
  {
    assert v / 0x1_0000 == v / 0x100 / 0x100;
    assert v / 0x100_0000 == v / 0x1_0000 / 0x100;
  }

  method CopyString(mem: array<Byte>, a: nat, s: String)
    requires a + |s| < mem.Length
    modifies mem
    ensures Holds(mem[..], a, s)
    ensures forall k :: 0 <= k < mem.Length && !(a <= k <= a + |s|) ==> mem[k] == old(mem[k])
  {
    var i := 0;
    while i < |s|
      invariant 0 <= i <= |s|
      invariant forall k :: 0 <= k < i ==> mem[a + k] == s[k]
      invariant forall k :: 0 <= k < mem.Length && !(a <= k < a + i) ==> mem[k] == old(mem[k])
    {
      mem[a + i] := s[i];
      i := i + 1;
    }
    mem[a + |s|] := 0;
    assert mem[..][a..a + |s|] == s;
  }

  /** Places the next string at low and its address in the table. */
  method PushString(mem: array<Byte>, low: nat, table: nat, strings: seq<String>, i: nat,
                    ghost ps: seq<nat>, ghost above: nat)
    requires |ps| == i < |strings| && table + 4 * |strings| <= mem.Length
    requires low + |strings[i]| + 1 == above <= table && table < 0x1_0000_0000
    requires TableHolds(mem[..], table, strings, ps, above)
    modifies mem
    ensures TableHolds(mem[..], table, strings, ps + [low], low)
    ensures forall k :: 0 <= k < mem.Length && !(low <= k < table + 4 * |strings|) ==> mem[k] == old(mem[k])
  {
    CopyString(mem, low, strings[i]);
    TableKept(old(mem[..]), mem[..], table, strings, ps, above);
    ghost var copied := mem[..];
    WriteWord(mem, table + 4 * i, low);
    PointerStored(copied, mem[..], table, strings, ps, above, low);
  }

  /** Pushes the table of pointers and then, below it, the strings; the first string ends up highest. */
  method PushStringArray(mem: array<Byte>, sp: nat, strings: seq<String>) 
    returns (sp': nat, table: nat, ghost ps: seq<nat>)
    requires sp <= mem.Length && sp < 0x1_0000_0000
    requires AfterStrings(sp, strings) >= 0
    modifies mem
    ensures sp' == AfterStrings(sp, strings) && table == sp - 4 * |strings|
    ensures |ps| == |strings| && TableHolds(mem[..], table, strings, ps, sp')
    ensures forall k :: 0 <= k < mem.Length && !(sp' <= k < sp) ==> mem[k] == old(mem[k])
  {
    var low := sp - 4 * |strings|;
    table := low;
    var i := 0;
    ps := [];
    while i < |strings|
      invariant 0 <= i <= |strings|
      invariant 0 <= low == table - TotalLength(strings[..i])
      invariant |ps| == i && TableHolds(mem[..], table, strings, ps, low)
      invariant forall k :: 0 <= k < mem.Length && !(low <= k < sp) ==> mem[k] == old(mem[k])
    {
      NextLength(strings, i);
      ghost var above := low;
      low := low - (|strings[i]| + 1);
      PushString(mem, low, table, strings, i, ps, above);
      ps := ps + [low];
      i := i + 1;
    }
    assert strings[..i] == strings;
    sp' := RoundDown(low);
  }

  lemma {:induction false} PrefixLength(strings: seq<String>, n: nat)
    requires n <= |strings|
    ensures TotalLength(strings[..n]) <= TotalLength(strings)
    decreases |strings| - n
  {
    if n < |strings| {
      assert strings[..n + 1][..n] == strings[..n];
      PrefixLength(strings, n + 1);
    } else {
      assert strings[..n] == strings;
    }
  }

  lemma NextLength(strings: seq<String>, n: nat)
    requires n < |strings|
    ensures TotalLength(strings[..n + 1]) == TotalLength(strings[..n]) + |strings[n]| + 1 <= TotalLength(strings)
  {
    assert strings[..n + 1][..n] == strings[..n] && strings[..n + 1][n] == strings[n];
    PrefixLength(strings, n + 1);
  }

  /** Storing the next pointer completes one more entry of the table. */
  lemma PointerStored(m: seq<Byte>, m': seq<Byte>, table: nat, strings: seq<String>, ps: seq<nat>, above: nat, low: nat)
    requires |ps| < |strings| && |m| == |m'| && table + 4 * |ps| + 4 <= |m| && low <= above <= table
    requires TableHolds(m, table, strings, ps, above)
    requires Holds(m, low, strings[|ps|]) && low + |strings[|ps|]| < above
    requires WordAt(m', table + 4 * |ps|) == low
    requires forall k :: 0 <= k < |m| && !(table + 4 * |ps| <= k < table + 4 * |ps| + 4) ==> m'[k] == m[k]
    ensures TableHolds(m', table, strings, ps + [low], low)
  {
    var ps' := ps + [low];
    forall i | 0 <= i < |ps'|
      ensures WordAt(m', table + 4 * i) == ps'[i]
    {
      if i < |ps| {
        assert WordAt(m', table + 4 * i) == WordAt(m, table + 4 * i) == ps[i];
      }
    }
    forall i | 0 <= i < |ps'|
      ensures Holds(m', ps'[i], strings[i])
    {
      var p := ps'[i];
      assert Holds(m, p, strings[i]);
      assert m'[p..p + |strings[i]|] == m[p..p + |strings[i]|];
    }
  }

  method WriteState(mem: array<Byte>, sp: nat, argc: nat, argv: nat, envc: nat, envp: nat)
    requires sp + 16 <= mem.Length
    requires argc < 0x1_0000_0000 && argv < 0x1_0000_0000 && envc < 0x1_0000_0000 && envp < 0x1_0000_0000
    modifies mem
    ensures WordAt(mem[..], sp) == argc && WordAt(mem[..], sp + 4) == argv
    ensures WordAt(mem[..], sp + 8) == envc && WordAt(mem[..], sp + 12) == envp
    ensures forall k :: 0 <= k < mem.Length && !(sp <= k < sp + 16) ==> mem[k] == old(mem[k])
  {
    WriteWord(mem, sp, argc);
    WriteWord(mem, sp + 4, argv);
    WriteWord(mem, sp + 8, envc);
    WriteWord(mem, sp + 12, envp);
  }

  /** Both tables with their strings; the second push leaves what the first one placed alone. */
  method PushBothArrays(mem: array<Byte>, sp: nat, args: Args)
    returns (sp': nat, argv: nat, envp: nat, ghost ps: seq<nat>, ghost qs: seq<nat>, ghost between: nat)
    requires sp <= mem.Length && sp < 0x1_0000_0000
    requires AfterArgs(sp, args) >= 0
    modifies mem
    ensures sp' == AfterArgs(sp, args) + 16 && sp' <= envp <= between <= argv <= sp && sp' % 8 == 0
    ensures |ps| == |args.argv| && TableHolds(mem[..], argv, args.argv, ps, between)
    ensures |qs| == |args.envp| && TableHolds(mem[..], envp, args.envp, qs, sp')
    ensures forall k :: 0 <= k < mem.Length && !(sp' <= k < sp) ==> mem[k] == old(mem[k])
  {
    var middle;
    middle, argv, ps := PushStringArray(mem, sp, args.argv);
    ghost var before := mem[..];
    sp', envp, qs := PushStringArray(mem, middle, args.envp);
    TableKept(before, mem[..], argv, args.argv, ps, middle);
    between := middle;
  }

  /** The two tables survive a write below them and are what the state block leads to. */
  lemma BothTablesRead(m: seq<Byte>, m': seq<Byte>, argv: nat, envp: nat, args: Args,
                       ps: seq<nat>, qs: seq<nat>, between: nat, low: nat, state: nat)
    requires low == state + 16 && |m| == |m'| && low <= envp <= between <= argv <= |m|
    requires |ps| == |args.argv| && TableHolds(m, argv, args.argv, ps, between)
    requires |qs| == |args.envp| && TableHolds(m, envp, args.envp, qs, low)
    requires forall k :: low <= k < |m| ==> m[k] == m'[k]
    requires WordAt(m', state) == |args.argv| && WordAt(m', state + 4) == argv
    requires WordAt(m', state + 8) == |args.envp| && WordAt(m', state + 12) == envp
    ensures ReadArgs(m', state) == Some(args)
  {
    TableKept(m, m', argv, args.argv, ps, between);
    TableKept(m, m', envp, args.envp, qs, low);
    HeldTableIsRead(m', argv, args.argv, ps, between);
    HeldTableIsRead(m', envp, args.envp, qs, low);
    assert args.argv[..|ps|] == args.argv && args.envp[..|qs|] == args.envp;
  }

  /** The state block takes 16 bytes, so its start is as aligned as its end. */
  lemma AlreadyRound(top: nat, state: nat)
    requires top % 8 == 0 && top == state + 16
    ensures RoundDown(state) == state && state % 8 == 0
  {
  }

  /** The process that starts with the returned stack pointer reads back exactly the strings it was
      given; nothing above the old stack pointer or below the new one changes. The last rounding
      never moves the pointer, so it names the state block. */
  method PushProcessArgs(mem: array<Byte>, sp: nat, args: Args) returns (sp': nat)
    requires sp <= mem.Length && sp < 0x1_0000_0000
    requires AfterArgs(sp, args) >= 0
    modifies mem
    ensures sp' == AfterArgs(sp, args) && sp' % 8 == 0
    ensures ReadArgs(mem[..], sp') == Some(args)
    ensures forall k :: 0 <= k < mem.Length && !(sp' <= k < sp) ==> mem[k] == old(mem[k])
  {
    var argc, envc := |args.argv|, |args.envp|;
    ghost var ps, qs, between;
    var top, userArgv, userEnvp;
    top, userArgv, userEnvp, ps, qs, between := PushBothArrays(mem, sp, args);
    ghost var pushed := mem[..];
    var state := top - 16;
    WriteState(mem, state, argc, userArgv, envc, userEnvp);
    BothTablesRead(pushed, mem[..], userArgv, userEnvp, args, ps, qs, between, top, state);
    AlreadyRound(top, state);
    sp' := RoundDown(state);
  }
}
