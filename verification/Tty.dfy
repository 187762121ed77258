/** kernel/lib/ringbuffer.h: a fixed-size ring that forgets its oldest element when it overflows. */
module Ring {
  import opened Basics

  /** The newest n elements. */
  function LastN(s: seq<Byte>, n: nat): (r: seq<Byte>)
    ensures |r| <= n
  {
    if |s| <= n then s else s[|s| - n..]
  }

  lemma LastNStep(s: seq<Byte>, x: Byte, n: nat)
    requires n > 0
    ensures LastN(LastN(s, n) + [x], n) == LastN(s + [x], n)
  {
  }

  function Wrap(i: nat, n: nat): nat {
    if i < n then i else i - n
  }

  /** The ring holds the given elements from index start on, going round. */
  ghost predicate Laid(ring: seq<Byte>, start: nat, contents: seq<Byte>) {
    && start < |ring| && |contents| <= |ring|
    && forall i :: 0 <= i < |contents| ==> contents[i] == ring[Wrap(start + i, |ring|)]
  }

  lemma LaidAfterPush(ring: seq<Byte>, start: nat, contents: seq<Byte>, item: Byte)
    requires Laid(ring, start, contents)
    ensures var ring' := ring[Wrap(start + |contents|, |ring|) := item];
      if |contents| < |ring| then Laid(ring', start, contents + [item])
      else Laid(ring', Wrap(start + 1, |ring|), (contents + [item])[1..])
  {
  }

  class RingBuffer {
    const data: array<Byte>
    var readPos: nat
    var writePos: nat
    var count: nat
    ghost var contents: seq<Byte>    // the queued elements, oldest first

    ghost predicate Valid()
      reads this, data
    {
      && Laid(data[..], readPos, contents) && count == |contents|
      && writePos == Wrap(readPos + count, data.Length)
    }

    constructor (capacity: nat)
      requires capacity > 0
      ensures Valid() && fresh(data) && data.Length == capacity && contents == []
    {
      data := new Byte[capacity](_ => 0);
      readPos, writePos, count, contents := 0, 0, 0, [];
    }

    method Clear()
      requires Valid()
      modifies this
      ensures Valid() && contents == []
    {
      readPos, writePos, count, contents := 0, 0, 0, [];
    }

    method Push(item: Byte)
      requires Valid()
      modifies this, data
      ensures Valid() && contents == LastN(old(contents) + [item], data.Length)
    {
      LaidAfterPush(data[..], readPos, contents, item);
      ghost var ring := data[..];
      data[writePos] := item;
      assert data[..] == ring[writePos := item];
      writePos := After(writePos);
      if count < data.Length {
        count := count + 1;
        contents := contents + [item];
      } else {
        readPos := After(readPos);
        contents := (contents + [item])[1..];
      }
    }

    method Pop() returns (ok: bool, item: Byte)
      requires Valid()
      modifies this
      ensures Valid() && ok == (old(contents) != [])
      ensures ok ==> item == old(contents)[0] && contents == old(contents)[1..]
      ensures !ok ==> contents == old(contents)
    {
      if count == 0 {
        return false, 0;
      }
      item := data[readPos];
      readPos := After(readPos);
      count := count - 1;
      contents := contents[1..];
      ok := true;
    }

    /** The next index round the ring. */
    method After(i: nat) returns (next: nat)
      requires i < data.Length
      ensures next == Wrap(i + 1, data.Length)
    {
      NextIndex(i, data.Length);
      next := (i + 1) % data.Length;
    }
  }

  lemma NextIndex(i: nat, n: nat)
    requires i < n
    ensures (i + 1) % n == if i + 1 == n then 0 else i + 1
  {
    if i + 1 < n {
      assert (i + 1) % n == i + 1;
    } else {
      assert n % n == 0;
    }
  }
}

/** kernel/drivers/device.cpp, class TTY: the line discipline between the typed bytes and the reader
    (IEEE Std 1003.1-2017, Base Definitions, section 11.1.6). */
module Tty {
  import opened Basics
  import opened Ring

  const NL: Byte := 10
  const CR: Byte := 13
  const DEL: Byte := 127
  const LINE_SIZE := 256
  const QUEUE_SIZE := 4096

  /** The termios flags that the discipline looks at. */
  datatype Termios = Termios(icrnl: bool, inlcr: bool, onlcr: bool, icanon: bool, echo: bool, echonl: bool)

  // ----- The reference: editing typed bytes into lines -----

  /** The lines completed so far, end to end, and the line being edited. */
  datatype Edited = Edited(done: seq<Byte>, pending: seq<Byte>)

  /** DEL rubs out the last byte of the line being edited, a full line takes no more bytes, and a
      newline completes the line. */
  function EditByte(e: Edited, ch: Byte): Edited {
    if ch == DEL then
      if e.pending == [] then e else e.(pending := e.pending[..|e.pending| - 1])
    else if |e.pending| >= LINE_SIZE then e
    else if ch == NL then Edited(e.done + e.pending + [NL], [])
    else e.(pending := e.pending + [ch])
  }

  function EditAll(typed: seq<Byte>): Edited {
    if typed == [] then Edited([], [])
    else EditByte(EditAll(typed[..|typed| - 1]), typed[|typed| - 1])
  }

  function Newlines(s: seq<Byte>): nat {
    if s == [] then 0 else Newlines(s[..|s| - 1]) + (if s[|s| - 1] == NL then 1 else 0)
  }

  lemma {:induction false} NewlinesAppend(a: seq<Byte>, b: seq<Byte>)
    ensures Newlines(a + b) == Newlines(a) + Newlines(b)
    decreases |b|
  {
    if b == [] {
      assert a + b == a;
    } else {
      assert (a + b)[..|a + b| - 1] == a + b[..|b| - 1];
      NewlinesAppend(a, b[..|b| - 1]);
    }
  }

  lemma NewlinesInLastN(s: seq<Byte>, n: nat)
    ensures Newlines(LastN(s, n)) <= Newlines(s)
  {
    if |s| > n {
      assert s == s[..|s| - n] + LastN(s, n);
      NewlinesAppend(s[..|s| - n], LastN(s, n));
    }
  }

  lemma {:induction false} NoNewlines(s: seq<Byte>)
    ensures NL !in s <==> Newlines(s) == 0
  {
    if s != [] {
      NoNewlines(s[..|s| - 1]);
      assert s == s[..|s| - 1] + [s[|s| - 1]];
    }
  }

  /** A line being edited never holds a newline or more than 256 bytes, and the completed lines
      end with one. */
  lemma {:induction false} EditedShape(typed: seq<Byte>)
    ensures var e := EditAll(typed); NL !in e.pending && |e.pending| <= LINE_SIZE
    ensures var e := EditAll(typed); e.done != [] ==> e.done[|e.done| - 1] == NL
  {
    if typed != [] {
      EditedShape(typed[..|typed| - 1]);
    }
  }

  /** The bytes up to and including the first newline, or all of them. */
  function LineEnd(s: seq<Byte>): (n: nat)
    ensures n <= |s| && NL !in s[..n - (if n > 0 && s[n - 1] == NL then 1 else 0)]
    ensures s != [] ==> n > 0
    ensures n < |s| ==> n > 0 && s[n - 1] == NL
  {
    if s == [] then 0 else if s[0] == NL then 1 else 1 + LineEnd(s[1..])
  }

  function Min(a: nat, b: nat): nat {
    if a < b then a else b
  }

  function MapInput(t: Termios, ch: Byte): Byte {
    if ch == CR && t.icrnl then NL else if ch == NL && t.inlcr then CR else ch
  }

  function Echoed(t: Termios, ch: Byte): seq<Byte> {
    if t.onlcr && ch == NL then [CR, ch] else [ch]
  }

  /** What one typed byte echoes, given the line being edited. */
  function EchoOf(t: Termios, pending: seq<Byte>, ch: Byte): seq<Byte> {
    if t.icanon && ch == DEL then
      if pending == [] then [] else [8, 32, 8]
    else if t.icanon && |pending| >= LINE_SIZE then [7]
    else if t.echo || (t.icanon && ch == NL && t.echonl) then Echoed(t, ch)
    else []
  }

  // ----- The discipline as a state machine -----

  /** The queued bytes, the line being edited and the counter of available lines. */
  datatype State = State(queue: seq<Byte>, pending: seq<Byte>, lines: nat)

  function Typed(t: Termios, s: State, ch: Byte): State {
    if t.icanon then
      var e := EditByte(Edited(s.queue, s.pending), ch);
      State(LastN(e.done, QUEUE_SIZE), e.pending, if |e.done| > |s.queue| then s.lines + 1 else s.lines)
    else
      s.(queue := LastN(s.queue + [ch], QUEUE_SIZE))
  }

  /** How many bytes a read of the given size returns. */
  function ReadLength(t: Termios, s: State, size: nat): (n: nat)
    ensures n <= |s.queue|
  {
    Min(size, if t.icanon then LineEnd(s.queue) else |s.queue|)
  }

  predicate TakesNewline(t: Termios, s: State, size: nat) {
    var n := ReadLength(t, s, size);
    t.icanon && n > 0 && s.queue[n - 1] == NL
  }

  /** The assertion in read fires when a newline is taken and no line is counted. */
  predicate AssertionFires(t: Termios, s: State, size: nat) {
    TakesNewline(t, s, size) && s.lines == 0
  }

  function Taken(t: Termios, s: State, size: nat): State
    requires !AssertionFires(t, s, size)
  {
    State(s.queue[ReadLength(t, s, size)..], s.pending, if TakesNewline(t, s, size) then s.lines - 1 else s.lines)
  }

  datatype Event = Type(t: Termios, raw: Byte) | Read(t: Termios, size: nat)

  /** A run from power-on: the state, every byte typed (after input mapping), every byte read,
      whether the queue ever dropped a byte and whether the assertion in read has fired. */
  datatype History = History(s: State, typed: seq<Byte>, taken: seq<Byte>, overflowed: bool, fired: bool)

  function Step(h: History, e: Event): History {
    match e
    case Type(t, raw) =>
      var ch := MapInput(t, raw);
      var grown := |if t.icanon then EditByte(Edited(h.s.queue, h.s.pending), ch).done else h.s.queue + [ch]|;
      h.(s := Typed(t, h.s, ch), typed := h.typed + [ch], overflowed := h.overflowed || grown > QUEUE_SIZE)
    case Read(t, size) =>
      if AssertionFires(t, h.s, size) then h.(fired := true)
      else h.(s := Taken(t, h.s, size), taken := h.taken + h.s.queue[..ReadLength(t, h.s, size)])
  }

  function Run(events: seq<Event>): History {
    if events == [] then History(State([], [], 0), [], [], false, false)
    else Step(Run(events[..|events| - 1]), events[|events| - 1])
  }

  /** While ICANON stays set, what was read followed by what is queued is the completed lines of
      everything typed, until the queue overflows; the line counter counts the queued newlines,
      and never fewer than them even after an overflow; the assertion in read never fires; and
      poll announces input exactly when a complete line is queued. */
  lemma {:induction false} CanonicalRuns(events: seq<Event>)
    requires forall i :: 0 <= i < |events| ==> events[i].t.icanon
    ensures var h := Run(events);
      && !h.fired
      && h.s.pending == EditAll(h.typed).pending
      && h.s.lines >= Newlines(h.s.queue)
      && (!h.overflowed ==>
        && h.taken + h.s.queue == EditAll(h.typed).done
        && h.s.lines == Newlines(h.s.queue)
        && (h.s.lines > 0 <==> NL in h.s.queue) && (h.s.lines > 0 <==> h.s.queue != []))
  {
    if events != [] {
      var before, e := Run(events[..|events| - 1]), events[|events| - 1];
      CanonicalRuns(events[..|events| - 1]);
      if e.Type? {
        TypedKeepsLines(before, e);
      } else {
        TakenKeepsLines(before, e);
      }
      LinesAnnounced(Run(events));
    }
  }

  lemma TypedKeepsLines(h: History, e: Event)
    requires e.Type? && e.t.icanon
    requires h.s.pending == EditAll(h.typed).pending && h.s.lines >= Newlines(h.s.queue)
    ensures var h' := Step(h, e);
      && h'.s.pending == EditAll(h'.typed).pending && h'.s.lines >= Newlines(h'.s.queue)
      && (!h'.overflowed && h.s.lines == Newlines(h.s.queue) ==> h'.s.lines == Newlines(h'.s.queue))
      && (!h'.overflowed && h.taken + h.s.queue == EditAll(h.typed).done ==>
          h'.taken + h'.s.queue == EditAll(h'.typed).done)
  {
    var ch, h' := MapInput(e.t, e.raw), Step(h, e);
    TypedEdits(h.typed, ch);
    var done := EditByte(Edited(h.s.queue, h.s.pending), ch).done;
    assert h'.s.lines >= Newlines(done) && (h.s.lines == Newlines(h.s.queue) ==> h'.s.lines == Newlines(done)) by {
      EditedShape(h.typed);
      CompletedLine(h.s.queue, h.s.pending, ch);
    }
    NewlinesInLastN(done, QUEUE_SIZE);
    if !h'.overflowed && h.taken + h.s.queue == EditAll(h.typed).done {
      assert h'.s.queue == done;
      EditAppends(h.taken, h.s.queue, h.s.pending, ch);
    }
  }

  lemma EditAppends(a: seq<Byte>, b: seq<Byte>, pending: seq<Byte>, ch: Byte)
    ensures EditByte(Edited(a + b, pending), ch).done == a + EditByte(Edited(b, pending), ch).done
  {
    assert a + (b + pending + [NL]) == a + b + pending + [NL];
  }

  lemma TypedEdits(typed: seq<Byte>, ch: Byte)
    ensures EditAll(typed + [ch]) == EditByte(EditAll(typed), ch)
  {
    assert (typed + [ch])[..|typed|] == typed;
  }

  lemma CompletedLine(queue: seq<Byte>, pending: seq<Byte>, ch: Byte)
    requires NL !in pending
    ensures var done := EditByte(Edited(queue, pending), ch).done;
      && (done == queue || done == queue + pending + [NL])
      && Newlines(done) == Newlines(queue) + (if |done| > |queue| then 1 else 0)
  {
    NoNewlines(pending);
    NewlinesAppend(queue, pending);
    assert (queue + pending + [NL])[..|queue + pending|] == queue + pending;
  }

  lemma TakenKeepsLines(h: History, e: Event)
    requires e.Read? && e.t.icanon && h.s.lines >= Newlines(h.s.queue)
    ensures var h' := Step(h, e);
      && h'.fired == h.fired && h'.typed == h.typed && h'.overflowed == h.overflowed
      && h'.s.pending == h.s.pending && h'.s.lines >= Newlines(h'.s.queue)
      && (h.s.lines == Newlines(h.s.queue) ==> h'.s.lines == Newlines(h'.s.queue))
      && h'.taken + h'.s.queue == h.taken + h.s.queue
  {
    var queue, n := h.s.queue, ReadLength(e.t, h.s, e.size);
    NewlinesTaken(queue, n);
    Rejoined(h.taken, queue, n);
  }

  lemma Rejoined(taken: seq<Byte>, queue: seq<Byte>, n: nat)
    requires n <= |queue|
    ensures taken + queue[..n] + queue[n..] == taken + queue
  {
    assert queue[..n] + queue[n..] == queue;
  }

  /** Of the first line only the last byte can be a newline. */
  lemma NewlinesTaken(s: seq<Byte>, n: nat)
    requires n <= LineEnd(s)
    ensures Newlines(s) == Newlines(s[n..]) + (if n > 0 && s[n - 1] == NL then 1 else 0)
  {
    assert s == s[..n] + s[n..];
    NewlinesAppend(s[..n], s[n..]);
    if n > 0 && s[n - 1] == NL {
      assert s[..n][..n - 1] == s[..n - 1];
      NoNewlines(s[..n - 1]);
      LineEndPrefix(s, n - 1);
    } else {
      LineEndPrefix(s, n);
      NoNewlines(s[..n]);
    }
  }

  /** Before the end of the first line there is no newline, except at its very end. */
  lemma LineEndPrefix(s: seq<Byte>, n: nat)
    requires n <= LineEnd(s)
    ensures n < LineEnd(s) || (n > 0 && s[n - 1] != NL) || n == 0 ==> NL !in s[..n]
  {
    var end := LineEnd(s);
    if n < end {
      assert s[..n] <= s[..end - 1];
    }
  }

  lemma LinesAnnounced(h: History)
    ensures h.taken + h.s.queue == EditAll(h.typed).done ==>
      (Newlines(h.s.queue) > 0 <==> NL in h.s.queue) && (NL in h.s.queue <==> h.s.queue != [])
  {
    NoNewlines(h.s.queue);
    EditedShape(h.typed);
    if h.taken + h.s.queue == EditAll(h.typed).done && h.s.queue != [] {
      var done := EditAll(h.typed).done;
      assert done[|done| - 1] == h.s.queue[|h.s.queue| - 1];
    }
  }

  // ----- Switching ICANON -----

  predicate Canonical(events: seq<Event>) {
    forall i :: 0 <= i < |events| ==> events[i].t.icanon
  }

  function RunFrom(h: History, events: seq<Event>): History
    decreases |events|
  {
    if events == [] then h else RunFrom(Step(h, events[0]), events[1..])
  }

  lemma {:induction false} RunOn(before: seq<Event>, after: seq<Event>)
    ensures Run(before + after) == RunFrom(Run(before), after)
    decreases |after|
  {
    if after == [] {
      assert before + after == before;
    } else {
      var before' := before + [after[0]];
      assert before'[..|before'| - 1] == before && before' + after[1..] == before + after;
      RunOn(before', after[1..]);
    }
  }

  /** In no run, whatever the flags, is a newline left in the line being edited. */
  lemma {:induction false} NoNewlinePending(events: seq<Event>)
    ensures NL !in Run(events).s.pending
  {
    if events != [] {
      NoNewlinePending(events[..|events| - 1]);
    }
  }

  /** As long as no queued newline is uncounted, canonical events leave none uncounted. */
  lemma CountCovers(h: History, e: Event)
    requires e.t.icanon && NL !in h.s.pending && h.s.lines >= Newlines(h.s.queue)
    ensures var h' := Step(h, e);
      NL !in h'.s.pending && h'.s.lines >= Newlines(h'.s.queue) && h'.fired == h.fired
  {
    if e.Type? {
      var ch := MapInput(e.t, e.raw);
      CompletedLine(h.s.queue, h.s.pending, ch);
      NewlinesInLastN(EditByte(Edited(h.s.queue, h.s.pending), ch).done, QUEUE_SIZE);
    } else {
      NewlinesTaken(h.s.queue, ReadLength(e.t, h.s, e.size));
    }
  }

  lemma {:induction false} NeverFires(h: History, events: seq<Event>)
    requires Canonical(events) && NL !in h.s.pending && h.s.lines >= Newlines(h.s.queue) && !h.fired
    ensures !RunFrom(h, events).fired
    decreases |events|
  {
    if events != [] {
      CountCovers(h, events[0]);
      NeverFires(Step(h, events[0]), events[1..]);
    }
  }

  /** Reading line by line comes to the newline that is not counted. */
  lemma {:induction false} ReadingFires(h: History, t: Termios) returns (events: seq<Event>)
    requires t.icanon && h.s.lines < Newlines(h.s.queue)
    ensures Canonical(events) && RunFrom(h, events).fired
    decreases |h.s.queue|
  {
    var n := LineEnd(h.s.queue);
    var e := Read(t, n);
    NewlinesTaken(h.s.queue, n);
    assert h.s.queue[n - 1] == NL;
    if h.s.lines == 0 {
      events := [e];
      assert RunFrom(h, events) == RunFrom(Step(h, e), []);
    } else {
      var rest := ReadingFires(Step(h, e), t);
      events := [e] + rest;
      assert events[1..] == rest;
    }
  }

  /** After a run with any flags, events with ICANON set can make the assertion in read fire exactly if
      there are queued newlines that are not counted. */
  lemma FiresExactly(before: seq<Event>)
    requires !Run(before).fired
    ensures (exists after :: Canonical(after) && Run(before + after).fired)
      <==> Run(before).s.lines < Newlines(Run(before).s.queue)
  {
    var h := Run(before);
    NoNewlinePending(before);
    if h.s.lines < Newlines(h.s.queue) {
      var after := ReadingFires(h, Termios(false, false, false, true, false, false));
      RunOn(before, after);
      assert Canonical(after) && Run(before + after).fired;
    } else {
      forall after | Canonical(after)
        ensures !Run(before + after).fired
      {
        NeverFires(h, after);
        RunOn(before, after);
      }
    }
  }

  /** That happens: a newline that is typed while ICANON is off is queued but not counted. */
  lemma SwitchingIcanonFires(t: Termios)
    requires !t.icrnl && !t.inlcr
    ensures Run([Type(t.(icanon := false), NL), Read(t.(icanon := true), 1)]).fired
  {
    var events := [Type(t.(icanon := false), NL), Read(t.(icanon := true), 1)];
    assert events[..1] == [events[0]] && events[..1][..0] == [];
    assert Run(events[..0]) == History(State([], [], 0), [], [], false, false);
    assert Run(events[..1]).s == State([NL], [], 0);
    assert LineEnd([NL]) == 1;
  }

  // ----- The device -----

  class Tty {
    var termios: Termios
    const lineBuffer: array<Byte>
    var lineSize: nat
    var availableLines: nat
    const input: RingBuffer
    var echoed: seq<Byte>    // what echo_raw was given, oldest first

    ghost predicate Valid()
      reads this, lineBuffer, input, input.data
    {
      && input.Valid() && input.data.Length == QUEUE_SIZE
      && lineBuffer.Length == LINE_SIZE && lineSize <= LINE_SIZE
      && lineBuffer != input.data
    }

    /** The state of the terminal, as the state machine above sees it. */
    ghost function View(): State
      requires Valid()
      reads this, lineBuffer, input, input.data
    {
      State(input.contents, lineBuffer[..lineSize], availableLines)
    }

    constructor ()
      ensures Valid() && fresh(input) && fresh(input.data) && fresh(lineBuffer)
      ensures View() == State([], [], 0)
      ensures termios == Termios(true, false, true, true, true, false)
    {
      termios := Termios(true, false, true, true, true, false);
      lineBuffer := new Byte[LINE_SIZE](_ => 0);
      lineSize, availableLines := 0, 0;
      input := new RingBuffer(QUEUE_SIZE);
      echoed := [];
    }

    method EchoRaw(ch: Byte)
      modifies this`echoed
      ensures echoed == old(echoed) + [ch]
    {
      echoed := echoed + [ch];
    }

    method Echo(ch: Byte)
      modifies this`echoed
      ensures echoed == old(echoed) + Echoed(termios, ch)
    {
      if termios.onlcr && ch == NL {
        EchoRaw(CR);
      }
      EchoRaw(ch);
    }

    method FlushLine()
      requires Valid()
      modifies this`lineSize, this`availableLines, input, input.data
      ensures Valid()
      ensures View() == State(LastN(old(View()).queue + old(View()).pending, QUEUE_SIZE), [], old(availableLines) + 1)
    {
      ghost var queue, line := input.contents, lineBuffer[..lineSize];
      var i := 0;
      while i < lineSize
        invariant 0 <= i <= lineSize && Valid() && lineBuffer[..lineSize] == line
        invariant availableLines == old(availableLines)
        invariant input.contents == LastN(queue + line[..i], QUEUE_SIZE)
      {
        assert queue + line[..i + 1] == queue + line[..i] + [line[i]];
        LastNStep(queue + line[..i], line[i], QUEUE_SIZE);
        input.Push(lineBuffer[i]);
        i := i + 1;
      }
      assert line[..i] == line;
      lineSize := 0;
      availableLines := availableLines + 1;
    }

    method Emit(raw: Byte)
      requires Valid()
      modifies this`lineSize, this`availableLines, this`echoed, lineBuffer, input, input.data
      ensures Valid()
      ensures View() == Typed(termios, old(View()), MapInput(termios, raw))
      ensures echoed == old(echoed) + EchoOf(termios, old(View()).pending, MapInput(termios, raw))
    {
      var ch := raw;
      if ch == CR && termios.icrnl {
        ch := NL;
      } else if ch == NL && termios.inlcr {
        ch := CR;
      }
      if termios.icanon {
        EmitCanonical(ch);
      } else {
        input.Push(ch);
        if termios.echo {
          Echo(ch);
        }
      }
    }

    /** The ICANON branch of emit. */
    method EmitCanonical(ch: Byte)
      requires Valid() && termios.icanon
      modifies this`lineSize, this`availableLines, this`echoed, lineBuffer, input, input.data
      ensures Valid()
      ensures View() == Typed(termios, old(View()), ch)
      ensures echoed == old(echoed) + EchoOf(termios, old(View()).pending, ch)
    {
      ghost var queue, line := input.contents, lineBuffer[..lineSize];
      if ch == DEL {
        if lineSize > 0 {
          lineSize := lineSize - 1;
          assert lineBuffer[..lineSize] == line[..|line| - 1];
          EchoRaw(8);
          EchoRaw(32);
          EchoRaw(8);
        }
        return;
      }
      if lineSize < lineBuffer.Length {
        lineBuffer[lineSize] := ch;
        lineSize := lineSize + 1;
        assert lineBuffer[..lineSize] == line + [ch];
      } else {
        EchoRaw(7);
        return;
      }
      if ch == NL {
        if termios.echo || termios.echonl {
          Echo(NL);
        }
        assert queue + (line + [NL]) == queue + line + [NL];
        FlushLine();
        return;
      }
      if termios.echo {
        Echo(ch);
      }
    }

    /** The loop of read: moves bytes to the buffer until it is full, the queue is empty or, with
        ICANON set, a newline was moved. */
    method TakeBytes(buffer: array<Byte>, size: nat, canon: bool) returns (n: nat, newline: bool)
      requires Valid() && size <= buffer.Length && buffer != input.data && buffer != lineBuffer
      modifies buffer, input
      ensures Valid()
      ensures var queue := old(input.contents);
        && n == Min(size, if canon then LineEnd(queue) else |queue|)
        && (newline <==> canon && n > 0 && queue[n - 1] == NL)
        && input.contents == queue[n..]
        && (forall k :: 0 <= k < n ==> buffer[k] == queue[k])
      ensures forall k :: n <= k < buffer.Length ==> buffer[k] == old(buffer[k])
    {
      ghost var queue := input.contents;
      n, newline := 0, false;
      while n < size
        invariant 0 <= n <= size && n <= |queue| && Valid() && input.contents == queue[n..]
        invariant forall k :: 0 <= k < n ==> buffer[k] == queue[k]
        invariant forall k :: n <= k < buffer.Length ==> buffer[k] == old(buffer[k])
        invariant canon ==> n <= LineEnd(queue) && forall k :: 0 <= k < n ==> queue[k] != NL
        invariant !newline
      {
        var ok, ch := input.Pop();
        if !ok {
          break;
        }
        if canon {
          LineEndStep(queue, n);
        }
        buffer[n] := ch;
        n := n + 1;
        if canon && ch == NL {
          newline := true;
          break;
        }
      }
    }

    /** Returns one line, or the part of it that fits; fired tells that the assertion on the line
        counter did not hold. */
    method Read(buffer: array<Byte>, size: nat) returns (n: nat, fired: bool)
      requires Valid() && size <= buffer.Length && buffer != input.data && buffer != lineBuffer
      modifies buffer, input, this`availableLines
      ensures Valid() && n == ReadLength(termios, old(View()), size)
      ensures fired <==> AssertionFires(termios, old(View()), size)
      ensures !fired ==> View() == Taken(termios, old(View()), size)
      ensures forall k :: 0 <= k < n ==> buffer[k] == old(View()).queue[k]
      ensures forall k :: n <= k < buffer.Length ==> buffer[k] == old(buffer[k])
    {
      var newline;
      n, newline := TakeBytes(buffer, size, termios.icanon);
      assert lineBuffer[..] == old(lineBuffer[..]);
      fired := newline && availableLines == 0;
      if newline && !fired {
        availableLines := availableLines - 1;
      }
    }

    /** Scanning past a byte that is not a newline stays inside the first line. */
    static lemma {:induction false} LineEndStep(s: seq<Byte>, n: nat)
      requires n < |s| && forall k :: 0 <= k < n ==> s[k] != NL
      ensures n + 1 <= LineEnd(s)
      ensures s[n] == NL ==> LineEnd(s) == n + 1
      decreases |s|
    {
      if n > 0 {
        LineEndStep(s[1..], n - 1);
      }
    }

    /** With ICANON set, input is announced when a line is counted; otherwise when a byte is queued. */
    method Poll() returns (canRead: bool)
      requires Valid()
      ensures canRead == if termios.icanon then View().lines > 0 else View().queue != []
    {
      if termios.icanon {
        canRead := availableLines > 0;
      } else {
        canRead := input.count > 0;
        assert |input.contents| == input.count;
      }
    }
  }
}
