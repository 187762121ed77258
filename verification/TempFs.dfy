/** kernel/vfs/tempfs/tempfs.cpp: files in memory that grow by blocks, and the custodies through which
    kernel/vfs/vfs.cpp reads, writes and seeks them. */
module TempFs {
  import opened Basics

  const BLOCK_SIZE := 512
  const ERR_NOMEM := -12

  datatype File = File(reserved: nat, size: nat, data: seq<Byte>)

  datatype Custody = Custody(file: nat, offset: nat)

  datatype Whence = Set | Cur | End

  function RoundUp(n: nat): (r: nat)
    ensures r >= n && r % BLOCK_SIZE == 0 && r < n + BLOCK_SIZE
  {
    (n + BLOCK_SIZE - 1) / BLOCK_SIZE * BLOCK_SIZE
  }

  function Zeros(n: nat): (z: seq<Byte>)
    ensures |z| == n && forall i :: 0 <= i < n ==> z[i] == 0
  {
    seq(n, _ => 0)
  }

  // ----- One file -----

  /** The buffer is as long as reserved, a whole number of blocks and no more than needed, and zero past
      the end of the file. */
  ghost predicate GoodFile(f: File) {
    && f.reserved == |f.data| == RoundUp(f.size)
    && forall i :: f.size <= i < |f.data| ==> f.data[i] == 0
  }

  function Content(f: File): seq<Byte> {
    if f.size <= |f.data| then f.data[..f.size] else f.data
  }

  /** The file after it is resized; the buffer is reallocated only if its number of blocks changes. */
  function Resized(f: File, size: nat): File {
    var required := RoundUp(size);
    var data := if required > |f.data| then f.data + Zeros(required - |f.data|) else f.data[..required];
    File(required, size, data)
  }

  /** Bytes from an offset on, over what was there, with zeros in a gap. */
  function Overwrite(c: seq<Byte>, offset: nat, bytes: seq<Byte>): (r: seq<Byte>)
    ensures |r| == if offset + |bytes| > |c| then offset + |bytes| else |c|
  {
    if offset > |c| then c + Zeros(offset - |c|) + bytes
    else if offset + |bytes| > |c| then c[..offset] + bytes
    else c[..offset] + bytes + c[offset + |bytes|..]
  }

  function Stored(f: File, offset: nat, bytes: seq<Byte>): File
    requires offset + |bytes| <= |f.data|
  {
    f.(data := f.data[..offset] + bytes + f.data[offset + |bytes|..])
  }

  lemma ResizedIsGood(f: File, size: nat)
    requires GoodFile(f) && size >= f.size
    ensures GoodFile(Resized(f, size)) && Content(Resized(f, size)) == Content(f) + Zeros(size - f.size)
  {
    RoundUpMonotone(f.size, size);
    var f' := Resized(f, size);
    forall i | 0 <= i < size
      ensures f'.data[i] == if i < f.size then f.data[i] else 0
    {
    }
  }

  lemma RoundUpMonotone(a: nat, b: nat)
    requires a <= b
    ensures RoundUp(a) <= RoundUp(b)
  {
  }

  lemma StoredIsGood(f: File, offset: nat, bytes: seq<Byte>)
    requires GoodFile(f) && offset + |bytes| <= f.size
    ensures GoodFile(Stored(f, offset, bytes))
    ensures Content(Stored(f, offset, bytes)) == Overwrite(Content(f), offset, bytes)
  {
    var f' := Stored(f, offset, bytes);
    SplicedAt(f.data, offset, bytes);
    Prefix(f.data, offset, bytes, f.size);
    assert Content(f') == f'.data[..f.size];
  }

  lemma SplicedAt(data: seq<Byte>, offset: nat, bytes: seq<Byte>)
    requires offset + |bytes| <= |data|
    ensures var data' := data[..offset] + bytes + data[offset + |bytes|..];
      && |data'| == |data|
      && forall i :: 0 <= i < |data| ==>
            data'[i] == if offset <= i < offset + |bytes| then bytes[i - offset] else data[i]
  {
  }

  /** What lies behind the end of the file plays no part. */
  lemma Prefix(data: seq<Byte>, offset: nat, bytes: seq<Byte>, size: nat)
    requires offset + |bytes| <= size <= |data|
    ensures (data[..offset] + bytes + data[offset + |bytes|..])[..size] == Overwrite(data[..size], offset, bytes)
  {
    SplicedAt(data, offset, bytes);
    SplicedAt(data[..size], offset, bytes);
  }

  /** Growing first and storing then is overwriting with a gap of zeros. */
  lemma GrowThenOverwrite(c: seq<Byte>, offset: nat, bytes: seq<Byte>)
    requires offset + |bytes| > |c|
    ensures Overwrite(c + Zeros(offset + |bytes| - |c|), offset, bytes) == Overwrite(c, offset, bytes)
  {
  }

  // ----- Accounting -----

  function Sum(files: seq<File>): nat {
    if files == [] then 0 else Sum(files[..|files| - 1]) + files[|files| - 1].reserved
  }

  lemma {:induction false} SumUpdated(files: seq<File>, i: nat, f: File)
    requires i < |files|
    ensures Sum(files[i := f]) == Sum(files) - files[i].reserved + f.reserved
  {
    var n, files' := |files| - 1, files[i := f];
    if i == n {
      assert files'[..n] == files[..n];
    } else {
      SumUpdated(files[..n], i, f);
      assert files'[..n] == files[..n][i := f];
    }
  }

  lemma SumAdded(files: seq<File>, f: File)
    ensures Sum(files + [f]) == Sum(files) + f.reserved
  {
    assert (files + [f])[..|files|] == files;
  }

  datatype Fs = Fs(capacity: nat, used: nat, files: seq<File>, custodies: seq<Custody>)

  ghost predicate Good(fs: Fs) {
    && (forall i :: 0 <= i < |fs.files| ==> GoodFile(fs.files[i]))
    && fs.used == Sum(fs.files) && fs.used <= fs.capacity
    && forall k :: 0 <= k < |fs.custodies| ==>
         fs.custodies[k].file < |fs.files| && fs.custodies[k].offset <= fs.files[fs.custodies[k].file].size
  }

  // ----- ftruncate, read, write -----

  /** Whether a file may take that size: the capacity counts whole blocks, and the memory must be there. */
  predicate Fits(fs: Fs, i: nat, size: nat, memory: bool)
    requires i < |fs.files|
  {
    var required := RoundUp(size);
    && (required > fs.files[i].reserved ==> fs.used + required - fs.files[i].reserved <= fs.capacity)
    && (required != fs.files[i].reserved ==> memory)
  }

  function Truncated(fs: Fs, i: nat, size: nat): Fs
    requires i < |fs.files|
  {
    fs.(used := Adjusted(fs.used, fs.files[i].reserved, RoundUp(size)),
        files := fs.files[i := Resized(fs.files[i], size)])
  }

  function Adjusted(used: nat, reserved: nat, required: nat): nat {
    if used + required >= reserved then used + required - reserved else 0
  }

  /** The write at an offset: whether it succeeds, and the files then. */
  function WriteStep(fs: Fs, i: nat, offset: nat, bytes: seq<Byte>, memory: bool): (Fs, int)
    requires i < |fs.files|
  {
    var f := fs.files[i];
    if offset + |bytes| > f.size then
      if !Fits(fs, i, offset + |bytes|, memory) then (fs, ERR_NOMEM)
      else
        var fs' := Truncated(fs, i, offset + |bytes|);
        (fs'.(files := fs'.files[i := Stored(fs'.files[i], offset, bytes)]), |bytes|)
    else if offset + |bytes| <= |f.data| then (fs.(files := fs.files[i := Stored(f, offset, bytes)]), |bytes|)
    else (fs, ERR_NOMEM)
  }

  lemma AllocatedInSum(files: seq<File>, i: nat)
    requires i < |files|
    ensures files[i].reserved <= Sum(files)
  {
    SumUpdated(files, i, File(0, 0, []));
  }

  /** Replacing a file by a good one that is no shorter, with the capacity it takes. */
  lemma ReplacedIsGood(fs: Fs, i: nat, f: File, used: nat)
    requires Good(fs) && i < |fs.files| && GoodFile(f) && f.size >= fs.files[i].size
    requires used == fs.used - fs.files[i].reserved + f.reserved && used <= fs.capacity
    ensures Good(fs.(files := fs.files[i := f], used := used))
  {
    SumUpdated(fs.files, i, f);
  }

  lemma GrowIsGood(f: File, offset: nat, bytes: seq<Byte>)
    requires GoodFile(f) && offset + |bytes| > f.size
    ensures var f' := Stored(Resized(f, offset + |bytes|), offset, bytes);
      && GoodFile(f') && f'.size == offset + |bytes| && f'.reserved == RoundUp(offset + |bytes|)
      && Content(f') == Overwrite(Content(f), offset, bytes)
  {
    var g := Resized(f, offset + |bytes|);
    ResizedIsGood(f, offset + |bytes|);
    StoredIsGood(g, offset, bytes);
    GrowThenOverwrite(Content(f), offset, bytes);
  }

  /** A write either fails, for want of capacity or memory, and changes nothing, or overwrites exactly the
      bytes it should. */
  lemma WriteIsGood(fs: Fs, i: nat, offset: nat, bytes: seq<Byte>, memory: bool)
    requires Good(fs) && i < |fs.files|
    ensures var (fs', rc) := WriteStep(fs, i, offset, bytes, memory);
      var f' := if rc < 0 then fs.files[i] else fs'.files[i];
      && Good(fs') && fs' == fs.(files := fs.files[i := f'], used := fs'.used)
      && (rc >= 0 ==> rc == |bytes| && Content(f') == Overwrite(Content(fs.files[i]), offset, bytes))
      && (rc < 0 ==> fs' == fs)
      && (rc < 0 <==> offset + |bytes| > fs.files[i].size && !Fits(fs, i, offset + |bytes|, memory))
  {
    var f := fs.files[i];
    AllocatedInSum(fs.files, i);
    assert fs.files[i := f] == fs.files;
    if offset + |bytes| > f.size {
      if Fits(fs, i, offset + |bytes|, memory) {
        GrowIsGood(f, offset, bytes);
        RoundUpMonotone(f.size, offset + |bytes|);
        var g := Resized(f, offset + |bytes|);
        assert fs.files[i := g][i := Stored(g, offset, bytes)] == fs.files[i := Stored(g, offset, bytes)];
        ReplacedIsGood(fs, i, Stored(g, offset, bytes), fs.used + g.reserved - f.reserved);
      }
    } else {
      StoredIsGood(f, offset, bytes);
      ReplacedIsGood(fs, i, Stored(f, offset, bytes), fs.used);
    }
  }

  // ----- Seeking -----

  /** 32-bit signed results. */
  function ToSsize(x: int): int {
    var w := x % 0x1_0000_0000;
    if w >= 0x8000_0000 then w - 0x1_0000_0000 else w
  }

  /** default_checked_seek, in 64-bit unsigned arithmetic. */
  function CheckedSeek(size: nat, current: nat, whence: Whence, offset: int): (r: nat)
    ensures r <= size
  {
    var target := match whence case Set => offset case Cur => current + offset case End => size - offset;
    var wrapped := target % 0x1_0000_0000_0000_0000;
    if wrapped < size then wrapped else size
  }

  /** A seek that stays inside the file goes where it should; one before the start wraps around and ends
      at the end of the file. */
  lemma SeekMeaning(size: nat, current: nat, whence: Whence, offset: int)
    requires size < 0x1_0000_0000 && current <= size && -0x8000_0000 <= offset < 0x8000_0000 && !whence.End?
    ensures var target := if whence.Set? then offset else current + offset;
      CheckedSeek(size, current, whence, offset) == if 0 <= target <= size then target else size
  {
  }

  /** From the end, offsets count backwards: the result is what it should be only for offset zero. */
  lemma SeekFromEnd(size: nat, current: nat, offset: int)
    requires size < 0x1_0000_0000 && -0x8000_0000 <= offset < 0x8000_0000
    ensures CheckedSeek(size, current, End, offset) == (if 0 <= offset <= size then size - offset else size)
    ensures CheckedSeek(size, current, End, offset) == size + offset <==> offset == 0
  {
  }

  /** vfs_seek: the new offset of a custody, which stays if the result has no place in an ssize_t. */
  function Sought(size: nat, current: nat, whence: Whence, offset: int): nat {
    var target := CheckedSeek(size, current, whence, offset);
    if ToSsize(target) < 0 then current else ToSsize(target)
  }

  lemma SoughtInside(size: nat, current: nat, whence: Whence, offset: int)
    requires current <= size < 0x1_0000_0000
    ensures Sought(size, current, whence, offset) <= size
  {
  }

  /** What was written is read back, what was there before stays, and a gap is zero. */
  lemma OverwriteReads(c: seq<Byte>, offset: nat, bytes: seq<Byte>)
    ensures var r := Overwrite(c, offset, bytes);
      && r[offset..offset + |bytes|] == bytes
      && (forall i :: 0 <= i < |c| && !(offset <= i < offset + |bytes|) ==> r[i] == c[i])
      && (forall i :: |c| <= i < offset ==> r[i] == 0)
  {
  }

  // ----- Runs -----

  datatype Event =
    | Create
    | Open(file: nat)
    | Write(custody: nat, bytes: seq<Byte>, memory: bool)
    | Read(custody: nat, n: nat)
    | Seek(custody: nat, whence: Whence, offset: int)

  datatype Reply = Status(rc: int) | Data(bytes: seq<Byte>)

  predicate Allowed(files: nat, custodies: nat, e: Event) {
    match e
    case Create => true
    case Open(file) => file < files
    case Write(k, bytes, _) => k < custodies && |bytes| < 0x1_0000_0000
    case Read(k, n) => k < custodies && n < 0x1_0000_0000
    case Seek(k, _, offset) => k < custodies && -0x8000_0000 <= offset < 0x8000_0000
  }

  /** vfs_read and vfs_write move the custody on by what was transferred. */
  function Advanced(size: nat, offset: nat, rc: int): nat {
    if ToSsize(rc) > 0 then Sought(size, offset, Cur, ToSsize(rc)) else offset
  }

  function Moved(custodies: seq<Custody>, k: nat, offset: nat): seq<Custody>
    requires k < |custodies|
  {
    custodies[k := custodies[k].(offset := offset)]
  }

  /** The bytes of a file from an offset on, at most n of them. */
  function ReadFrom(c: seq<Byte>, offset: nat, n: nat): seq<Byte> {
    if offset >= |c| then [] else if offset + n > |c| then c[offset..] else c[offset..offset + n]
  }

  /** Whether the custody of a call, if it has one, is there and points at a file that is there. */
  predicate Attached(files: nat, custodies: seq<Custody>, e: Event) {
    (e.Write? || e.Read? || e.Seek?) ==> e.custody < |custodies| && custodies[e.custody].file < files
  }

  /** A call; without an attached custody it has no meaning here, and no run gets there. */
  function Step(fs: Fs, e: Event): (Fs, Reply) {
    if !Attached(|fs.files|, fs.custodies, e) then (fs, Status(0))
    else Called(fs, e)
  }

  function Called(fs: Fs, e: Event): (Fs, Reply)
    requires Attached(|fs.files|, fs.custodies, e)
  {
    match e
    case Create => (fs.(files := fs.files + [File(0, 0, [])]), Status(0))
    case Open(file) => (fs.(custodies := fs.custodies + [Custody(file, 0)]), Status(0))
    case Write(k, bytes, memory) =>
      var c := fs.custodies[k];
      var (fs', rc) := WriteStep(fs, c.file, c.offset, bytes, memory);
      (fs'.(custodies := Moved(fs.custodies, k, Advanced(fs'.files[c.file].size, c.offset, rc))), Status(rc))
    case Read(k, n) =>
      var c := fs.custodies[k];
      var bytes := ReadFrom(Content(fs.files[c.file]), c.offset, n);
      (fs.(custodies := Moved(fs.custodies, k, Advanced(fs.files[c.file].size, c.offset, |bytes|))), Data(bytes))
    case Seek(k, whence, offset) =>
      var c := fs.custodies[k];
      var size := fs.files[c.file].size;
      (fs.(custodies := Moved(fs.custodies, k, Sought(size, c.offset, whence, offset))),
       Status(ToSsize(CheckedSeek(size, c.offset, whence, offset))))
  }

  // ----- The same on plain contents -----

  datatype Plain = Plain(contents: seq<seq<Byte>>, custodies: seq<Custody>)

  function Contents(files: seq<File>): (c: seq<seq<Byte>>)
    ensures |c| == |files| && forall i :: 0 <= i < |files| ==> c[i] == Content(files[i])
  {
    if files == [] then [] else Contents(files[..|files| - 1]) + [Content(files[|files| - 1])]
  }

  function PlainOf(fs: Fs): Plain {
    Plain(Contents(fs.files), fs.custodies)
  }

  /** Files as sequences of bytes, without blocks, capacity or buffers; a write may fail. */
  function PlainStep(p: Plain, e: Event, failed: bool): Plain {
    if Attached(|p.contents|, p.custodies, e) then PlainCalled(p, e, failed) else p
  }

  function PlainCalled(p: Plain, e: Event, failed: bool): Plain
    requires Attached(|p.contents|, p.custodies, e)
  {
    match e
    case Create => p.(contents := p.contents + [[]])
    case Open(file) => p.(custodies := p.custodies + [Custody(file, 0)])
    case Write(k, bytes, _) =>
      var c := p.custodies[k];
      var content := Overwrite(p.contents[c.file], c.offset, bytes);
      if failed then p
      else Plain(p.contents[c.file := content], Moved(p.custodies, k, Advanced(|content|, c.offset, |bytes|)))
    case Read(k, n) =>
      var c := p.custodies[k];
      var content := p.contents[c.file];
      p.(custodies := Moved(p.custodies, k, Advanced(|content|, c.offset, |ReadFrom(content, c.offset, n)|)))
    case Seek(k, whence, offset) =>
      var c := p.custodies[k];
      p.(custodies := Moved(p.custodies, k, Sought(|p.contents[c.file]|, c.offset, whence, offset)))
  }

  lemma AdvancedInside(size: nat, offset: nat, rc: int)
    requires offset <= size < 0x1_0000_0000
    ensures Advanced(size, offset, rc) <= size
  {
  }

  /** Files are smaller than the capacity. */
  lemma SizeBounded(fs: Fs, i: nat)
    requires Good(fs) && i < |fs.files|
    ensures fs.files[i].size <= fs.capacity
  {
    AllocatedInSum(fs.files, i);
  }

  lemma MovedIsGood(fs: Fs, k: nat, offset: nat)
    requires Good(fs) && k < |fs.custodies| && offset <= fs.files[fs.custodies[k].file].size
    ensures Good(fs.(custodies := Moved(fs.custodies, k, offset)))
  {
  }

  lemma WriteEventIsGood(fs: Fs, k: nat, bytes: seq<Byte>, memory: bool)
    requires Good(fs) && fs.capacity < 0x1_0000_0000 && Allowed(|fs.files|, |fs.custodies|, Write(k, bytes, memory))
    ensures var fs' := Step(fs, Write(k, bytes, memory)).0;
      Good(fs') && fs'.capacity == fs.capacity
  {
    var c := fs.custodies[k];
    var (fs', rc) := WriteStep(fs, c.file, c.offset, bytes, memory);
    WriteIsGood(fs, c.file, c.offset, bytes, memory);
    SizeBounded(fs', c.file);
    AdvancedInside(fs'.files[c.file].size, c.offset, rc);
    MovedIsGood(fs', k, Advanced(fs'.files[c.file].size, c.offset, rc));
  }

  lemma StepIsGood(fs: Fs, e: Event)
    requires Good(fs) && fs.capacity < 0x1_0000_0000 && Allowed(|fs.files|, |fs.custodies|, e)
    ensures Good(Step(fs, e).0) && Step(fs, e).0.capacity == fs.capacity
  {
    match e {
      case Create => SumAdded(fs.files, File(0, 0, []));
      case Open(file) =>
      case Write(k, bytes, memory) => WriteEventIsGood(fs, k, bytes, memory);
      case Read(k, n) =>
        var c := fs.custodies[k];
        SizeBounded(fs, c.file);
        AdvancedInside(fs.files[c.file].size, c.offset, |ReadFrom(Content(fs.files[c.file]), c.offset, n)|);
      case Seek(k, whence, offset) =>
        var c := fs.custodies[k];
        SizeBounded(fs, c.file);
        SoughtInside(fs.files[c.file].size, c.offset, whence, offset);
    }
  }

  predicate Failed(r: Reply) {
    r.Status? && r.rc < 0
  }

  /** What a call does to the files and custodies is what it does to plain contents. */
  ghost predicate Refines(fs: Fs, e: Event) {
    PlainOf(Step(fs, e).0) == PlainStep(PlainOf(fs), e, Failed(Step(fs, e).1))
  }

  lemma CreateRefines(fs: Fs)
    ensures Refines(fs, Create)
  {
    assert Contents(fs.files + [File(0, 0, [])]) == Contents(fs.files) + [[]];
  }

  lemma WrittenRefines(fs: Fs, fs': Fs, k: nat, bytes: seq<Byte>, memory: bool)
    requires k < |fs.custodies| && fs.custodies[k].file < |fs.files|
    requires var c := fs.custodies[k];
      && WriteStep(fs, c.file, c.offset, bytes, memory) == (fs', |bytes|) && |fs'.files| == |fs.files|
      && var content := Overwrite(Contents(fs.files)[c.file], c.offset, bytes);
         Contents(fs'.files) == Contents(fs.files)[c.file := content] && |content| == fs'.files[c.file].size
    ensures Refines(fs, Write(k, bytes, memory))
  {
  }

  lemma WriteRefines(fs: Fs, k: nat, bytes: seq<Byte>, memory: bool)
    requires Good(fs) && k < |fs.custodies|
    ensures Refines(fs, Write(k, bytes, memory))
  {
    var c := fs.custodies[k];
    var (fs', rc) := WriteStep(fs, c.file, c.offset, bytes, memory);
    WriteIsGood(fs, c.file, c.offset, bytes, memory);
    if rc < 0 {
      NotWrittenRefines(fs, k, bytes, memory, rc);
    } else {
      WrittenContents(fs, fs', c.file, c.offset, bytes);
      WrittenRefines(fs, fs', k, bytes, memory);
    }
  }

  lemma NotWrittenRefines(fs: Fs, k: nat, bytes: seq<Byte>, memory: bool, rc: int)
    requires k < |fs.custodies| && fs.custodies[k].file < |fs.files| && rc < 0
    requires WriteStep(fs, fs.custodies[k].file, fs.custodies[k].offset, bytes, memory) == (fs, rc)
    ensures Refines(fs, Write(k, bytes, memory))
  {
    assert Moved(fs.custodies, k, fs.custodies[k].offset) == fs.custodies;
  }

  lemma WrittenContents(fs: Fs, fs': Fs, i: nat, offset: nat, bytes: seq<Byte>)
    requires i < |fs.files| && |fs'.files| == |fs.files| && GoodFile(fs'.files[i])
    requires fs'.files == fs.files[i := fs'.files[i]]
    requires Content(fs'.files[i]) == Overwrite(Content(fs.files[i]), offset, bytes)
    ensures var content := Overwrite(Contents(fs.files)[i], offset, bytes);
      Contents(fs'.files) == Contents(fs.files)[i := content] && |content| == fs'.files[i].size
  {
  }

  lemma ReadRefines(fs: Fs, k: nat, n: nat)
    requires Good(fs) && k < |fs.custodies|
    ensures Refines(fs, Read(k, n))
    ensures var c := fs.custodies[k];
      Step(fs, Read(k, n)).1 == Data(ReadFrom(PlainOf(fs).contents[c.file], c.offset, n))
  {
    var f := fs.files[fs.custodies[k].file];
    assert f.size == |Content(f)|;
  }

  lemma SeekRefines(fs: Fs, k: nat, whence: Whence, offset: int)
    requires Good(fs) && k < |fs.custodies|
    ensures Refines(fs, Seek(k, whence, offset))
  {
    var f := fs.files[fs.custodies[k].file];
    assert f.size == |Content(f)|;
  }

  /** Blocks, capacity and buffers do not show. */
  lemma StepRefines(fs: Fs, e: Event)
    requires Good(fs) && Allowed(|fs.files|, |fs.custodies|, e)
    ensures Refines(fs, e)
  {
    match e {
      case Create => CreateRefines(fs);
      case Open(file) =>
      case Write(k, bytes, memory) => WriteRefines(fs, k, bytes, memory);
      case Read(k, n) => ReadRefines(fs, k, n);
      case Seek(k, whence, offset) => SeekRefines(fs, k, whence, offset);
    }
  }

  function Empty(capacity: nat): Fs {
    Fs(capacity, 0, [], [])
  }

  /** What the file system has become after the events, from the empty one on. */
  function Run(capacity: nat, events: seq<Event>): Fs {
    if events == [] then Empty(capacity)
    else Step(Run(capacity, events[..|events| - 1]), events[|events| - 1]).0
  }

  /** What the last event was answered. */
  function LastReply(capacity: nat, events: seq<Event>): Reply
    requires events != []
  {
    Step(Run(capacity, events[..|events| - 1]), events[|events| - 1]).1
  }

  /** Each call was made with files and custodies that there were at the time. */
  predicate AllAllowed(capacity: nat, events: seq<Event>) {
    events == [] ||
      var before := events[..|events| - 1];
      var fs := Run(capacity, before);
      AllAllowed(capacity, before) && Allowed(|fs.files|, |fs.custodies|, events[|events| - 1])
  }

  /** In every run: blocks and zero fill, capacity accounting, and no custody past the end of its file. */
  lemma {:induction false} EveryRunIsGood(capacity: nat, events: seq<Event>)
    requires AllAllowed(capacity, events) && capacity < 0x1_0000_0000
    ensures Good(Run(capacity, events)) && Run(capacity, events).capacity == capacity
  {
    if events != [] {
      var before := events[..|events| - 1];
      EveryRunIsGood(capacity, before);
      StepIsGood(Run(capacity, before), events[|events| - 1]);
    }
  }

  /** The same run on plain contents, told only which calls failed. */
  function PlainRun(events: seq<Event>, failed: seq<bool>): Plain
    requires |failed| == |events|
  {
    if events == [] then Plain([], [])
    else
      var n := |events| - 1;
      PlainStep(PlainRun(events[..n], failed[..n]), events[n], failed[n])
  }

  function Failures(capacity: nat, events: seq<Event>): (failed: seq<bool>)
    ensures |failed| == |events|
  {
    if events == [] then []
    else Failures(capacity, events[..|events| - 1]) + [Failed(LastReply(capacity, events))]
  }

  lemma PlainRunStep(capacity: nat, events: seq<Event>)
    requires events != []
    ensures var before, failed := events[..|events| - 1], Failures(capacity, events);
      PlainRun(events, failed)
        == PlainStep(PlainRun(before, Failures(capacity, before)), events[|events| - 1],
            Failed(LastReply(capacity, events)))
  {
    var before := events[..|events| - 1];
    assert Failures(capacity, events)[..|events| - 1] == Failures(capacity, before);
  }

  /** In every run the files hold what plain contents would hold, and a read is answered from them: with
      the last bytes written, and zeros in gaps. */
  lemma {:induction false} EveryRunRefines(capacity: nat, events: seq<Event>)
    requires AllAllowed(capacity, events) && capacity < 0x1_0000_0000
    ensures PlainOf(Run(capacity, events)) == PlainRun(events, Failures(capacity, events))
    ensures events != [] && events[|events| - 1].Read? ==>
      var before, e := events[..|events| - 1], events[|events| - 1];
      var p := PlainRun(before, Failures(capacity, before));
      && Attached(|p.contents|, p.custodies, e)
      && LastReply(capacity, events)
           == Data(ReadFrom(p.contents[p.custodies[e.custody].file], p.custodies[e.custody].offset, e.n))
  {
    if events != [] {
      var before := events[..|events| - 1];
      EveryRunRefines(capacity, before);
      EveryRunIsGood(capacity, before);
      var e := events[|events| - 1];
      StepRefines(Run(capacity, before), e);
      PlainRunStep(capacity, events);
      if e.Read? {
        ReadRefines(Run(capacity, before), e.custody, e.n);
      }
    }
  }

  /** Shrinking leaves the bytes behind the new end in the last block: they are zero past the end only if
      they were zero before. No call of the kernel shrinks a file. */
  lemma ShrinkKeepsStale(f: File, size: nat)
    requires GoodFile(f) && size < f.size
    ensures GoodFile(Resized(f, size)) <==> forall i :: size <= i < RoundUp(size) && i < f.size ==> f.data[i] == 0
  {
    RoundUpMonotone(size, f.size);
    var f' := Resized(f, size);
    assert forall i :: 0 <= i < RoundUp(size) ==> f'.data[i] == f.data[i];
  }

  // ----- In place -----

  class TempFileSystem {
    const capacity: nat
    var used: nat
    var files: seq<File>
    var custodies: seq<Custody>

    constructor (capacity: nat)
      requires capacity < 0x1_0000_0000
      ensures Valid() && State() == Empty(capacity)
    {
      this.capacity, used, files, custodies := capacity, 0, [], [];
    }

    ghost function State(): Fs
      reads this
    {
      Fs(capacity, used, files, custodies)
    }

    ghost predicate Valid()
      reads this
    {
      Good(State()) && capacity < 0x1_0000_0000
    }

    /** tempfs_file_inode_ftruncate; memory says whether realloc finds memory. */
    method Ftruncate(i: nat, size: nat, memory: bool) returns (rc: int)
      requires i < |files| && files[i].reserved == |files[i].data| && files[i].reserved <= used
      modifies this`used, this`files
      ensures State() == if Fits(old(State()), i, size, memory) then Truncated(old(State()), i, size) else old(State())
      ensures rc == if Fits(old(State()), i, size, memory) then 0 else ERR_NOMEM
    {
      var f := files[i];
      var required := RoundUp(size);
      var data := f.data;
      if required > f.reserved {
        var extra := required - f.reserved;
        if used + extra > capacity || !memory {
          return ERR_NOMEM;
        }
        data := data + Zeros(extra);
        used := used + extra;
      } else if required < f.reserved {
        if !memory {
          return ERR_NOMEM;
        }
        data := data[..required];
        used := used - (f.reserved - required);
      }
      assert required == f.reserved ==> f.data[..required] == f.data;
      files := files[i := File(required, size, data)];
      rc := 0;
    }

    /** tempfs_file_inode_read: at most the bytes up to the end of the file. */
    method ReadFile(i: nat, offset: nat, n: nat) returns (bytes: seq<Byte>)
      requires Valid() && i < |files| && offset <= files[i].size
      ensures bytes == ReadFrom(Content(files[i]), offset, n)
    {
      var size := n;
      if offset + size > files[i].size {
        size := files[i].size - offset;
      }
      bytes := files[i].data[offset..offset + size];
    }

    /** tempfs_file_inode_write: growing the file first if it is too short. */
    method WriteFile(i: nat, offset: nat, bytes: seq<Byte>, memory: bool) returns (rc: int)
      requires Valid() && i < |files|
      modifies this`used, this`files
      ensures (State(), rc) == WriteStep(old(State()), i, offset, bytes, memory)
      ensures Valid()
    {
      WriteIsGood(State(), i, offset, bytes, memory);
      AllocatedInSum(files, i);
      if offset + |bytes| > files[i].size {
        rc := Ftruncate(i, offset + |bytes|, memory);
        if rc < 0 {
          return;
        }
      }
      StoreBytes(i, offset, bytes);
      rc := |bytes|;
    }

    method StoreBytes(i: nat, offset: nat, bytes: seq<Byte>)
      requires i < |files| && offset + |bytes| <= |files[i].data|
      modifies this`files
      ensures var fs := old(State());
        State() == fs.(files := fs.files[i := Stored(fs.files[i], offset, bytes)])
    {
      files := files[i := Stored(files[i], offset, bytes)];
    }

    /** vfs_seek. */
    method VfsSeek(k: nat, whence: Whence, offset: int) returns (rc: int)
      requires k < |custodies| && custodies[k].file < |files|
      modifies this`custodies
      ensures var c := old(custodies)[k];
        && custodies == Moved(old(custodies), k, Sought(files[c.file].size, c.offset, whence, offset))
        && rc == ToSsize(CheckedSeek(files[c.file].size, c.offset, whence, offset))
    {
      var c := custodies[k];
      rc := ToSsize(CheckedSeek(files[c.file].size, c.offset, whence, offset));
      if rc < 0 {
        assert custodies == custodies[k := c.(offset := c.offset)];
        return;
      }
      custodies := custodies[k := c.(offset := rc)];
    }

    /** vfs_read, from a file opened for reading. */
    method VfsRead(k: nat, n: nat) returns (bytes: seq<Byte>)
      requires Valid() && Allowed(|files|, |custodies|, Read(k, n))
      modifies this`custodies
      ensures (State(), Data(bytes)) == Step(old(State()), Read(k, n))
      ensures Valid()
    {
      StepIsGood(State(), Read(k, n));
      var c := custodies[k];
      bytes := ReadFile(c.file, c.offset, n);
      if ToSsize(|bytes|) > 0 {
        var _ := VfsSeek(k, Cur, ToSsize(|bytes|));
      } else {
        assert custodies == custodies[k := c.(offset := c.offset)];
      }
    }

    /** vfs_write, to a file opened for writing. */
    method VfsWrite(k: nat, bytes: seq<Byte>, memory: bool) returns (rc: int)
      requires Valid() && Allowed(|files|, |custodies|, Write(k, bytes, memory))
      modifies this`used, this`files, this`custodies
      ensures (State(), Status(rc)) == Step(old(State()), Write(k, bytes, memory))
      ensures Valid()
    {
      StepIsGood(State(), Write(k, bytes, memory));
      var c := custodies[k];
      WriteIsGood(State(), c.file, c.offset, bytes, memory);
      rc := WriteFile(c.file, c.offset, bytes, memory);
      if ToSsize(rc) > 0 {
        var _ := VfsSeek(k, Cur, ToSsize(rc));
      } else {
        assert custodies == custodies[k := c.(offset := c.offset)];
      }
    }
  }

  // ----- Directories -----

  const MAX_NAME_LEN := 63
  const CHILDREN := 16
  const ERR_NAMETOOLONG := -91
  const ERR_INVAL := -22
  const ERR_EXIST := -17
  const ERR_NOSPACE := -28
  const ERR_NOENT := -2

  datatype InodeType = RegularFile | Directory | Other

  datatype Child = Free | Used(name: string, inode: nat)

  /** No two children have the same name, and all names fit their buffer. */
  ghost predicate GoodChildren(s: seq<Child>) {
    && |s| == CHILDREN
    && (forall i :: 0 <= i < |s| && s[i].Used? ==> |s[i].name| <= MAX_NAME_LEN)
    && forall i, j :: 0 <= i < j < |s| && s[i].Used? && s[j].Used? ==> s[i].name != s[j].name
  }

  ghost predicate Has(s: seq<Child>, name: string) {
    exists i :: 0 <= i < |s| && s[i].Used? && s[i].name == name
  }

  ghost predicate HasFree(s: seq<Child>) {
    exists i :: 0 <= i < |s| && s[i].Free?
  }

  /** The errors of tempfs_dir_create, the first that applies. */
  ghost function CreateError(s: seq<Child>, name: string, kind: InodeType, memory: bool): int {
    if |name| > MAX_NAME_LEN then ERR_NAMETOOLONG
    else if kind.Other? then ERR_INVAL
    else if Has(s, name) then ERR_EXIST
    else if !HasFree(s) then ERR_NOSPACE
    else if !memory then ERR_NOMEM
    else 0
  }

  class TempDirectory {
    var children: seq<Child>

    constructor ()
      ensures GoodChildren(children) && forall name :: !Has(children, name)
    {
      children := seq(CHILDREN, _ => Free);
    }

    /** tempfs_dir_create: the new child takes a free slot; names stay unique. */
    method CreateChild(name: string, kind: InodeType, inode: nat, memory: bool) returns (rc: int)
      requires GoodChildren(children)
      modifies this
      ensures GoodChildren(children) && rc == CreateError(old(children), name, kind, memory)
      ensures rc != 0 ==> children == old(children)
      ensures rc == 0 ==> exists i ::
        0 <= i < CHILDREN && old(children)[i].Free? && children == old(children)[i := Used(name, inode)]
    {
      if |name| > MAX_NAME_LEN {
        return ERR_NAMETOOLONG;
      }
      if kind.Other? {
        return ERR_INVAL;
      }
      var freeIdx := CHILDREN;
      var i := 0;
      while i < CHILDREN
        invariant 0 <= i <= CHILDREN && 0 <= freeIdx <= CHILDREN
        invariant forall k :: 0 <= k < i && children[k].Used? ==> children[k].name != name
        invariant freeIdx == CHILDREN ==> forall k :: 0 <= k < i ==> children[k].Used?
        invariant freeIdx < CHILDREN ==> children[freeIdx].Free?
      {
        if children[i].Free? {
          freeIdx := i;
        } else if children[i].name == name {
          return ERR_EXIST;
        }
        i := i + 1;
      }
      if freeIdx == CHILDREN {
        return ERR_NOSPACE;
      }
      assert HasFree(children);
      if !memory {
        return ERR_NOMEM;
      }
      children := children[freeIdx := Used(name, inode)];
      rc := 0;
    }

    /** tempfs_dir_inode_lookup. */
    method Lookup(name: string) returns (rc: int, inode: nat)
      requires GoodChildren(children)
      ensures rc == (if Has(children, name) then 0 else ERR_NOENT)
      ensures rc == 0 ==> Used(name, inode) in children
    {
      var i := 0;
      while i < CHILDREN
        invariant 0 <= i <= CHILDREN
        invariant forall k :: 0 <= k < i && children[k].Used? ==> children[k].name != name
      {
        if children[i].Used? && children[i].name == name {
          return 0, children[i].inode;
        }
        i := i + 1;
      }
      rc, inode := ERR_NOENT, 0;
    }
  }

  /** A lookup finds what was created under the name, and what it found under other names before. */
  lemma CreatedIsFound(s: seq<Child>, i: nat, name: string, inode: nat, other: string, n: nat)
    requires GoodChildren(s) && i < |s| && s[i].Free? && !Has(s, name)
    ensures var s' := s[i := Used(name, inode)];
      && (Used(name, n) in s' <==> n == inode)
      && (other != name ==> (Used(other, n) in s' <==> Used(other, n) in s))
  {
    var s' := s[i := Used(name, inode)];
    assert s'[i] == Used(name, inode);
    if Used(other, n) in s && other != name {
      var k :| 0 <= k < |s| && s[k] == Used(other, n);
      assert s'[k] == Used(other, n);
    }
  }
}
