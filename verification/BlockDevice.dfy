/** kernel/drivers/device.cpp: SimpleBlockDevice, byte reads and writes made from whole sectors. */
module BlockDevice {
  import opened Basics

  const ERR_NOMEM := -12
  const ERR_ROFS := -30
  const ERR_DEVICE := -5    // any error that a driver reports

  /** A call either returns or trips one of the kasserts, which stops the kernel. */
  datatype Outcome = Returned(rc: int) | Panicked

  function Clamp(low: int, x: int, high: int): int {
    var m := if high < x then high else x;
    if low > m then low else m
  }

  /** Where a request starts and how long it is, once it is cut to the device. */
  function Start(total: nat, offset: int): (o: nat)
    ensures o <= total
  {
    Clamp(0, offset, total)
  }

  function Length(total: nat, offset: int, size: nat): (n: nat)
    ensures Start(total, offset) + n <= total
  {
    Clamp(0, size, total - Start(total, offset))
  }

  // ----- Sectors -----

  // Quotient, remainder and product by a sector size, by repeated subtraction and addition, so that
  // proofs stay linear; DivisionBySectors says that they are the operators of the source.

  function Sector(o: nat, size: nat): nat
    requires size > 0
  {
    if o < size then 0 else 1 + Sector(o - size, size)
  }

  function Within(o: nat, size: nat): (k: nat)
    requires size > 0
    ensures k < size && k <= o
  {
    if o < size then o else Within(o - size, size)
  }

  function Position(sector: nat, size: nat): nat {
    if sector == 0 then 0 else Position(sector - 1, size) + size
  }

  lemma {:induction false} DivisionBySectors(o: nat, size: nat)
    requires size > 0
    ensures Sector(o, size) == o / size && Within(o, size) == o % size
    ensures Position(o, size) == o * size
  {
    if o >= size {
      DivisionBySectors(o - size, size);
      DivideOnce(o, size);
    } else {
      UniqueDivision(o, size, 0, o);
    }
    if o > 0 {
      PositionIsProduct(o, size);
    }
  }

  lemma {:induction false} PositionIsProduct(sector: nat, size: nat)
    ensures Position(sector, size) == sector * size
  {
    if sector > 0 {
      PositionIsProduct(sector - 1, size);
    }
  }

  lemma DivideOnce(o: nat, size: nat)
    requires size > 0 && o >= size
    ensures o / size == 1 + (o - size) / size && o % size == (o - size) % size
  {
    UniqueDivision(o, size, 1 + (o - size) / size, (o - size) % size);
  }

  lemma UniqueDivision(a: nat, d: nat, q: nat, r: nat)
    requires d > 0 && a == q * d + r && r < d
    ensures a / d == q && a % d == r
  {
    var q', r' := a / d, a % d;
    assert a == q' * d + r' && 0 <= r' < d;
    if q' != q {
      Apart(q, q', d, r, r');
    }
  }

  lemma Apart(q: int, q': int, d: nat, r: nat, r': nat)
    requires d > 0 && r < d && r' < d && q != q'
    ensures q * d + r != q' * d + r'
  {
    if q < q' {
      assert (q + 1) * d <= q' * d;
    } else {
      assert (q' + 1) * d <= q * d;
    }
  }

  /** The sector that a byte lies in starts where it should and ends on the device. */
  lemma {:induction false} InSector(o: nat, total: nat, size: nat)
    requires size > 0 && Within(total, size) == 0 && o < total
    ensures Position(Sector(o, size), size) == o - Within(o, size) && Within(o - Within(o, size), size) == 0
    ensures o - Within(o, size) + size <= total
    decreases total
  {
    if o >= size {
      InSector(o - size, total - size, size);
    }
  }

  lemma {:induction false} Boundary(o: nat, size: nat, k: nat)
    requires size > 0 && Within(o, size) + k < size
    ensures Within(o + k, size) == Within(o, size) + k
  {
    if o >= size {
      Boundary(o - size, size, k);
    }
  }

  lemma {:induction false} NextBoundary(o: nat, size: nat)
    requires size > 0
    ensures Within(o - Within(o, size) + size, size) == 0
  {
    if o >= size {
      NextBoundary(o - size, size);
    }
  }

  /** The request starts at a sector boundary or reaches the end of the sector it starts in. */
  predicate Reaches(o: nat, n: nat, size: nat)
    requires size > 0
  {
    Within(o, size) == 0 || Within(o, size) + n >= size
  }

  /** How much of the request lies in the sector it starts in. */
  function Take(o: nat, n: nat, size: nat): nat
    requires size > 0
  {
    if n < size - Within(o, size) then n else size - Within(o, size)
  }

  /** After the first, partial sector the request is at a boundary exactly if it reached the end of that
      sector: this is when the kasserts behind it hold. */
  lemma KassertCondition(o: nat, n: nat, size: nat)
    requires size > 0 && Within(o, size) != 0
    ensures Within(o + Take(o, n, size), size) == 0 <==> Reaches(o, n, size)
  {
    if Reaches(o, n, size) {
      NextBoundary(o, size);
    } else {
      Boundary(o, size, n);
    }
  }

  // ----- Overwriting part of a sequence -----

  function Splice(d: seq<Byte>, at: nat, bytes: seq<Byte>): (d': seq<Byte>)
    requires at + |bytes| <= |d|
    ensures |d'| == |d|
  {
    d[..at] + bytes + d[at + |bytes|..]
  }

  /** A flat byte array: what was written is read back, everything else stays. */
  lemma SpliceRead(d: seq<Byte>, at: nat, bytes: seq<Byte>)
    requires at + |bytes| <= |d|
    ensures Splice(d, at, bytes)[at..at + |bytes|] == bytes
    ensures forall i :: 0 <= i < |d| && !(at <= i < at + |bytes|) ==> Splice(d, at, bytes)[i] == d[i]
  {
  }

  lemma SpliceNothing(d: seq<Byte>, at: nat)
    requires at <= |d|
    ensures Splice(d, at, []) == d
  {
  }

  lemma SpliceOn(d: seq<Byte>, at: nat, a: seq<Byte>, b: seq<Byte>)
    requires at + |a| + |b| <= |d|
    ensures Splice(Splice(d, at, a), at + |a|, b) == Splice(d, at, a + b)
  {
    var x, y := Splice(Splice(d, at, a), at + |a|, b), Splice(d, at, a + b);
    forall i | 0 <= i < |d|
      ensures x[i] == y[i]
    {
    }
  }

  /** Changing bytes inside a sector and writing the sector back changes exactly those bytes. */
  lemma SpliceInSector(d: seq<Byte>, s: nat, len: nat, k: nat, b: seq<Byte>)
    requires s + len <= |d| && k + |b| <= len
    ensures Splice(d, s, Splice(d[s..s + len], k, b)) == Splice(d, s + k, b)
  {
    var x, y := Splice(d, s, Splice(d[s..s + len], k, b)), Splice(d, s + k, b);
    forall i | 0 <= i < |d|
      ensures x[i] == y[i]
    {
    }
  }

  // ----- What a buffer holds -----

  /** The n bytes of b from at on are those of d from o on. */
  ghost predicate Holds(b: seq<Byte>, at: nat, d: seq<Byte>, o: nat, n: nat) {
    && at + n <= |b| && o + n <= |d|
    && forall i :: at <= i < at + n ==> b[i] == d[i - at + o]
  }

  /** Only the n bytes from at on may differ. */
  ghost predicate OnlyWithin(b: seq<Byte>, b': seq<Byte>, at: nat, n: nat) {
    && |b| == |b'|
    && forall i :: 0 <= i < |b| && !(at <= i < at + n) ==> b'[i] == b[i]
  }

  lemma HoldsSlice(b: seq<Byte>, at: nat, d: seq<Byte>, o: nat, n: nat)
    requires at + n <= |b| && o + n <= |d|
    ensures Holds(b, at, d, o, n) <==> b[at..at + n] == d[o..o + n]
  {
    if b[at..at + n] == d[o..o + n] {
      forall i | at <= i < at + n
        ensures b[i] == d[i - at + o]
      {
        assert b[i] == b[at..at + n][i - at] == d[o..o + n][i - at];
      }
    }
  }

  lemma HoldsMore(b: seq<Byte>, b': seq<Byte>, at: nat, d: seq<Byte>, o: nat, n: nat, more: nat)
    requires Holds(b, at, d, o, n) && OnlyWithin(b, b', at + n, more) && Holds(b', at + n, d, o + n, more)
    ensures Holds(b', at, d, o, n + more)
  {
  }

  lemma OnlyWithinBoth(b: seq<Byte>, b1: seq<Byte>, b2: seq<Byte>, at: nat, n: nat, at': nat, n': nat)
    requires OnlyWithin(b, b1, at, n) && OnlyWithin(b1, b2, at', n') && at <= at' && at' + n' <= at + n
    ensures OnlyWithin(b, b2, at, n)
  {
  }

  /** Part of what a buffer holds, copied to another. */
  lemma HoldsPart(b: seq<Byte>, at: nat, d: seq<Byte>, o: nat, n: nat, k: nat, b': seq<Byte>, at': nat, n': nat)
    requires Holds(b, at, d, o, n) && k + n' <= n && Holds(b', at', b, at + k, n')
    ensures Holds(b', at', d, o + k, n')
  {
  }

  /** The sector of byte i has bytes of the request. */
  predicate Touched(i: nat, o: nat, n: nat, size: nat)
    requires size > 0
  {
    o < i - Within(i, size) + size && i - Within(i, size) < o + n
  }

  ghost predicate KeepsUntouched(d: seq<Byte>, d': seq<Byte>, o: nat, n: nat, size: nat)
    requires size > 0
  {
    |d'| == |d| && forall i :: 0 <= i < |d| && !Touched(i, o, n, size) ==> d'[i] == d[i]
  }

  /** Changing one sector that the request touches. */
  lemma SectorUntouched(d: seq<Byte>, d': seq<Byte>, p: nat, o: nat, n: nat, size: nat)
    requires size > 0 && Within(p, size) == 0 && o < p + size && p < o + n && OnlyWithin(d, d', p, size)
    ensures KeepsUntouched(d, d', o, n, size)
  {
    forall i | 0 <= i < |d| && !Touched(i, o, n, size)
      ensures d'[i] == d[i]
    {
      if p <= i < p + size {
        Boundary(p, size, i - p);
      }
    }
  }

  lemma SectorChanged(d: seq<Byte>, sector: seq<Byte>, p: nat, k: nat, data: seq<Byte>)
    requires Holds(sector, 0, d, p, |sector|) && k + |data| <= |sector|
    ensures Splice(d, p, Splice(sector, k, data)) == Splice(d, p + k, data)
  {
    HoldsSlice(sector, 0, d, p, |sector|);
    assert sector[0..|sector|] == sector;
    SpliceInSector(d, p, |sector|, k, data);
  }

  /** Changing one more sector that the request touches. */
  lemma StillUntouched(d0: seq<Byte>, d: seq<Byte>, d': seq<Byte>, p: nat, o: nat, n: nat, size: nat)
    requires size > 0 && Within(p, size) == 0 && o < p + size && p < o + n
    requires KeepsUntouched(d0, d, o, n, size) && OnlyWithin(d, d', p, size)
    ensures KeepsUntouched(d0, d', o, n, size)
  {
    SectorUntouched(d, d', p, o, n, size);
  }

  /** memcpy between different buffers. */
  method Memcpy(dst: array<Byte>, at: nat, src: array<Byte>, k: nat, n: nat)
    requires at + n <= dst.Length && k + n <= src.Length && dst != src
    modifies dst
    ensures Holds(dst[..], at, src[..], k, n) && OnlyWithin(old(dst[..]), dst[..], at, n)
  {
    forall i | at <= i < at + n {
      dst[i] := src[i - at + k];
    }
  }

  class SimpleBlockDevice {
    const sectorSize: nat
    const readOnly: bool
    var disk: seq<Byte>
    ghost var failures: nat    // driver errors and failed allocations so far

    constructor (sectorSize: nat, readOnly: bool, disk: seq<Byte>)
      requires sectorSize > 0 && Within(|disk|, sectorSize) == 0
      ensures Valid() && this.disk == disk && this.sectorSize == sectorSize && this.readOnly == readOnly
    {
      this.sectorSize, this.readOnly, this.disk, this.failures := sectorSize, readOnly, disk, 0;
    }

    ghost predicate Valid()
      reads this
    {
      sectorSize > 0 && Within(|disk|, sectorSize) == 0
    }

    /** A driver reads one sector; when it fails it may have trashed the buffer. */
    method ReadSector(sector: nat, buffer: array<Byte>, at: nat) returns (rc: int)
      requires Valid() && Position(sector, sectorSize) + sectorSize <= |disk| && at + sectorSize <= buffer.Length
      modifies buffer, this`failures
      ensures rc <= 0 && failures == old(failures) + (if rc == 0 then 0 else 1)
      ensures rc == 0 ==> Holds(buffer[..], at, disk, Position(sector, sectorSize), sectorSize)
      ensures OnlyWithin(old(buffer[..]), buffer[..], at, sectorSize)
    {
      var fails: bool := *;
      var bytes := disk[Position(sector, sectorSize)..Position(sector, sectorSize) + sectorSize];
      if fails {
        bytes := *;
        if |bytes| != sectorSize {
          bytes := seq(sectorSize, _ => 0);
        }
        failures := failures + 1;
      }
      forall i | at <= i < at + sectorSize {
        buffer[i] := bytes[i - at];
      }
      rc := if fails then ERR_DEVICE else 0;
    }

    /** A driver writes one sector; when it fails the sector may hold anything. */
    method WriteSector(sector: nat, bytes: seq<Byte>) returns (rc: int)
      requires Valid() && Position(sector, sectorSize) + sectorSize <= |disk| && |bytes| == sectorSize
      modifies this`disk, this`failures
      ensures Valid() && rc <= 0 && failures == old(failures) + (if rc == 0 then 0 else 1)
      ensures rc == 0 ==> disk == Splice(old(disk), Position(sector, sectorSize), bytes)
      ensures OnlyWithin(old(disk), disk, Position(sector, sectorSize), sectorSize)
    {
      var fails: bool := *;
      var stored := bytes;
      if fails {
        stored := *;
        if |stored| != sectorSize {
          stored := bytes;
        }
        failures := failures + 1;
      }
      disk := Splice(disk, Position(sector, sectorSize), stored);
      rc := if fails then ERR_DEVICE else 0;
    }

    method Malloc(size: nat) returns (p: array?<Byte>)
      modifies this`failures
      ensures p == null <==> failures == old(failures) + 1
      ensures p != null ==> failures == old(failures) && fresh(p) && p.Length == size
    {
      var fails: bool := *;
      if fails {
        failures := failures + 1;
        p := null;
      } else {
        p := new Byte[size];
      }
    }

    /** A read delivers exactly the bytes of the device, cut at its end. It fails only if the driver or
        an allocation fails, and panics only if the request ends inside the sector it starts in. */
    method Read(offset: int, buffer: array<Byte>, at: nat, size: nat) returns (outcome: Outcome)
      requires Valid() && at + size <= buffer.Length
      modifies buffer, this`failures
      ensures var o, n := Start(|disk|, offset), Length(|disk|, offset, size);
        && (outcome.Returned? && outcome.rc >= 0 ==>
              outcome.rc == n && Reaches(o, n, sectorSize) && buffer[at..at + n] == disk[o..o + n]
                  && failures == old(failures))
        && (outcome.Returned? && outcome.rc < 0 ==> failures > old(failures))
        && (outcome.Panicked? ==> !Reaches(o, n, sectorSize))
        && OnlyWithin(old(buffer[..]), buffer[..], at, n)
    {
      var o, n := Start(|disk|, offset), Length(|disk|, offset, size);
      var done: nat, temp: array?<Byte> := 0, null;
      if Within(o, sectorSize) != 0 {
        outcome, temp := ReadFirst(o, buffer, at, n);
        if outcome.Panicked? || outcome.rc < 0 {
          return;
        }
        done := outcome.rc;
      }
      outcome := ReadRest(o, buffer, at, n, done, temp);
      HoldsSlice(buffer[..], at, disk, o, n);
    }

    /** Whole sectors straight into the buffer. */
    method ReadWhole(o: nat, buffer: array<Byte>, at: nat, n: nat, first: nat) returns (rc: int, done: nat)
      requires Valid() && o + n <= |disk| && at + n <= buffer.Length && first <= n && Within(o + first, sectorSize) == 0
      requires Holds(buffer[..], at, disk, o, first)
      modifies buffer, this`failures
      ensures rc <= 0 && (rc < 0 ==> failures > old(failures)) && (rc == 0 ==> failures == old(failures))
      ensures rc == 0 ==> done <= n < done + sectorSize && Within(o + done, sectorSize) == 0
      ensures rc == 0 ==> Holds(buffer[..], at, disk, o, done)
      ensures OnlyWithin(old(buffer[..]), buffer[..], at, n)
    {
      ghost var b0 := buffer[..];
      rc, done := 0, first;
      while n - done >= sectorSize
        invariant done <= n && Within(o + done, sectorSize) == 0 && failures == old(failures) && rc == 0
        invariant Holds(buffer[..], at, disk, o, done) && OnlyWithin(b0, buffer[..], at, n)
      {
        InSector(o + done, |disk|, sectorSize);
        ghost var b := buffer[..];
        rc := ReadSector(Sector(o + done, sectorSize), buffer, at + done);
        OnlyWithinBoth(b0, b, buffer[..], at, n, at + done, sectorSize);
        if rc != 0 {
          return;
        }
        HoldsMore(b, buffer[..], at, disk, o, done, sectorSize);
        NextBoundary(o + done, sectorSize);
        done := done + sectorSize;
      }
    }

    /** Whole sectors, and the rest of the last one. */
    method ReadRest(o: nat, buffer: array<Byte>, at: nat, n: nat, first: nat, temp: array?<Byte>)
      returns (outcome: Outcome)
      requires temp != null ==> temp.Length == sectorSize && temp != buffer
      requires Valid() && o + n <= |disk| && at + n <= buffer.Length && first <= n && Within(o + first, sectorSize) == 0
      requires Holds(buffer[..], at, disk, o, first)
      modifies buffer, temp, this`failures
      ensures outcome.Returned?
          && (outcome.rc >= 0 ==> outcome.rc == n && Holds(buffer[..], at, disk, o, n) && failures == old(failures))
      ensures outcome.rc < 0 ==> failures > old(failures)
      ensures OnlyWithin(old(buffer[..]), buffer[..], at, n)
    {
      var rc, done := ReadWhole(o, buffer, at, n, first);
      if rc != 0 {
        return Returned(rc);
      }
      if n - done > 0 {
        ghost var b := buffer[..];
        outcome := ReadLast(o + done, buffer, at + done, n - done, temp);
        OnlyWithinBoth(old(buffer[..]), b, buffer[..], at, n, at + done, n - done);
        if outcome.rc < 0 {
          return;
        }
        HoldsMore(b, buffer[..], at, disk, o, done, n - done);
      }
      outcome := Returned(n);
    }

    /** The first, partial sector of a read, through a buffer of its own. */
    method ReadFirst(o: nat, buffer: array<Byte>, at: nat, n: nat) returns (outcome: Outcome, temp: array?<Byte>)
      requires Valid() && o + n <= |disk| && at + n <= buffer.Length && Within(o, sectorSize) != 0
      modifies buffer, this`failures
      ensures outcome.Returned? && outcome.rc >= 0 ==>
        && outcome.rc == Take(o, n, sectorSize) && Within(o + outcome.rc, sectorSize) == 0 && Reaches(o, n, sectorSize)
        && Holds(buffer[..], at, disk, o, outcome.rc) && failures == old(failures)
      ensures outcome.Returned? && outcome.rc < 0 ==> failures > old(failures)
      ensures outcome.Panicked? ==> !Reaches(o, n, sectorSize)
      ensures OnlyWithin(old(buffer[..]), buffer[..], at, n)
      ensures temp != null ==> fresh(temp) && temp.Length == sectorSize
    {
      InSector(o, |disk|, sectorSize);
      temp := Malloc(sectorSize);
      if temp == null {
        outcome := Returned(ERR_NOMEM);
      } else {
        var rc := ReadSector(Sector(o, sectorSize), temp, 0);
        if rc != 0 {
          outcome := Returned(rc);
        } else {
          outcome := CopyFirst(o, buffer, at, n, temp);
        }
      }
    }

    /** The bytes of that sector from o on, as far as they are asked for. */
    method CopyFirst(o: nat, buffer: array<Byte>, at: nat, n: nat, temp: array<Byte>) returns (outcome: Outcome)
      requires Valid() && o + n <= |disk| && at + n <= buffer.Length && Within(o, sectorSize) != 0
      requires temp != buffer && Holds(temp[..], 0, disk, Position(Sector(o, sectorSize), sectorSize), sectorSize)
      modifies buffer
      ensures outcome == if Reaches(o, n, sectorSize) then Returned(Take(o, n, sectorSize)) else Panicked
      ensures Within(o + Take(o, n, sectorSize), sectorSize) == 0 <==> Reaches(o, n, sectorSize)
      ensures Holds(buffer[..], at, disk, o, Take(o, n, sectorSize))
      ensures OnlyWithin(old(buffer[..]), buffer[..], at, n)
    {
      InSector(o, |disk|, sectorSize);
      var k, take := Within(o, sectorSize), Take(o, n, sectorSize);
      Memcpy(buffer, at, temp, k, take);
      HoldsPart(temp[..], 0, disk, o - k, sectorSize, k, buffer[..], at, take);
      KassertCondition(o, n, sectorSize);
      outcome := if Within(o + take, sectorSize) == 0 then Returned(take) else Panicked;
    }

    /** The rest of a read, less than a sector. */
    method ReadLast(o: nat, buffer: array<Byte>, at: nat, n: nat, temp0: array?<Byte>) returns (outcome: Outcome)
      requires temp0 != null ==> temp0.Length == sectorSize && temp0 != buffer
      requires Valid() && o + n <= |disk| && at + n <= buffer.Length && Within(o, sectorSize) == 0 && 0 < n < sectorSize
      modifies buffer, temp0, this`failures
      ensures outcome.Returned?
      ensures outcome.rc >= 0 ==> Holds(buffer[..], at, disk, o, n) && failures == old(failures)
      ensures outcome.rc < 0 ==> failures > old(failures)
      ensures OnlyWithin(old(buffer[..]), buffer[..], at, n)
    {
      InSector(o, |disk|, sectorSize);
      var temp := temp0;
      if temp == null {
        temp := Malloc(sectorSize);
        if temp == null {
          return Returned(ERR_NOMEM);
        }
      }
      var rc := ReadSector(Sector(o, sectorSize), temp, 0);
      if rc != 0 {
        return Returned(rc);
      }
      Memcpy(buffer, at, temp, 0, n);
      HoldsPart(temp[..], 0, disk, o, sectorSize, 0, buffer[..], at, n);
      outcome := Returned(n);
    }

    /** A write changes exactly the bytes asked for, cut at the end of the device; when it fails, only
        sectors that the request touches may have changed. */
    method Write(offset: int, data: seq<Byte>) returns (outcome: Outcome)
      requires Valid()
      modifies this`disk, this`failures
      ensures Valid() && (readOnly ==> outcome == Returned(ERR_ROFS) && disk == old(disk))
      ensures var o, n := Start(|old(disk)|, offset), Length(|old(disk)|, offset, |data|);
        && (outcome.Returned? && outcome.rc >= 0 ==>
              outcome.rc == n && Reaches(o, n, sectorSize) && disk == Splice(old(disk), o, data[..n])
                  && failures == old(failures))
        && (outcome.Returned? && outcome.rc < 0 && !readOnly ==> failures > old(failures))
        && (outcome.Panicked? ==> !Reaches(o, n, sectorSize))
        && KeepsUntouched(old(disk), disk, o, n, sectorSize)
    {
      if readOnly {
        return Returned(ERR_ROFS);
      }
      var o, n := Start(|disk|, offset), Length(|disk|, offset, |data|);
      var done: nat, temp: array?<Byte> := 0, null;
      SpliceNothing(disk, o);
      if Within(o, sectorSize) != 0 {
        outcome, temp := WriteFirst(o, data[..n]);
        if outcome.Panicked? || outcome.rc < 0 {
          return;
        }
        done := outcome.rc;
      }
      assert data[..n][..done] == data[..done];
      outcome := WriteRest(o, data[..n], done, temp, old(disk));
      assert data[..n][..n] == data[..n];
    }

    /** The first, partial sector of a write: read, changed and written back. */
    method WriteFirst(o: nat, data: seq<Byte>) returns (outcome: Outcome, temp: array?<Byte>)
      requires Valid() && o + |data| <= |disk| && Within(o, sectorSize) != 0
      modifies this`disk, this`failures
      ensures Valid()
      ensures outcome.Returned? && outcome.rc >= 0 ==>
        && outcome.rc == Take(o, |data|, sectorSize) && Within(o + outcome.rc, sectorSize) == 0
              && Reaches(o, |data|, sectorSize)
        && disk == Splice(old(disk), o, data[..outcome.rc]) && failures == old(failures)
      ensures outcome.Returned? && outcome.rc < 0 ==> failures > old(failures)
      ensures outcome.Panicked? ==> !Reaches(o, |data|, sectorSize)
      ensures KeepsUntouched(old(disk), disk, o, |data|, sectorSize)
      ensures temp != null ==> fresh(temp) && temp.Length == sectorSize
    {
      InSector(o, |disk|, sectorSize);
      temp := Malloc(sectorSize);
      if temp == null {
        return Returned(ERR_NOMEM), null;
      }
      var k, take := Within(o, sectorSize), Take(o, |data|, sectorSize);
      var rc := ChangeSector(o - k, k, data[..take], temp);
      if rc != 0 {
        SectorUntouched(old(disk), disk, o - k, o, |data|, sectorSize);
        return Returned(rc), temp;
      }
      SectorUntouched(old(disk), disk, o - k, o, |data|, sectorSize);
      KassertCondition(o, |data|, sectorSize);
      outcome := if Within(o + take, sectorSize) == 0 then Returned(take) else Panicked;
    }

    /** Reads the sector at position p, changes the bytes from k on and writes it back. */
    method ChangeSector(p: nat, k: nat, data: seq<Byte>, temp: array<Byte>) returns (rc: int)
      requires Valid() && Within(p, sectorSize) == 0 && p + sectorSize <= |disk| && k + |data| <= sectorSize
      requires temp.Length == sectorSize
      modifies this`disk, this`failures, temp
      ensures Valid() && rc <= 0
      ensures rc == 0 ==> disk == Splice(old(disk), p + k, data) && failures == old(failures)
      ensures rc < 0 ==> failures > old(failures)
      ensures OnlyWithin(old(disk), disk, p, sectorSize)
    {
      InSector(p, |disk|, sectorSize);
      rc := ReadSector(Sector(p, sectorSize), temp, 0);
      if rc != 0 {
        return;
      }
      ghost var d := disk;
      var changed := Splice(temp[..], k, data);
      SectorChanged(d, temp[..], p, k, data);
      rc := WriteSector(Sector(p, sectorSize), changed);
      assert rc == 0 ==> disk == Splice(d, p, changed);
    }

    /** The next whole sector straight from the buffer. */
    method WriteOne(o: nat, data: seq<Byte>, done: nat, ghost d0: seq<Byte>) returns (rc: int)
      requires Valid() && o + |data| <= |disk| == |d0| && done + sectorSize <= |data|
      requires Within(o + done, sectorSize) == 0
      requires disk == Splice(d0, o, data[..done]) && KeepsUntouched(d0, disk, o, |data|, sectorSize)
      modifies this`disk, this`failures
      ensures Valid() && rc <= 0 && failures == old(failures) + (if rc == 0 then 0 else 1)
      ensures rc == 0 ==> disk == Splice(d0, o, data[..done + sectorSize])
      ensures KeepsUntouched(d0, disk, o, |data|, sectorSize)
    {
      var p, chunk := o + done, data[done..done + sectorSize];
      rc := WriteAligned(p, chunk);
      OneMoreSector(d0, o, data, done, sectorSize);
      StillUntouched(d0, old(disk), disk, p, o, |data|, sectorSize);
    }

    /** One whole sector. */
    method WriteAligned(p: nat, data: seq<Byte>) returns (rc: int)
      requires Valid() && p + sectorSize <= |disk| && Within(p, sectorSize) == 0 && |data| == sectorSize
      modifies this`disk, this`failures
      ensures Valid() && rc <= 0 && failures == old(failures) + (if rc == 0 then 0 else 1)
      ensures rc == 0 ==> disk == Splice(old(disk), p, data)
      ensures OnlyWithin(old(disk), disk, p, sectorSize)
    {
      InSector(p, |disk|, sectorSize);
      rc := WriteSector(Sector(p, sectorSize), data);
    }

    /** Whole sectors straight from the buffer. */
    method WriteWhole(o: nat, data: seq<Byte>, first: nat, ghost d0: seq<Byte>) returns (rc: int, done: nat)
      requires Valid() && o + |data| <= |disk| == |d0| && first <= |data| && Within(o + first, sectorSize) == 0
      requires disk == Splice(d0, o, data[..first]) && KeepsUntouched(d0, disk, o, |data|, sectorSize)
      modifies this`disk, this`failures
      ensures Valid() && rc <= 0 && (rc < 0 ==> failures > old(failures)) && (rc == 0 ==> failures == old(failures))
      ensures rc == 0 ==> done <= |data| < done + sectorSize && Within(o + done, sectorSize) == 0
      ensures rc == 0 ==> disk == Splice(d0, o, data[..done])
      ensures KeepsUntouched(d0, disk, o, |data|, sectorSize)
    {
      rc, done := 0, first;
      while |data| - done >= sectorSize
        invariant done <= |data| && Within(o + done, sectorSize) == 0 && failures == old(failures) && rc == 0
        invariant |disk| == |d0|
        invariant disk == Splice(d0, o, data[..done]) && KeepsUntouched(d0, disk, o, |data|, sectorSize)
      {
        rc := WriteOne(o, data, done, d0);
        if rc != 0 {
          return;
        }
        NextBoundary(o + done, sectorSize);
        done := done + sectorSize;
      }
    }

    /** Whole sectors, and the rest of the last one. */
    method WriteRest(o: nat, data: seq<Byte>, first: nat, temp0: array?<Byte>, ghost d0: seq<Byte>)
      returns (outcome: Outcome)
      requires Valid() && o + |data| <= |disk| == |d0| && first <= |data| && Within(o + first, sectorSize) == 0
      requires disk == Splice(d0, o, data[..first]) && KeepsUntouched(d0, disk, o, |data|, sectorSize)
      requires temp0 != null ==> temp0.Length == sectorSize
      modifies this`disk, this`failures, temp0
      ensures Valid() && outcome.Returned?
      ensures outcome.rc >= 0 ==> outcome.rc == |data| && disk == Splice(d0, o, data) && failures == old(failures)
      ensures outcome.rc < 0 ==> failures > old(failures)
      ensures KeepsUntouched(d0, disk, o, |data|, sectorSize)
    {
      var rc, done := WriteWhole(o, data, first, d0);
      if rc != 0 {
        return Returned(rc);
      }
      assert data[..|data|] == data;
      if |data| - done > 0 {
        rc := WriteLast(o, data, done, temp0, d0);
        if rc != 0 {
          return Returned(rc);
        }
      }
      outcome := Returned(|data|);
    }

    /** The rest of a write, less than a sector. */
    method WriteLast(o: nat, data: seq<Byte>, done: nat, temp0: array?<Byte>, ghost d0: seq<Byte>) returns (rc: int)
      requires Valid() && o + |data| <= |disk| == |d0| && done < |data| < done + sectorSize
      requires Within(o + done, sectorSize) == 0
      requires disk == Splice(d0, o, data[..done]) && KeepsUntouched(d0, disk, o, |data|, sectorSize)
      requires temp0 != null ==> temp0.Length == sectorSize
      modifies this`disk, this`failures, temp0
      ensures Valid() && rc <= 0 && (rc < 0 ==> failures > old(failures))
      ensures rc == 0 ==> disk == Splice(d0, o, data) && failures == old(failures)
      ensures KeepsUntouched(d0, disk, o, |data|, sectorSize)
    {
      var temp := temp0;
      if temp == null {
        temp := Malloc(sectorSize);
      }
      if temp == null {
        rc := ERR_NOMEM;
      } else {
        var p, chunk := o + done, data[done..];
        InSector(p, |disk|, sectorSize);
        rc := ChangeSector(p, 0, chunk, temp);
        StillUntouched(d0, old(disk), disk, p, o, |data|, sectorSize);
        LastSector(d0, o, data, done);
      }
    }
  }

  lemma LastSector(d: seq<Byte>, o: nat, data: seq<Byte>, done: nat)
    requires o + |data| <= |d| && done <= |data|
    ensures Splice(Splice(d, o, data[..done]), o + done, data[done..]) == Splice(d, o, data)
  {
    SpliceOn(d, o, data[..done], data[done..]);
    assert data[..done] + data[done..] == data;
  }

  lemma OneMoreSector(d: seq<Byte>, o: nat, data: seq<Byte>, done: nat, size: nat)
    requires o + |data| <= |d| && done + size <= |data|
    ensures Splice(Splice(d, o, data[..done]), o + done, data[done..done + size]) == Splice(d, o, data[..done + size])
  {
    SpliceOn(d, o, data[..done], data[done..done + size]);
    assert data[..done] + data[done..done + size] == data[..done + size];
  }
}
