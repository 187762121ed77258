/** kernel/vfs/fat32/fat32.cpp: following cluster chains through a cache of one FAT sector, and reading
    files (Microsoft FAT32 File System Specification v1.03, section "FAT Data Structure"). */
module Fat32 {
  import opened Basics
  import opened BlockDevice

  const SECTOR_SIZE: nat := 512
  const INVALID_SECTOR: nat := 0xffff_ffff
  const ERR_IO := -5

  /** The fields of the BIOS parameter block that reading uses. */
  datatype Bpb = Bpb(rsvdSecCnt: nat, numFats: nat, fatSz32: nat, secPerClus: nat) {
    predicate Valid() {
      rsvdSecCnt < 0x1_0000 && numFats < 0x100 && fatSz32 < 0x1_0000_0000 && 0 < secPerClus < 0x100
    }

    function ClusterSize(): (n: nat)
      ensures n > 0 <==> secPerClus > 0
    {
      SECTOR_SIZE * secPerClus
    }
  }

  /** Cluster numbers are read with a mask of 28 bits. */
  type Cluster = c: int | 0 <= c < 0x1000_0000

  predicate IsValidCluster(c: Cluster) {
    2 <= c < 0x0fff_fff8
  }

  // ----- The FAT on the device -----

  // Divisions are written as in module BlockDevice.

  function FatSector(bpb: Bpb, c: Cluster): nat {
    bpb.rsvdSecCnt + Sector(4 * c, SECTOR_SIZE)
  }

  lemma FatSectorIsValid(bpb: Bpb, c: Cluster)
    requires bpb.Valid()
    ensures FatSector(bpb, c) < INVALID_SECTOR
  {
    DivisionBySectors(4 * c, SECTOR_SIZE);
  }

  lemma AlignedEntry(c: Cluster)
    ensures Within(4 * c, SECTOR_SIZE) + 4 <= SECTOR_SIZE
  {
    DivisionBySectors(4 * c, SECTOR_SIZE);
  }

  function FatOffset(c: Cluster): (k: nat)
    ensures k + 4 <= SECTOR_SIZE
  {
    AlignedEntry(c);
    Within(4 * c, SECTOR_SIZE)
  }

  function Le32(b: seq<Byte>, at: nat): nat
    requires at + 4 <= |b|
  {
    b[at] as int + 0x100 * b[at + 1] as int + 0x1_0000 * b[at + 2] as int + 0x100_0000 * b[at + 3] as int
  }

  function EntryIn(sector: seq<Byte>, c: Cluster): Cluster
    requires |sector| == SECTOR_SIZE
  {
    Within(Le32(sector, FatOffset(c)), 0x1000_0000)
  }

  predicate SectorInside(d: seq<Byte>, sector: nat) {
    SECTOR_SIZE * sector + SECTOR_SIZE <= |d|
  }

  /** The FAT entry of a cluster, read from the device without a cache. */
  function EntryOnDevice(d: seq<Byte>, bpb: Bpb, c: Cluster): Cluster
    requires SectorInside(d, FatSector(bpb, c))
  {
    Within(Le32(d, SECTOR_SIZE * FatSector(bpb, c) + FatOffset(c)), 0x1000_0000)
  }

  lemma CachedEntry(sector: seq<Byte>, d: seq<Byte>, bpb: Bpb, c: Cluster)
    requires |sector| == SECTOR_SIZE && Holds(sector, 0, d, SECTOR_SIZE * FatSector(bpb, c), SECTOR_SIZE)
    ensures EntryIn(sector, c) == EntryOnDevice(d, bpb, c)
  {
  }

  /** The k-th cluster of the chain that starts at first. */
  function ChainAt(d: seq<Byte>, bpb: Bpb, first: Cluster, k: nat): Cluster {
    if k == 0 then first
    else
      var c := ChainAt(d, bpb, first, k - 1);
      if SectorInside(d, FatSector(bpb, c)) then EntryOnDevice(d, bpb, c) else 0
  }

  function MinusTwo(c: Cluster): nat {
    if c >= 2 then c - 2 else c + 0xffff_fffe
  }

  /** cluster_idx_to_sector, in 32-bit arithmetic. */
  function ClusterToSector(bpb: Bpb, c: Cluster): nat {
    Within(bpb.rsvdSecCnt + Position(bpb.numFats, bpb.fatSz32) + Position(MinusTwo(c), bpb.secPerClus), 0x1_0000_0000)
  }

  lemma ClusterToSectorOfValid(bpb: Bpb, c: Cluster)
    requires IsValidCluster(c)
    ensures ClusterToSector(bpb, c)
        == (bpb.rsvdSecCnt + bpb.numFats * bpb.fatSz32 + (c - 2) * bpb.secPerClus) % 0x1_0000_0000
  {
    PositionIsProduct(bpb.numFats, bpb.fatSz32);
    PositionIsProduct(c - 2, bpb.secPerClus);
    DivisionBySectors(bpb.rsvdSecCnt + bpb.numFats * bpb.fatSz32 + (c - 2) * bpb.secPerClus, 0x1_0000_0000);
  }

  function ClusterStart(bpb: Bpb, c: Cluster): nat {
    SECTOR_SIZE * ClusterToSector(bpb, c)
  }

  /** The first count clusters of the chain are valid and on the device, and each but the last is looked
      up in a part of the FAT that is on the device. */
  ghost predicate ChainGood(d: seq<Byte>, bpb: Bpb, first: Cluster, count: nat) {
    forall k :: 0 <= k < count ==>
      var c := ChainAt(d, bpb, first, k);
      && IsValidCluster(c) && ClusterStart(bpb, c) + bpb.ClusterSize() <= |d|
      && (k + 1 < count ==> SectorInside(d, FatSector(bpb, c)))
  }

  // ----- The file that a chain holds -----

  /** Pieces of one size lie on the device, each where it starts. */
  ghost predicate PiecesInside(d: seq<Byte>, starts: seq<nat>, size: nat) {
    forall k :: 0 <= k < |starts| ==> starts[k] + size <= |d|
  }

  /** The pieces one after the other. */
  function Concat(d: seq<Byte>, starts: seq<nat>, size: nat): seq<Byte>
    requires PiecesInside(d, starts, size)
  {
    if starts == [] then []
    else
      var start := starts[|starts| - 1];
      Concat(d, starts[..|starts| - 1], size) + d[start..start + size]
  }

  lemma {:induction false} ConcatLength(d: seq<Byte>, starts: seq<nat>, size: nat)
    requires PiecesInside(d, starts, size)
    ensures |Concat(d, starts, size)| == Position(|starts|, size)
  {
    if starts != [] {
      ConcatLength(d, starts[..|starts| - 1], size);
    }
  }

  lemma {:induction false} PositionInside(p: nat, count: nat, size: nat)
    requires size > 0 && p < Position(count, size)
    ensures Sector(p, size) < count && Position(Sector(p, size), size) + Within(p, size) == p
    decreases count
  {
    if p >= size {
      PositionInside(p - size, count - 1, size);
    }
  }

  /** Byte p lies in piece p / size, at p % size. */
  lemma {:induction false} ConcatByte(d: seq<Byte>, starts: seq<nat>, size: nat, p: nat)
    requires size > 0 && PiecesInside(d, starts, size) && p < Position(|starts|, size)
    ensures p < |Concat(d, starts, size)| && Sector(p, size) < |starts|
    ensures Concat(d, starts, size)[p] == d[starts[Sector(p, size)] + Within(p, size)]
    decreases |starts|
  {
    var k := |starts| - 1;
    ConcatLength(d, starts, size);
    ConcatLength(d, starts[..k], size);
    PositionInside(p, |starts|, size);
    if p < Position(k, size) {
      ConcatByte(d, starts[..k], size, p);
    } else {
      SectorOfPosition(k, size, p - Position(k, size));
    }
  }

  lemma {:induction false} SectorOfPosition(k: nat, size: nat, r: nat)
    requires r < size
    ensures Sector(Position(k, size) + r, size) == k && Within(Position(k, size) + r, size) == r
  {
    if k > 0 {
      SectorOfPosition(k - 1, size, r);
    }
  }

  /** A part that does not leave its piece is contiguous on the device. */
  lemma PartOfPiece(d: seq<Byte>, starts: seq<nat>, size: nat, p: nat, n: nat)
    requires size > 0 && PiecesInside(d, starts, size) && p + n <= Position(|starts|, size)
    requires n > 0 && Within(p, size) + n <= size
    ensures |Concat(d, starts, size)| == Position(|starts|, size) && Sector(p, size) < |starts|
    ensures Holds(Concat(d, starts, size), p, d, starts[Sector(p, size)] + Within(p, size), n)
  {
    ConcatLength(d, starts, size);
    ConcatByte(d, starts, size, p);
    var start := starts[Sector(p, size)] + Within(p, size);
    forall i | p <= i < p + n
      ensures Concat(d, starts, size)[i] == d[i - p + start]
    {
      ByteOfPiece(d, starts, size, p, i);
    }
  }

  lemma ByteOfPiece(d: seq<Byte>, starts: seq<nat>, size: nat, p: nat, i: nat)
    requires size > 0 && PiecesInside(d, starts, size) && p <= i < Position(|starts|, size)
    requires Within(p, size) + (i - p) < size
    ensures |Concat(d, starts, size)| == Position(|starts|, size) && Sector(p, size) < |starts|
    ensures 0 <= i - p + (starts[Sector(p, size)] + Within(p, size)) < |d|
    ensures Concat(d, starts, size)[i] == d[i - p + (starts[Sector(p, size)] + Within(p, size))]
  {
    ConcatLength(d, starts, size);
    ConcatByte(d, starts, size, i);
    SameSector(p, size, i - p);
  }

  /** Where the first count clusters of a chain start. */
  function Starts(d: seq<Byte>, bpb: Bpb, first: Cluster, count: nat): (starts: seq<nat>)
    ensures |starts| == count
    ensures forall k :: 0 <= k < count ==> starts[k] == ClusterStart(bpb, ChainAt(d, bpb, first, k))
  {
    if count == 0 then [] else Starts(d, bpb, first, count - 1) + [ClusterStart(bpb, ChainAt(d, bpb, first, count - 1))]
  }

  /** The bytes of the first count clusters of a chain. */
  function Contents(d: seq<Byte>, bpb: Bpb, first: Cluster, count: nat): seq<Byte>
    requires ChainGood(d, bpb, first, count)
  {
    Concat(d, Starts(d, bpb, first, count), bpb.ClusterSize())
  }

  lemma {:induction false} SameSector(p: nat, size: nat, k: nat)
    requires size > 0 && Within(p, size) + k < size
    ensures Sector(p + k, size) == Sector(p, size) && Within(p + k, size) == Within(p, size) + k
  {
    if p >= size {
      SameSector(p - size, size, k);
    }
  }

  /** One past the end of a sector the next one starts. */
  lemma {:induction false} NextSector(p: nat, size: nat)
    requires size > 0
    ensures var q := p - Within(p, size) + size;
      Sector(q, size) == Sector(p, size) + 1 && Within(q, size) == 0
  {
    if p >= size {
      NextSector(p - size, size);
    }
  }

  class FileSystem {
    const device: SimpleBlockDevice
    const bpb: Bpb
    var cachedSector: nat
    const cache: array<Byte>

    constructor (device: SimpleBlockDevice, bpb: Bpb)
      requires device.Valid() && device.sectorSize == SECTOR_SIZE && bpb.Valid()
      ensures Valid() && this.device == device && this.bpb == bpb && fresh(cache) && cachedSector == INVALID_SECTOR
    {
      this.device, this.bpb, this.cachedSector := device, bpb, INVALID_SECTOR;
      this.cache := new Byte[SECTOR_SIZE](_ => 0);
    }

    /** A sector in the cache that lies on the device holds what the device holds. */
    ghost predicate Valid()
      reads this, device, cache
    {
      && device.Valid() && device.sectorSize == SECTOR_SIZE && bpb.Valid() && cache.Length == SECTOR_SIZE
      && (cachedSector != INVALID_SECTOR && SectorInside(device.disk, cachedSector) ==>
            Holds(cache[..], 0, device.disk, SECTOR_SIZE * cachedSector, SECTOR_SIZE))
    }

    /** Reading one sector. Past the end of the device nothing is read, which is taken for success. */
    method ReadSector(sector: nat) returns (rc: int)
      requires device.Valid() && device.sectorSize == SECTOR_SIZE && cache.Length == SECTOR_SIZE
      modifies cache, device`failures
      ensures rc <= 0 && (rc < 0 ==> device.failures > old(device.failures))
          && (rc == 0 ==> device.failures == old(device.failures))
      ensures rc == 0 && SectorInside(device.disk, sector) ==>
          Holds(cache[..], 0, device.disk, SECTOR_SIZE * sector, SECTOR_SIZE)
      ensures !SectorInside(device.disk, sector) ==> cache[..] == old(cache[..])
    {
      AlignedRequest(|device.disk|, sector);
      var outcome := device.Read(SECTOR_SIZE * sector, cache, 0, SECTOR_SIZE);
      if outcome.rc == SECTOR_SIZE {
        HoldsSlice(cache[..], 0, device.disk, SECTOR_SIZE * sector, SECTOR_SIZE);
        rc := 0;
      } else if outcome.rc > 0 {
        rc := ERR_IO;
      } else {
        rc := outcome.rc;
      }
    }

    /** next_cluster: the lookup through the cache gives what the FAT on the device says, as long as the
        sector lies on the device, after any earlier lookups and failed reads. */
    method NextCluster(c: Cluster) returns (rc: int, next: Cluster)
      requires Valid()
      modifies this`cachedSector, cache, device`failures
      ensures Valid() && rc <= 0
      ensures rc < 0 ==> device.failures > old(device.failures)
      ensures rc == 0 ==> device.failures == old(device.failures)
      ensures rc == 0 && SectorInside(device.disk, FatSector(bpb, c)) ==> next == EntryOnDevice(device.disk, bpb, c)
      ensures rc == 0 && !SectorInside(device.disk, FatSector(bpb, c)) ==> next == EntryIn(old(cache[..]), c)
    {
      var sector := FatSector(bpb, c);
      FatSectorIsValid(bpb, c);
      rc := 0;
      if cachedSector != sector {
        cachedSector := INVALID_SECTOR;
        rc := ReadSector(sector);
        if rc < 0 {
          return rc, 0;
        }
        cachedSector := sector;
      }
      if SectorInside(device.disk, sector) {
        CachedEntry(cache[..], device.disk, bpb, c);
      }
      next := EntryIn(cache[..], c);
    }

    /** step_cluster_chain: the cluster that many steps down the chain, or the end mark if the chain is
        shorter. */
    method StepClusterChain(first: Cluster, steps: nat) returns (rc: int, current: Cluster)
      requires Valid()
      modifies this`cachedSector, cache, device`failures
      ensures Valid() && rc <= 0
      ensures rc < 0 ==> device.failures > old(device.failures)
      ensures rc == 0 ==> device.failures == old(device.failures)
      ensures rc == 0 ==> Stepped(device.disk, bpb, first, steps, current)
    {
      current := first;
      rc := 0;
      var i := 0;
      while i < steps
        invariant 0 <= i <= steps && Valid() && rc == 0 && device.failures == old(device.failures)
        invariant OnChain(device.disk, bpb, first, i, current)
        invariant forall j :: 0 < j <= i && Followable(device.disk, bpb, first, j) ==>
            IsValidCluster(ChainAt(device.disk, bpb, first, j))
      {
        ghost var c := current;
        rc, current := NextCluster(current);
        if rc != 0 {
          return;
        }
        OneStep(device.disk, bpb, first, i, c, current);
        i := i + 1;
        if !IsValidCluster(current) {
          ChainEnds(device.disk, bpb, first, i, steps, current);
          return;
        }
      }
      ChainEnds(device.disk, bpb, first, steps, steps, current);
    }

    // In the methods below, good says that the chain is good for as many clusters as the request needs.

    /** One piece of a read, in the current cluster. */
    method ReadPiece(current: Cluster, p: nat, buffer: array<Byte>, done: nat, n: nat, ghost good: bool,
            ghost d: seq<Byte>, ghost starts: seq<nat>)
      returns (outcome: Outcome)
      requires Valid() && device.disk == d && buffer != cache && n > 0 && done + n <= buffer.Length
      requires good ==> PieceServed(d, starts, bpb.ClusterSize(), p, n, ClusterStart(bpb, current))
      modifies buffer, device`failures
      ensures Valid() && OnlyWithin(old(buffer[..]), buffer[..], done, Take(p, n, bpb.ClusterSize()))
      ensures outcome.Returned? && outcome.rc >= 0 ==>
        && outcome.rc == Take(p, n, bpb.ClusterSize()) > 0 && device.failures == old(device.failures)
        && (good ==> FileHolds(d, starts, bpb.ClusterSize(), buffer[..], done, p, outcome.rc))
      ensures good && outcome.Returned? && outcome.rc < 0 ==> device.failures > old(device.failures)
      ensures good && outcome.Panicked? ==> !Reaches(p, n, SECTOR_SIZE) && Within(p, bpb.ClusterSize()) != 0
    {
      ghost var size := bpb.ClusterSize();
      var start, piece := ClusterStart(bpb, current) + Within(p, bpb.ClusterSize()), Take(p, n, bpb.ClusterSize());
      outcome := device.Read(start, buffer, done, piece);
      if good {
        PieceOfFile(d, starts, size, p, n, ClusterStart(bpb, current), buffer[..], done);
        HoldsSlice(buffer[..], done, d, start, piece);
        if outcome.Panicked? {
          PanicCause(ClusterToSector(bpb, current), bpb.secPerClus, p, n);
        }
      }
      if outcome.Returned? && outcome.rc >= 0 && outcome.rc != piece {
        outcome := Returned(ERR_IO);
      }
    }

    /** Going on to the next cluster where a piece ended before the request. */
    method Advance(current: Cluster, ghost p: nat, ghost n: nat, ghost q: nat, ghost rest: nat, ghost good: bool,
            ghost d: seq<Byte>, ghost first: Cluster, ghost count: nat)
      returns (rc: int, next: Cluster)
      requires Valid() && device.disk == d && Take(p, n, bpb.ClusterSize()) < n
      requires q == p + Take(p, n, bpb.ClusterSize()) && rest == n - Take(p, n, bpb.ClusterSize())
      requires good ==> ChainServes(d, bpb, first, count, p, n, current)
      modifies this`cachedSector, cache, device`failures
      ensures Valid() && rc <= 0 && (rc == 0 ==> device.failures == old(device.failures))
      ensures rc == 0 ==> Within(q, bpb.ClusterSize()) == 0
      ensures good && rc < 0 ==> device.failures > old(device.failures)
      ensures good && rc == 0 ==> ChainServes(d, bpb, first, count, q, rest, next)
    {
      NextSector(p, bpb.ClusterSize());
      rc, next := NextCluster(current);
      if good && rc == 0 {
        NextServes(d, bpb, first, count, p, n, current, next);
      }
      if rc == 0 && !IsValidCluster(next) {
        rc := ERR_IO;
      }
    }

    /** One round of the loop: a piece, and if more is to come the next cluster. */
    method ReadNext(current: Cluster, p: nat, left: nat, buffer: array<Byte>, done: nat, ghost o: nat, ghost n: nat,
                    ghost good: bool, ghost d: seq<Byte>, ghost first: Cluster, ghost count: nat)
      returns (outcome: Outcome, next: Cluster, q: nat, rest: nat, reached: nat)
      requires Valid() && device.disk == d && buffer != cache && left > 0 && done + left == n <= buffer.Length
      requires good ==> Reading(d, bpb, first, count, buffer[..], o, n, done, p, left, current)
      requires (done == 0 && p == o && left == n) || Within(p, bpb.ClusterSize()) == 0
      modifies this`cachedSector, cache, buffer, device`failures
      ensures Valid() && OnlyWithin(old(buffer[..]), buffer[..], 0, n)
      ensures outcome.Returned? && outcome.rc >= 0 ==>
        && reached + rest == n && rest < left && device.failures == old(device.failures)
        && (rest > 0 ==> Within(q, bpb.ClusterSize()) == 0)
        && (good ==> Reading(d, bpb, first, count, buffer[..], o, n, reached, q, rest, next))
      ensures good && outcome.Returned? && outcome.rc < 0 ==> device.failures > old(device.failures)
      ensures good && outcome.Panicked? ==> !Reaches(o, n, SECTOR_SIZE)
    {
      ghost var b, starts := buffer[..], Starts(d, bpb, first, count);
      next, q, rest, reached := current, p, left, done;
      if good {
        CurrentServes(d, bpb, first, count, b, o, n, done, p, left, current);
      }
      outcome := ReadPiece(current, p, buffer, done, left, good, d, starts);
      if outcome.Panicked? || outcome.rc < 0 {
        return;
      }
      ghost var b', more := buffer[..], outcome.rc;
      OnlyWithinBoth(b, b, b', 0, n, done, more);
      q, rest, reached := p + outcome.rc, left - outcome.rc, done + outcome.rc;
      if rest > 0 {
        var rc;
        rc, next := Advance(current, p, left, q, rest, good, d, first, count);
        if rc != 0 {
          outcome := Returned(rc);
          return;
        }
      }
      if good {
        ReadingMore(d, bpb, first, count, b, b', o, n, done, p, left, current, more, reached, q, rest, next);
      }
      assert buffer[..] == b';
    }

    /** The loop of fat32_file_inode_read. */
    method ReadChain(start: Cluster, o: nat, n: nat, buffer: array<Byte>, ghost good: bool, ghost d: seq<Byte>,
            ghost first: Cluster, ghost count: nat)
      returns (outcome: Outcome, last: Cluster)
      requires Valid() && device.disk == d && buffer != cache && n <= buffer.Length
      requires good ==> Reading(d, bpb, first, count, buffer[..], o, n, 0, o, n, start)
      modifies this`cachedSector, cache, buffer, device`failures
      ensures Valid() && OnlyWithin(old(buffer[..]), buffer[..], 0, n)
      ensures outcome.Returned? && outcome.rc >= 0 ==>
        && outcome.rc == n
        && (good ==> exists done, p :: Reading(d, bpb, first, count, buffer[..], o, n, done, p, 0, last))
      ensures good && outcome.Returned? && outcome.rc < 0 ==> device.failures > old(device.failures)
      ensures good && outcome.Panicked? ==> !Reaches(o, n, SECTOR_SIZE)
    {
      ghost var b0 := buffer[..];
      var p, left, done := o, n, 0;
      last := start;
      while left > 0
        invariant done + left == n && Valid() && device.disk == d && device.failures == old(device.failures)
        invariant OnlyWithin(b0, buffer[..], 0, n)
        invariant (done == 0 && p == o && left == n) || (left > 0 ==> Within(p, bpb.ClusterSize()) == 0)
        invariant good ==> Reading(d, bpb, first, count, buffer[..], o, n, done, p, left, last)
        decreases left
      {
        ghost var b := buffer[..];
        outcome, last, p, left, done := ReadNext(last, p, left, buffer, done, o, n, good, d, first, count);
        OnlyWithinBoth(b0, b, buffer[..], 0, n, 0, n);
        if outcome.Panicked? || outcome.rc < 0 {
          return;
        }
      }
      outcome := Returned(done);
    }

    /** fat32_file_inode_read: for a chain that is good for as many clusters as the request needs, it
        delivers exactly the bytes of the file, cut at its size. It fails only if the device does, and
        panics only as the device does. */
    method Read(first: Cluster, fileSize: nat, offset: int, buffer: array<Byte>, size: nat, ghost count: nat)
      returns (outcome: Outcome)
      requires Valid() && buffer != cache && size <= buffer.Length && -0x8000_0000_0000_0000 <= offset
      modifies this`cachedSector, cache, buffer, device`failures
      ensures Valid()
      ensures var o := ReadStart(offset, fileSize);
        var n := ReadLength(o, size, fileSize);
        && OnlyWithin(old(buffer[..]), buffer[..], 0, n)
        && (RequestGood(device.disk, bpb, first, count, o, n) ==>
              && (outcome.Returned? && outcome.rc >= 0 ==>
                    outcome.rc == n && Delivered(device.disk, bpb, first, count, buffer[..], o, n))
              && (outcome.Returned? && outcome.rc < 0 ==> device.failures > old(device.failures))
              && (outcome.Panicked? ==> !Reaches(o, n, SECTOR_SIZE)))
    {
      ghost var d := device.disk;
      var o := ReadStart(offset, fileSize);
      var n := ReadLength(o, size, fileSize);
      ghost var good := RequestGood(d, bpb, first, count, o, n);
      var rc, current := StepClusterChain(first, Sector(o, bpb.ClusterSize()));
      if rc != 0 {
        return Returned(rc);
      }
      if good {
        ReadingBegins(d, bpb, first, count, buffer[..], o, n, current);
      }
      outcome, current := ReadChain(current, o, n, buffer, good, d, first, count);
      if good && outcome.Returned? && outcome.rc >= 0 {
        ReadingEnds(d, bpb, first, count, buffer[..], o, n, current);
      }
    }
  }

  // ----- Reading a file -----

  /** min<uint64_t> takes the offset as an unsigned number. */
  function AsUnsigned(offset: int): int {
    if offset < 0 then offset + 0x1_0000_0000_0000_0000 else offset
  }

  function ReadStart(offset: int, fileSize: nat): (o: nat)
    requires -0x8000_0000_0000_0000 <= offset
    ensures o <= fileSize
  {
    if AsUnsigned(offset) < fileSize then AsUnsigned(offset) else fileSize
  }

  function ReadLength(o: nat, size: nat, fileSize: nat): (n: nat)
    requires o <= fileSize
    ensures o + n <= fileSize && n <= size
  {
    if size < fileSize - o then size else fileSize - o
  }

  /** The bytes from p on for n lie in the pieces. */
  ghost predicate Enough(d: seq<Byte>, starts: seq<nat>, size: nat, p: nat, n: nat) {
    size > 0 && PiecesInside(d, starts, size) && p + n <= Position(|starts|, size)
  }

  /** The n bytes of the buffer from at on are those of the file from p on. */
  ghost predicate FileHolds(d: seq<Byte>, starts: seq<nat>, size: nat, b: seq<Byte>, at: nat, p: nat, n: nat) {
    Enough(d, starts, size, p, n) && Holds(b, at, Concat(d, starts, size), p, n)
  }

  /** The piece that starts at start serves position p. */
  ghost predicate Serves(starts: seq<nat>, size: nat, p: nat, start: nat) {
    size > 0 && Sector(p, size) < |starts| && start == starts[Sector(p, size)]
  }

  ghost predicate PieceServed(d: seq<Byte>, starts: seq<nat>, size: nat, p: nat, n: nat, start: nat) {
    Enough(d, starts, size, p, n) && Serves(starts, size, p, start)
  }

  /** What is read from the device is what the file has there. */
  lemma PieceOfFile(d: seq<Byte>, starts: seq<nat>, size: nat, p: nat, n: nat, start: nat, b: seq<Byte>, at: nat)
    requires Enough(d, starts, size, p, n) && Serves(starts, size, p, start) && n > 0
    ensures Take(p, n, size) > 0 && start + Within(p, size) + Take(p, n, size) <= |d|
    ensures Holds(b, at, d, start + Within(p, size), Take(p, n, size)) ==>
        FileHolds(d, starts, size, b, at, p, Take(p, n, size))
  {
    PartOfPiece(d, starts, size, p, Take(p, n, size));
  }

  /** The pieces join. */
  lemma FileHoldsMore(d: seq<Byte>, starts: seq<nat>, size: nat, b: seq<Byte>, b': seq<Byte>, o: nat, done: nat, p: nat,
          more: nat, reached: nat)
    requires p == o + done && reached == done + more
    requires FileHolds(d, starts, size, b, 0, o, done) && OnlyWithin(b, b', done, more)
    requires FileHolds(d, starts, size, b', done, p, more)
    ensures FileHolds(d, starts, size, b', 0, o, reached)
  {
    HoldsMore(b, b', 0, Concat(d, starts, size), o, done, more);
  }

  /** The current cluster is the one of the chain in which position p lies. */
  ghost predicate ChainServes(d: seq<Byte>, bpb: Bpb, first: Cluster, count: nat, p: nat, n: nat, current: Cluster) {
    && bpb.Valid() && ChainGood(d, bpb, first, count) && p + n <= Position(count, bpb.ClusterSize())
    && Sector(p, bpb.ClusterSize()) < count && current == ChainAt(d, bpb, first, Sector(p, bpb.ClusterSize()))
  }

  /** The buffer holds the n bytes of the file from o on. */
  ghost predicate Delivered(d: seq<Byte>, bpb: Bpb, first: Cluster, count: nat, b: seq<Byte>, o: nat, n: nat)
    requires ChainGood(d, bpb, first, count)
  {
    var file := Contents(d, bpb, first, count);
    o + n <= |file| && n <= |b| && b[..n] == file[o..o + n]
  }

  /** The chain is good for as many clusters as the request needs. */
  ghost predicate RequestGood(d: seq<Byte>, bpb: Bpb, first: Cluster, count: nat, o: nat, n: nat) {
    bpb.Valid() && ChainGood(d, bpb, first, count) && o + n <= Position(count, bpb.ClusterSize())
  }

  /** fat32_file_inode_read after done bytes of the request, at position p with some left. */
  ghost predicate Reading(d: seq<Byte>, bpb: Bpb, first: Cluster, count: nat, b: seq<Byte>, o: nat, n: nat, done: nat,
          p: nat, left: nat, current: Cluster) {
    && RequestGood(d, bpb, first, count, o, n) && p == o + done && done + left == n
    && FileHolds(d, Starts(d, bpb, first, count), bpb.ClusterSize(), b, 0, o, done)
    && (left > 0 ==> ChainServes(d, bpb, first, count, p, left, current))
  }

  lemma ReadingBegins(d: seq<Byte>, bpb: Bpb, first: Cluster, count: nat, b: seq<Byte>, o: nat, n: nat,
          current: Cluster)
    requires RequestGood(d, bpb, first, count, o, n) && Stepped(d, bpb, first, Sector(o, bpb.ClusterSize()), current)
    ensures Reading(d, bpb, first, count, b, o, n, 0, o, n, current)
  {
    ConcatLength(d, Starts(d, bpb, first, count), bpb.ClusterSize());
    if n > 0 {
      FirstServes(d, bpb, first, count, o, n, current);
    }
  }

  /** The current cluster is where the next piece lies. */
  lemma CurrentServes(d: seq<Byte>, bpb: Bpb, first: Cluster, count: nat, b: seq<Byte>, o: nat, n: nat, done: nat,
          p: nat, left: nat, current: Cluster)
    requires Reading(d, bpb, first, count, b, o, n, done, p, left, current) && left > 0
    ensures PieceServed(d, Starts(d, bpb, first, count), bpb.ClusterSize(), p, left, ClusterStart(bpb, current))
    ensures ChainServes(d, bpb, first, count, p, left, current)
  {
  }

  lemma ReadingMore(d: seq<Byte>, bpb: Bpb, first: Cluster, count: nat, b: seq<Byte>, b': seq<Byte>, o: nat, n: nat,
          done: nat, p: nat, left: nat, current: Cluster, more: nat, reached: nat, q: nat, rest: nat, next: Cluster)
    requires reached == done + more && q == p + more && rest == left - more
    requires Reading(d, bpb, first, count, b, o, n, done, p, left, current) && OnlyWithin(b, b', done, more)
    requires FileHolds(d, Starts(d, bpb, first, count), bpb.ClusterSize(), b', done, p, more)
    requires rest > 0 ==> ChainServes(d, bpb, first, count, q, rest, next)
    ensures Reading(d, bpb, first, count, b', o, n, reached, q, rest, next)
  {
    FileHoldsMore(d, Starts(d, bpb, first, count), bpb.ClusterSize(), b, b', o, done, p, more, reached);
  }

  lemma ReadingEnds(d: seq<Byte>, bpb: Bpb, first: Cluster, count: nat, b: seq<Byte>, o: nat, n: nat, current: Cluster)
    requires exists done, p :: Reading(d, bpb, first, count, b, o, n, done, p, 0, current)
    ensures Delivered(d, bpb, first, count, b, o, n)
  {
    HoldsSlice(b, 0, Contents(d, bpb, first, count), o, n);
  }

  lemma FirstServes(d: seq<Byte>, bpb: Bpb, first: Cluster, count: nat, o: nat, n: nat, current: Cluster)
    requires bpb.Valid() && ChainGood(d, bpb, first, count) && o + n <= Position(count, bpb.ClusterSize()) && n > 0
    requires Stepped(d, bpb, first, Sector(o, bpb.ClusterSize()), current)
    ensures Sector(o, bpb.ClusterSize()) < count && current == ChainAt(d, bpb, first, Sector(o, bpb.ClusterSize()))
  {
    PositionInside(o, count, bpb.ClusterSize());
    assert EndsAfter(d, bpb, first, Sector(o, bpb.ClusterSize()), Sector(o, bpb.ClusterSize()));
  }

  /** When a piece ends before the request does, the next cluster of the chain takes over at its start. */
  lemma NextServes(d: seq<Byte>, bpb: Bpb, first: Cluster, count: nat, p: nat, n: nat, current: Cluster, next: Cluster)
    requires bpb.Valid() && ChainGood(d, bpb, first, count) && p + n <= Position(count, bpb.ClusterSize())
    requires Take(p, n, bpb.ClusterSize()) < n
    requires Sector(p, bpb.ClusterSize()) < count && current == ChainAt(d, bpb, first, Sector(p, bpb.ClusterSize()))
    requires SectorInside(d, FatSector(bpb, current)) ==> next == EntryOnDevice(d, bpb, current)
    ensures var q := p + Take(p, n, bpb.ClusterSize());
      && Sector(q, bpb.ClusterSize()) < count && next == ChainAt(d, bpb, first, Sector(q, bpb.ClusterSize()))
      && Within(q, bpb.ClusterSize()) == 0 && IsValidCluster(next)
  {
    var size := bpb.ClusterSize();
    NextSector(p, size);
    PositionInside(p + Take(p, n, size), count, size);
  }

  lemma {:induction false} SectorOfCluster(p: nat, secPerClus: nat)
    requires secPerClus > 0
    ensures Within(Within(p, SECTOR_SIZE * secPerClus), SECTOR_SIZE) == Within(p, SECTOR_SIZE)
  {
    var size := SECTOR_SIZE * secPerClus;
    if p >= size {
      SectorOfCluster(p - size, secPerClus);
      DivisionBySectors(p, SECTOR_SIZE);
      DivisionBySectors(p - size, SECTOR_SIZE);
    }
  }

  lemma AddSectors(sectors: nat, off: nat)
    ensures Within(SECTOR_SIZE * sectors + off, SECTOR_SIZE) == Within(off, SECTOR_SIZE)
  {
    DivisionBySectors(off, SECTOR_SIZE);
    DivisionBySectors(SECTOR_SIZE * sectors + off, SECTOR_SIZE);
  }

  lemma {:induction false} RestOfCluster(off: nat, secPerClus: nat)
    requires off < SECTOR_SIZE * secPerClus
    ensures Within(off, SECTOR_SIZE) + SECTOR_SIZE * secPerClus - off >= SECTOR_SIZE
  {
    if off >= SECTOR_SIZE {
      RestOfCluster(off - SECTOR_SIZE, secPerClus - 1);
    }
  }

  /** Only a request that ends in the sector it starts in makes the device panic. */
  lemma PanicCause(sectors: nat, secPerClus: nat, p: nat, n: nat)
    requires secPerClus > 0
    requires var size := SECTOR_SIZE * secPerClus;
      !Reaches(SECTOR_SIZE * sectors + Within(p, size), Take(p, n, size), SECTOR_SIZE)
    ensures !Reaches(p, n, SECTOR_SIZE) && Within(p, SECTOR_SIZE * secPerClus) != 0
  {
    var off := Within(p, SECTOR_SIZE * secPerClus);
    AddSectors(sectors, off);
    SectorOfCluster(p, secPerClus);
    RestOfCluster(off, secPerClus);
  }

  /** The chain can be followed for that many steps: its clusters are valid, but for the first, which is
      not looked at, and so is what the FAT says of them. */
  ghost predicate Followable(d: seq<Byte>, bpb: Bpb, first: Cluster, steps: nat) {
    forall k :: 0 <= k < steps ==>
      var c := ChainAt(d, bpb, first, k);
      SectorInside(d, FatSector(bpb, c)) && (k > 0 ==> IsValidCluster(c))
  }

  /** After i steps. */
  ghost predicate OnChain(d: seq<Byte>, bpb: Bpb, first: Cluster, i: nat, current: Cluster) {
    Followable(d, bpb, first, i) ==> current == ChainAt(d, bpb, first, i)
  }

  lemma OneStep(d: seq<Byte>, bpb: Bpb, first: Cluster, i: nat, c: Cluster, next: Cluster)
    requires OnChain(d, bpb, first, i, c)
    requires SectorInside(d, FatSector(bpb, c)) ==> next == EntryOnDevice(d, bpb, c)
    ensures OnChain(d, bpb, first, i + 1, next)
  {
    if Followable(d, bpb, first, i + 1) {
      assert c == ChainAt(d, bpb, first, i);
    }
  }

  /** The chain ends after i steps of so many, or the steps do. */
  ghost predicate EndsAfter(d: seq<Byte>, bpb: Bpb, first: Cluster, steps: nat, i: nat) {
    i <= steps && Followable(d, bpb, first, i) && (i == steps || (i > 0 && !IsValidCluster(ChainAt(d, bpb, first, i))))
  }

  /** The cluster after so many steps, or what ends the chain if that comes before. */
  ghost predicate Stepped(d: seq<Byte>, bpb: Bpb, first: Cluster, steps: nat, current: Cluster) {
    forall i: nat :: EndsAfter(d, bpb, first, steps, i) ==> current == ChainAt(d, bpb, first, i)
  }

  lemma StillFollowable(d: seq<Byte>, bpb: Bpb, first: Cluster, k: nat, i: nat)
    requires Followable(d, bpb, first, k) && i < k
    ensures Followable(d, bpb, first, i) && (i > 0 ==> IsValidCluster(ChainAt(d, bpb, first, i)))
  {
  }

  /** The steps have come to an end, at an invalid cluster or because there are no more. */
  lemma ChainEnds(d: seq<Byte>, bpb: Bpb, first: Cluster, i: nat, steps: nat, current: Cluster)
    requires OnChain(d, bpb, first, i, current) && i <= steps
    requires forall j :: 0 < j < i && Followable(d, bpb, first, j) ==> IsValidCluster(ChainAt(d, bpb, first, j))
    requires i == steps || (i > 0 && !IsValidCluster(current))
    ensures Stepped(d, bpb, first, steps, current)
  {
    forall k: nat | EndsAfter(d, bpb, first, steps, k)
      ensures current == ChainAt(d, bpb, first, k)
    {
      assert k >= i;
      if k > i {
        StillFollowable(d, bpb, first, k, i);
      }
    }
  }

  /** A request for a whole sector is aligned, and gets all of it or nothing. */
  lemma AlignedRequest(total: nat, sector: nat)
    requires Within(total, SECTOR_SIZE) == 0
    ensures var o, n := Start(total, SECTOR_SIZE * sector), Length(total, SECTOR_SIZE * sector, SECTOR_SIZE);
      && Reaches(o, n, SECTOR_SIZE)
      && (SECTOR_SIZE * sector + SECTOR_SIZE <= total ==> o == SECTOR_SIZE * sector && n == SECTOR_SIZE)
      && (SECTOR_SIZE * sector + SECTOR_SIZE > total ==> n == 0)
  {
    DivisionBySectors(total, SECTOR_SIZE);
    DivisionBySectors(SECTOR_SIZE * sector, SECTOR_SIZE);
  }
}
