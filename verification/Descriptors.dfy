/** kernel/arch/arm/armv6mmu.h: the short-descriptor translation table entries (ARM DDI 0406,
    section B3.5), as 32-bit words. Shifts and masks of unsigned words are written as division and
    remainder by powers of two. */
module Descriptors {
  import opened Basics

  type Word = w: int | 0 <= w < 0x1_0000_0000

  datatype Permissions = Unmapped | PriviledgedOnly | UserReadOnly | UserFullAccess

  function PermissionBits(p: Permissions): (b: int)
    ensures 0 <= b < 4
  {
    match p case Unmapped => 0 case PriviledgedOnly => 1 case UserReadOnly => 2 case UserFullAccess => 3
  }

  function PermissionsOf(bits: int): Permissions
    requires 0 <= bits < 4
  {
    if bits == 0 then Unmapped else if bits == 1 then PriviledgedOnly else if bits == 2 then UserReadOnly
        else UserFullAccess
  }

  /** A virtual address is a first-level index, a second-level index and a page offset. */
  function Lvl1Index(virt: Word): (i: int)
    ensures 0 <= i < 4096
  {
    virt / 0x10_0000
  }

  function Lvl2Index(virt: Word): (i: int)
    ensures 0 <= i < 256
  {
    virt / 0x1000 % 0x100
  }

  lemma IndicesSplitAddress(virt: Word)
    ensures virt == 0x10_0000 * Lvl1Index(virt) + 0x1000 * Lvl2Index(virt) + virt % 0x1000
    ensures virt / 0x1000 == 256 * Lvl1Index(virt) + Lvl2Index(virt)
    ensures virt % 0x10_0000 == 0x1000 * Lvl2Index(virt) + virt % 0x1000
  {
    assert virt / 0x10_0000 == virt / 0x1000 / 0x100;
  }

  // ----- Fields -----

  function Identifier(w: Word): int {
    w % 4
  }

  function CoarseBase(w: Word): int {
    w / 0x400 * 0x400
  }

  function SectionBase(w: Word): int {
    w / 0x10_0000 * 0x10_0000
  }

  function SmallPageBase(w: Word): int {
    w / 0x1000 * 0x1000
  }

  function SmallPagePermissions(w: Word): Permissions {
    PermissionsOf(w / 0x10 % 4)
  }

  const COARSE_PAGE_TABLE_ENTRY_ID := 1
  const SECTION_ENTRY_ID := 2
  const SMALL_PAGE_ENTRY_ID := 2

  function MakeCoarse(address: Word): Word {
    COARSE_PAGE_TABLE_ENTRY_ID + 0x400 * (address / 0x400 % 0x40_0000)
  }

  function MakeSection(address: Word, p: Permissions): Word {
    SECTION_ENTRY_ID + 0x400 * PermissionBits(p) + 0x10_0000 * (address / 0x10_0000 % 0x1000)
  }

  function MakeSmallPage(address: Word, p: Permissions): Word {
    SMALL_PAGE_ENTRY_ID + 0x10 * PermissionBits(p) + 0x1000 * (address / 0x1000 % 0x10_0000)
  }

  // ----- Entries as the rest of the kernel uses them -----

  /** A first-level entry: empty, a 1 MB section or a second-level table. */
  datatype Entry1 = Empty | Section(base: int, permissions: Permissions) | Coarse(base: int)

  /** A second-level entry: empty or a 4 KB page. */
  datatype Entry2 = Absent | SmallPage(base: int, permissions: Permissions)

  predicate Aligned1(e: Entry1) {
    match e
    case Empty => true
    case Section(base, _) => 0 <= base < 0x1_0000_0000 && base % 0x10_0000 == 0
    case Coarse(base) => 0 <= base < 0x1_0000_0000 && base % 0x400 == 0
  }

  predicate Aligned2(e: Entry2) {
    e.SmallPage? ==> 0 <= e.base < 0x1_0000_0000 && e.base % 0x1000 == 0
  }

  function Encode1(e: Entry1): Word
    requires Aligned1(e)
  {
    match e
    case Empty => 0
    case Section(base, p) => MakeSection(base, p)
    case Coarse(base) => MakeCoarse(base)
  }

  function Encode2(e: Entry2): Word
    requires Aligned2(e)
  {
    match e case Absent => 0 case SmallPage(base, p) => MakeSmallPage(base, p)
  }

  /** How the kernel reads a first-level word back: by its identifier. */
  function Decode1(w: Word): Option<Entry1> {
    if w == 0 then Some(Empty)
    else if Identifier(w) == SECTION_ENTRY_ID then Some(Section(SectionBase(w), PermissionsOf(w / 0x400 % 4)))
    else if Identifier(w) == COARSE_PAGE_TABLE_ENTRY_ID then Some(Coarse(CoarseBase(w)))
    else None
  }

  function Decode2(w: Word): Entry2 {
    if w == 0 then Absent else SmallPage(SmallPageBase(w), SmallPagePermissions(w))
  }

  lemma Quarters(q: int, r: int)
    requires 0 <= r < 4
    ensures (4 * q + r) % 4 == r
  {
  }

  lemma SmallPageFields(bits: int, high: int)
    requires 0 <= bits < 4
    ensures var w := 2 + 0x10 * bits + 0x1000 * high;
      w / 0x1000 == high && w % 4 == 2 && w / 0x10 % 4 == bits
  {
    SixteensQuotient(bits + 0x100 * high, 2);
    Quarters(0x40 * high, bits);
    Quarters(4 * bits + 0x400 * high, 2);
    PagesQuotient(high, 2 + 0x10 * bits);
  }

  lemma SixteensQuotient(q: int, r: int)
    requires 0 <= r < 0x10
    ensures (0x10 * q + r) / 0x10 == q
  {
  }

  lemma PagesQuotient(q: int, r: int)
    requires 0 <= r < 0x1000
    ensures (0x1000 * q + r) / 0x1000 == q
  {
  }

  lemma SectionFields(bits: int, high: int)
    requires 0 <= bits < 4
    ensures var w := 2 + 0x400 * bits + 0x10_0000 * high;
      w / 0x10_0000 == high && w % 4 == 2 && w / 0x400 % 4 == bits
  {
    KilobytesQuotient(bits + 0x400 * high, 2);
    Quarters(0x100 * high, bits);
    Quarters(0x100 * bits + 0x4_0000 * high, 2);
    MegabytesQuotient(high, 2 + 0x400 * bits);
  }

  lemma KilobytesQuotient(q: int, r: int)
    requires 0 <= r < 0x400
    ensures (0x400 * q + r) / 0x400 == q
  {
  }

  lemma MegabytesQuotient(q: int, r: int)
    requires 0 <= r < 0x10_0000
    ensures (0x10_0000 * q + r) / 0x10_0000 == q
  {
  }

  lemma SectionRoundTrip(base: int, p: Permissions)
    requires Aligned1(Section(base, p))
    ensures Decode1(MakeSection(base, p)) == Some(Section(base, p)) && MakeSection(base, p) != 0
  {
    SectionFields(PermissionBits(p), base / 0x10_0000);
    assert base / 0x10_0000 % 0x1000 == base / 0x10_0000;
  }

  lemma CoarseRoundTrip(base: int)
    requires Aligned1(Coarse(base))
    ensures Decode1(MakeCoarse(base)) == Some(Coarse(base)) && MakeCoarse(base) != 0
  {
    assert base / 0x400 % 0x40_0000 == base / 0x400;
    assert MakeCoarse(base) == 1 + base;
  }

  /** Every entry is read back from its word exactly as it was made, and only the empty entry is the
      zero word that marks an unused slot. */
  lemma FirstLevelRoundTrip(e: Entry1)
    requires Aligned1(e)
    ensures Decode1(Encode1(e)) == Some(e)
    ensures Encode1(e) == 0 <==> e == Empty
  {
    match e {
      case Empty =>
      case Section(base, p) => SectionRoundTrip(base, p);
      case Coarse(base) => CoarseRoundTrip(base);
    }
  }

  lemma SecondLevelRoundTrip(e: Entry2)
    requires Aligned2(e)
    ensures Decode2(Encode2(e)) == e
    ensures Encode2(e) == 0 <==> e == Absent
    ensures e.SmallPage? ==> Identifier(Encode2(e)) == SMALL_PAGE_ENTRY_ID
  {
    if e.SmallPage? {
      SmallPageFields(PermissionBits(e.permissions), e.base / 0x1000);
      assert e.base / 0x1000 % 0x10_0000 == e.base / 0x1000;
    }
  }

  /** Joining an aligned base and an offset with a bitwise or, as virt2phys does for pages and for
      sections, adds them. */
  lemma OrJoinsOffset(base: bv32, offset: bv32)
    ensures base & 0xfff == 0 && offset & 0xffff_f000 == 0 ==> base | offset == base + offset
    ensures base & 0xf_ffff == 0 && offset & 0xfff0_0000 == 0 ==> base | offset == base + offset
  {
    if base & offset == 0 {
      assert base | offset == base + offset;
    }
  }
}
