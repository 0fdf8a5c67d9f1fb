/**
  Entries of a z/Architecture DAT table and the geometry of the five table levels.

  Physical storage is counted in 4 KiB frames: every table and every mapped frame is page
  aligned, so the low twelve bits of its address are zero.
 */
module DatWord {

  /** region_1 = 0, region_2 = 1, region_3 = 2, segment = 3, page = 4 */
  type Level = l: int | 0 <= l <= 4

  const REGION_3: Level := 2
  const SEGMENT: Level := 3
  const PAGE: Level := 4

  function Entries(l: Level): (n: nat)
    ensures n > 0
  {
    if l == PAGE then 256 else 2048
  }

  /** Pages mapped by one entry of a table at level l. */
  function Span(l: Level): (s: nat)
    ensures s > 0
  {
    if l == 0 then 0x200_0000_0000
    else if l == 1 then 0x4000_0000
    else if l == 2 then 0x8_0000
    else if l == 3 then 0x100
    else 1
  }

  /** page_prot: only the protection and no-execute bits are ever set by its callers. */
  datatype Prot = Prot(protect: bool, noexec: bool)

  /**
    One 64-bit table entry as its bit fields: the origin (bits 0-51), bit 0x400 (page-invalid in
    a page table, format control elsewhere), bits 0x200 and 0x100 (protection and no-execute),
    bit 0x20 (invalid above page level), the table type and the table length.
   */
  datatype Word = Word(origin: nat, bit400: bool, prot: Prot, bit20: bool, tt: nat, tl: nat)

  const NO_PROT := Prot(false, false)

  function TypeCode(l: Level): nat
    requires l < PAGE
  {
    3 - l
  }

  /** PTE_EMPTY and rste_empty_rt */
  function EmptyWord(l: Level): Word {
    if l == PAGE then Word(0, true, NO_PROT, false, 0, 0)
    else Word(0, false, NO_PROT, true, TypeCode(l), 0)
  }

  /** rste_make_rt */
  function LinkWord(l: Level, child: nat): Word
    requires l < PAGE
  {
    Word(child, false, NO_PROT, false, TypeCode(l), 3)
  }

  /** pte_make, seg_large_make and r3_large_make */
  function LeafWord(l: Level, frame: nat, prot: Prot): (w: Word)
    requires REGION_3 <= l
    ensures IsLeaf(l, w)
    ensures frame % Span(l) == 0 ==> LeafBase(l, w) == frame
  {
    if l == PAGE then Word(frame, false, prot, false, 0, 0)
    else Word(frame - frame % Span(l), true, prot, false, TypeCode(l), 0)
  }

  /** rste_is_invalid and pte_is_invalid */
  predicate IsInvalid(l: Level, w: Word) {
    if l == PAGE then w.bit400 else w.bit20
  }

  /** seg_is_large and r3_is_large; a valid page-table entry always maps its frame directly */
  predicate IsLeaf(l: Level, w: Word) {
    !IsInvalid(l, w) && (l == PAGE || ((l == SEGMENT || l == REGION_3) && w.bit400))
  }

  predicate IsLink(l: Level, w: Word) {
    l < PAGE && !IsInvalid(l, w) && !IsLeaf(l, w)
  }

  /** First frame of the block a leaf maps (pte_frame, SEG_LARGE_ORIGIN, R3_LARGE_ORIGIN). */
  function LeafBase(l: Level, w: Word): (b: nat)
    ensures REGION_3 <= l ==> b % Span(l) == 0
  {
    if l == PAGE then w.origin else w.origin - w.origin % Span(l)
  }

  /** The table index of an address at every level. */
  type Way = w: seq<nat> | |w| == 5 && forall l | 0 <= l < 5 :: w[l] < Entries(l) witness [0, 0, 0, 0, 0]
}
