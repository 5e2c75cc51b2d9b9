/** Stage-2 modes and their aarch64 encoding: 64-bit descriptors are an aligned address, attribute
    bits and type bits side by side (section D5.3 of Arm DDI 0487), and every bit-level operation of
    `mm.c` agrees with the abstract descriptors the page-table engine works on. */
module Encoding {
  import opened Common
  import opened Geometry
  import opened Entries
  import opened Footprint
  import opened Layout
  import opened Passes
  import opened Words

  // ---- Modes ---------------------------------------------------------------------------------

  /** The arch-independent mapping modes. */
  datatype Mode = Mode(r: bool, w: bool, x: bool, d: bool, invalid: bool, unowned: bool, shared: bool)

  function ToAttrs(m: Mode): Attrs {
    Attrs(m.r, m.w, m.x, m.invalid, m.unowned, m.shared)
  }

  /** An all-zero descriptor reads back as executable but invalid, unowned and shared. */
  function FromRaw(raw: Raw): Mode {
    match raw
    case None => Mode(false, false, true, false, true, true, true)
    case Some(a) => Mode(a.r, a.w, a.x, false, a.invalid, a.unowned, a.shared)
  }

  // ---- Bits ----------------------------------------------------------------------------------

  // Bit 0: valid. Bit 1: table above level 0, page at level 0. Bits 2-5: memory attributes.
  // Bits 6, 7: read and write access. Bit 10: access flag. Bits 12-47: address.
  // Bits 53, 54: execute never. Bits 55, 56: software bits owned and exclusive.

  function Bit(b: bool, mask: bv64): bv64 {
    if b then mask else 0
  }

  /** `arch_mm_mode_to_stage2_attrs` */
  function AttrBits(a: Attrs): bv64 {
    0x400 | Bit(a.r, 0x40) | Bit(a.w, 0x80) | Bit(!a.x, 0x0040_0000_0000_0000) | 0x3C
    | Bit(!a.unowned, 0x0080_0000_0000_0000) | Bit(!a.shared, 0x0100_0000_0000_0000) | Bit(!a.invalid, 0x1)
  }

  /** `arch_mm_stage2_attrs_to_mode` */
  function ModeOfBits(b: bv64): Mode {
    Mode(b & 0x40 != 0, b & 0x80 != 0, b & 0x0060_0000_0000_0000 == 0, false,
         b & 0x1 == 0, b & 0x0080_0000_0000_0000 == 0, b & 0x0100_0000_0000_0000 == 0)
  }

  /** Converting a mode to attribute bits and back loses only the device flag. */
  lemma ModeRoundTrip(m: Mode)
    ensures ModeOfBits(AttrBits(ToAttrs(m))) == m.(d := false)
    ensures ModeOfBits(AttrBits(ToAttrs(m))) == FromRaw(Some(ToAttrs(m)))
    ensures ModeOfBits(0) == FromRaw(None)
  {
  }

  /** Different attributes have different bits, so comparing bits compares attributes, and the bits
      never collide with the all-zero descriptor, the address or the type bit. */
  lemma AttrBitsInjective(a: Attrs, b: Attrs)
    ensures AttrBits(a) == AttrBits(b) ==> a == b
    ensures AttrBits(a) != 0 && AttrBits(a) & 0xFFFF_0000_0000_0FFD == AttrBits(a)
  {
    ModeRoundTrip(FromRaw(Some(a)));
    ModeRoundTrip(FromRaw(Some(b)));
    assert ToAttrs(FromRaw(Some(a))) == a && ToAttrs(FromRaw(Some(b))) == b;
    assert AttrBits(a) & 0x400 != 0;
  }

  // ---- Descriptors ---------------------------------------------------------------------------

  /** `arch_mm_block_pte` */
  function BlockBits(level: nat, pa: bv64, attrs: bv64): bv64 {
    if level == 0 then pa | attrs | 0x2 else pa | attrs
  }

  /** `arch_mm_table_pte` */
  function TableBits(pa: bv64): bv64 {
    pa | 0x2 | 0x1
  }

  predicate BitsValid(pte: bv64) {
    pte & 0x1 != 0
  }

  predicate BitsPresent(pte: bv64) {
    BitsValid(pte) || pte & 0x0080_0000_0000_0000 != 0
  }

  predicate BitsTable(pte: bv64, level: nat) {
    level != 0 && BitsValid(pte) && pte & 0x2 != 0
  }

  predicate BitsBlock(pte: bv64, level: nat) {
    BlockAllowed(level) && if level == 0 then pte & 0x2 != 0 else BitsPresent(pte) && !BitsTable(pte, level)
  }

  /** A leaf descriptor is classified, and its address and attributes read back, as the abstract leaf
      says, at every level. */
  lemma LeafBits(level: nat, pa: bv64, a: Attrs)
    requires pa & 0x0000_FFFF_FFFF_F000 == pa
    ensures var pte := BlockBits(level, pa, AttrBits(a));
            && BitsValid(pte) == Valid(a) && BitsPresent(pte) == Present(a) && !BitsTable(pte, level)
            && BitsBlock(pte, level) == IsBlock(Leaf(Some(a)), level)
            && pte & 0x0000_FFFF_FFFF_F000 == pa && pte & 0xFFFF_0000_0000_0FFD == AttrBits(a)
  {
    var attrs := AttrBits(a);
    AttrBitsInjective(a, a);
    assert attrs & 0x1 != 0 <==> Valid(a);
    assert attrs & 0x0080_0000_0000_0000 != 0 <==> !a.unowned;
    LeafFlags(level, pa, attrs);
    LeafAddress(level, pa, attrs);
    LeafAttrs(level, pa, attrs);
  }

  lemma LeafFlags(level: nat, pa: bv64, attrs: bv64)
    requires pa & 0x0000_FFFF_FFFF_F000 == pa && attrs & 0xFFFF_0000_0000_0FFD == attrs
    ensures BlockBits(level, pa, attrs) & 0x1 == attrs & 0x1
    ensures BlockBits(level, pa, attrs) & 0x0080_0000_0000_0000 == attrs & 0x0080_0000_0000_0000
    ensures BlockBits(level, pa, attrs) & 0x2 == if level == 0 then 0x2 else 0
  {
    if level == 0 { PageFlags(pa, attrs); } else { BlockFlags(pa, attrs); }
  }

  lemma LeafAddress(level: nat, pa: bv64, attrs: bv64)
    requires pa & 0x0000_FFFF_FFFF_F000 == pa && attrs & 0xFFFF_0000_0000_0FFD == attrs
    ensures BlockBits(level, pa, attrs) & 0x0000_FFFF_FFFF_F000 == pa
  {
    if level == 0 { PageAddress(pa, attrs); } else { BlockAddress(pa, attrs); }
  }

  lemma LeafAttrs(level: nat, pa: bv64, attrs: bv64)
    requires pa & 0x0000_FFFF_FFFF_F000 == pa && attrs & 0xFFFF_0000_0000_0FFD == attrs
    ensures BlockBits(level, pa, attrs) & 0xFFFF_0000_0000_0FFD == attrs
  {
    if level == 0 { PageAttrs(pa, attrs); } else { BlockAttrs(pa, attrs); }
  }

  lemma PageFlags(pa: bv64, attrs: bv64)
    requires pa & 0x0000_FFFF_FFFF_F000 == pa && attrs & 0xFFFF_0000_0000_0FFD == attrs
    ensures (pa | attrs | 0x2) & 0x1 == attrs & 0x1
    ensures (pa | attrs | 0x2) & 0x0080_0000_0000_0000 == attrs & 0x0080_0000_0000_0000
    ensures (pa | attrs | 0x2) & 0x2 == 0x2
  {
  }

  lemma PageAddress(pa: bv64, attrs: bv64)
    requires pa & 0x0000_FFFF_FFFF_F000 == pa && attrs & 0xFFFF_0000_0000_0FFD == attrs
    ensures (pa | attrs | 0x2) & 0x0000_FFFF_FFFF_F000 == pa
  {
  }

  lemma PageAttrs(pa: bv64, attrs: bv64)
    requires pa & 0x0000_FFFF_FFFF_F000 == pa && attrs & 0xFFFF_0000_0000_0FFD == attrs
    ensures (pa | attrs | 0x2) & 0xFFFF_0000_0000_0FFD == attrs
  {
  }

  lemma BlockFlags(pa: bv64, attrs: bv64)
    requires pa & 0x0000_FFFF_FFFF_F000 == pa && attrs & 0xFFFF_0000_0000_0FFD == attrs
    ensures (pa | attrs) & 0x1 == attrs & 0x1
    ensures (pa | attrs) & 0x0080_0000_0000_0000 == attrs & 0x0080_0000_0000_0000
    ensures (pa | attrs) & 0x2 == 0
  {
  }

  lemma BlockAddress(pa: bv64, attrs: bv64)
    requires pa & 0x0000_FFFF_FFFF_F000 == pa && attrs & 0xFFFF_0000_0000_0FFD == attrs
    ensures (pa | attrs) & 0x0000_FFFF_FFFF_F000 == pa
  {
  }

  lemma BlockAttrs(pa: bv64, attrs: bv64)
    requires pa & 0x0000_FFFF_FFFF_F000 == pa && attrs & 0xFFFF_0000_0000_0FFD == attrs
    ensures (pa | attrs) & 0xFFFF_0000_0000_0FFD == attrs
  {
  }

  /** A table descriptor is present and a table above level 0, and carries no attributes that would
      change the block a table is merged into. */
  lemma TableFields(level: nat, pa: bv64, attrs: bv64)
    requires pa & 0x0000_FFFF_FFFF_F000 == pa && level > 0
    ensures BitsTable(TableBits(pa), level) && BitsPresent(TableBits(pa)) && !BitsBlock(TableBits(pa), level)
    ensures TableBits(pa) & 0x0000_FFFF_FFFF_F000 == pa
    ensures CombineAttrs(TableBits(pa) & 0xFFFF_0000_0000_0FFD, attrs) == attrs
  {
    assert TableBits(pa) & 0x1 != 0 && TableBits(pa) & 0x2 != 0;
    assert TableBits(pa) & 0xFFFF_0000_0000_0FFD == 0x1;
    assert TableBits(pa) & 0x0000_FFFF_FFFF_F000 == pa;
  }

  /** `arch_mm_combine_table_entry_attrs` */
  function CombineAttrs(tableAttrs: bv64, blockAttrs: bv64): bv64 {
    var b1 := if tableAttrs & 0x8000_0000_0000_0000 != 0 then blockAttrs | 0x20 else blockAttrs;
    var b2 := if tableAttrs & 0x4000_0000_0000_0000 != 0 then b1 | 0x80 else b1;
    var b3 := if tableAttrs & 0x2000_0000_0000_0000 != 0 then b2 & !0x40 else b2;
    var b4 := if tableAttrs & 0x1000_0000_0000_0000 != 0 then b3 | 0x0040_0000_0000_0000 else b3;
    if tableAttrs & 0x0800_0000_0000_0000 != 0 then b4 | 0x0020_0000_0000_0000 else b4
  }

  /** Splitting adds each child's offset to the raw parent descriptor. Because the block is aligned
      the addition carries nowhere: child `i` gets exactly address `pa + offset` and the parent's
      attributes. `span` masks the addresses below the block, `0x1F_FFFF` for a level-1 block. */
  lemma SplitNoCarry(below: nat, pa: bv64, attrs: bv64, span: bv64, offset: bv64, parent: bv64)
    requires InField(pa) && Clear(pa, span) && InField(offset) && Only(offset, span)
    requires AttrsOf(attrs) == attrs && parent == BlockBits(below + 1, pa, attrs)
    ensures BlockBits(below, Add(parent, offset), attrs) == BlockBits(below, Add(pa, offset), attrs)
  {
    hide BlockBits, Add, InField, Clear, Only, AttrsOf, Or, Join;
    AboveBits(below, pa, attrs, parent);
    SplitSum(pa, attrs, offset, span, parent);
    SumIsOr(pa, offset, span);
    SplitCases(below, pa, attrs, offset, Add(parent, offset), Add(pa, offset));
  }

  /** Addition of machine words. */
  function Add(x: bv64, y: bv64): bv64 {
    x + y
  }

  function Join(pa: bv64, attrs: bv64, offset: bv64): bv64 {
    pa | attrs | offset
  }

  predicate InField(w: bv64) {
    w & 0x0000_FFFF_FFFF_F000 == w
  }

  /** The address field, `arch_mm_block_from_pte` */
  function AddressOf(bits: bv64): bv64 {
    bits & 0x0000_FFFF_FFFF_F000
  }

  /** The attribute bits, `arch_mm_pte_attrs` */
  function AttrsOf(bits: bv64): bv64 {
    bits & 0xFFFF_0000_0000_0FFD
  }

  lemma SumIsOr(b: bv64, off: bv64, span: bv64)
    requires InField(b) && Clear(b, span) && InField(off) && Only(off, span)
    ensures Add(b, off) == Or(b, off) && Clear(b, off) && InField(Add(b, off))
  {
    SplitAddress(b, off, span);
    DisjointOffset(b, off, span);
  }

  /** The child's address is the block's plus the offset, and fits the address field. */
  lemma SplitAddress(pa: bv64, offset: bv64, span: bv64)
    requires pa & 0x0000_FFFF_FFFF_F000 == pa && pa & span == 0
    requires offset & span == offset && offset & 0x0000_FFFF_FFFF_F000 == offset
    ensures pa + offset == pa | offset
    ensures (pa + offset) & 0x0000_FFFF_FFFF_F000 == pa + offset
  {
    DisjointOffset(pa, offset, span);
    NoCarry(pa, offset);
    KeepsAddress(pa, offset, pa + offset);
  }

  lemma AboveBits(below: nat, pa: bv64, attrs: bv64, parent: bv64)
    requires parent == BlockBits(below + 1, pa, attrs)
    ensures parent == Or(pa, attrs)
  {
  }

  lemma SplitSum(pa: bv64, attrs: bv64, offset: bv64, span: bv64, parent: bv64)
    requires InField(pa) && Clear(pa, span) && InField(offset) && Only(offset, span)
    requires AttrsOf(attrs) == attrs && parent == Or(pa, attrs)
    ensures Add(parent, offset) == Join(pa, attrs, offset)
  {
    DisjointFields(pa, attrs, offset, span, parent);
    NoCarry(parent, offset);
  }

  lemma SplitCases(below: nat, pa: bv64, attrs: bv64, offset: bv64, x: bv64, y: bv64)
    requires x == Join(pa, attrs, offset) && y == Or(pa, offset)
    ensures BlockBits(below, x, attrs) == BlockBits(below, y, attrs)
  {
    hide BlockBits;
    SplitFields(below, pa, attrs, offset, x, y);
  }

  lemma SplitFields(below: nat, pa: bv64, attrs: bv64, offset: bv64, x: bv64, y: bv64)
    requires x == pa | attrs | offset && y == pa | offset
    ensures BlockBits(below, x, attrs) == BlockBits(below, y, attrs)
  {
    Regroup(pa, attrs, offset, x, y);
  }

  lemma AttrsField(a: Attrs)
    ensures AttrsOf(AttrBits(a)) == AttrBits(a)
  {
    hide AttrBits;
    AttrBitsInjective(a, a);
  }

  lemma KeepsAddress(pa: bv64, offset: bv64, sum: bv64)
    requires pa & 0x0000_FFFF_FFFF_F000 == pa && offset & 0x0000_FFFF_FFFF_F000 == offset && sum == pa | offset
    ensures sum & 0x0000_FFFF_FFFF_F000 == sum
  {
  }

  lemma NoCarry(x: bv64, y: bv64)
    requires x & y == 0
    ensures x + y == x | y
  {
  }

  lemma DisjointOffset(pa: bv64, offset: bv64, span: bv64)
    requires pa & span == 0 && offset & span == offset
    ensures pa & offset == 0
  {
  }

  lemma DisjointFields(pa: bv64, attrs: bv64, offset: bv64, span: bv64, parent: bv64)
    requires pa & span == 0 && offset & span == offset && offset & 0x0000_FFFF_FFFF_F000 == offset
    requires attrs & 0xFFFF_0000_0000_0FFD == attrs && parent == pa | attrs
    ensures parent & offset == 0
  {
  }

  lemma Regroup(pa: bv64, attrs: bv64, offset: bv64, x: bv64, y: bv64)
    requires x == pa | attrs | offset && y == pa | offset
    ensures x | attrs == y | attrs
    ensures x | attrs | 0x2 == y | attrs | 0x2
  {
  }

  /** Child 0 of a merged table points where the merged block must point. */
  lemma MergeAddress(level: nat, pa: bv64, a: Attrs)
    requires pa & 0x0000_FFFF_FFFF_F000 == pa && level > 0
    ensures BlockBits(level, BlockBits(level - 1, pa, AttrBits(a)) & 0x0000_FFFF_FFFF_F000,
                      CombineAttrs(0x1, AttrBits(a)))
            == BlockBits(level, pa, AttrBits(a))
  {
    LeafBits(level - 1, pa, a);
  }

  // ---- The engine's descriptors --------------------------------------------------------------

  /** The bits that stand for a descriptor of the page-table engine. */
  ghost predicate Encodes(bits: bv64, pte: Pte, level: nat) {
    match pte
    case Absent => bits == 0
    case Block(pa, a) => exists b: bv64 :: EncodesBlock(bits, b, pa, a, level)
    case Subtable(page) => level > 0 && exists b: bv64 :: EncodesTable(bits, b, page)
  }

  ghost predicate EncodesBlock(bits: bv64, b: bv64, pa: nat, a: Attrs, level: nat) {
    InField(b) && Val(b) == pa && bits == BlockBits(level, b, AttrBits(a))
  }

  ghost predicate EncodesTable(bits: bv64, b: bv64, page: nat) {
    InField(b) && Val(b) == page * 4096 && bits == TableBits(b)
  }

  /** Every test the engine makes on a descriptor gives the answer of the test on its bits. */
  lemma ClassifiersAgree(bits: bv64, pte: Pte, level: nat)
    requires Encodes(bits, pte, level) && (pte.Block? ==> BlockAllowed(level))
    ensures BitsValid(bits) == ValidPte(pte) && BitsPresent(bits) == PresentPte(pte)
    ensures BitsBlock(bits, level) == BlockPte(pte, level) && BitsTable(bits, level) == pte.Subtable?
  {
    hide AttrBits, BlockBits, TableBits, BitsValid, BitsPresent, BitsBlock, BitsTable;
    match pte
    case Absent => ZeroBits(level);
    case Block(pa, a) =>
      var b :| EncodesBlock(bits, b, pa, a, level);
      LeafBits(level, b, a);
    case Subtable(page) =>
      var b :| EncodesTable(bits, b, page);
      TableClass(level, b);
  }

  lemma BlockFields(bits: bv64, b: bv64, pa: nat, a: Attrs, level: nat)
    requires EncodesBlock(bits, b, pa, a, level)
    ensures AddressOf(bits) == b && AttrsOf(bits) == AttrBits(a)
  {
    hide AttrBits, BlockBits;
    LeafBits(level, b, a);
  }

  lemma OneBlock(bits: bv64, b: bv64, pa: nat, a: Attrs, c: bv64, pa': nat, a': Attrs, level: nat)
    requires EncodesBlock(bits, b, pa, a, level) && EncodesBlock(bits, c, pa', a', level)
    ensures pa == pa' && a == a'
  {
    hide AttrBits, BlockBits;
    BlockFields(bits, b, pa, a, level);
    BlockFields(bits, c, pa', a', level);
    AttrBitsInjective(a, a');
  }

  lemma BlockNotZero(bits: bv64, b: bv64, pa: nat, a: Attrs, level: nat)
    requires EncodesBlock(bits, b, pa, a, level)
    ensures bits != 0
  {
    hide AttrBits, BlockBits;
    BlockFields(bits, b, pa, a, level);
    LeafNotZero(bits, a);
  }

  lemma OneTable(bits: bv64, b: bv64, page: nat, c: bv64, page': nat)
    requires EncodesTable(bits, b, page) && EncodesTable(bits, c, page')
    ensures page == page'
  {
    hide TableBits;
    TableAddress(b);
    TableAddress(c);
  }

  /** Bits stand for at most one descriptor, so the engine's view of memory loses nothing. */
  lemma DecodesOnce(bits: bv64, p: Pte, q: Pte, level: nat)
    requires Encodes(bits, p, level) && Encodes(bits, q, level)
    requires (p.Block? ==> BlockAllowed(level)) && (q.Block? ==> BlockAllowed(level))
    ensures p == q
  {
    hide EncodesBlock, EncodesTable, BitsValid, BitsPresent, BitsBlock, BitsTable;
    ClassifiersAgree(bits, p, level);
    ClassifiersAgree(bits, q, level);
    if p.Block? {
      var b :| EncodesBlock(bits, b, p.pa, p.attrs, level);
      BlockNotZero(bits, b, p.pa, p.attrs, level);
      if q.Block? {
        var c :| EncodesBlock(bits, c, q.pa, q.attrs, level);
        OneBlock(bits, b, p.pa, p.attrs, c, q.pa, q.attrs, level);
      }
    } else if q.Block? {
      var c :| EncodesBlock(bits, c, q.pa, q.attrs, level);
      BlockNotZero(bits, c, q.pa, q.attrs, level);
    } else if p.Subtable? && q.Subtable? {
      var b :| EncodesTable(bits, b, p.page);
      var c :| EncodesTable(bits, c, q.page);
      OneTable(bits, b, p.page, c, q.page);
    }
  }

  lemma LeafNotZero(bits: bv64, a: Attrs)
    requires bits & 0xFFFF_0000_0000_0FFD == AttrBits(a)
    ensures bits != 0
  {
    hide AttrBits;
    AttrBitsInjective(a, a);
  }

  lemma TableAddress(b: bv64)
    requires b & 0x0000_FFFF_FFFF_F000 == b
    ensures TableBits(b) & 0x0000_FFFF_FFFF_F000 == b
  {
  }

  lemma ZeroBits(level: nat)
    ensures !BitsValid(0) && !BitsPresent(0) && !BitsBlock(0, level) && !BitsTable(0, level)
  {
  }

  lemma TableClass(level: nat, b: bv64)
    requires b & 0x0000_FFFF_FFFF_F000 == b && level > 0
    ensures BitsTable(TableBits(b), level) && BitsPresent(TableBits(b)) && !BitsBlock(TableBits(b), level) &&
            BitsValid(TableBits(b))
  {
    TableFields(level, b, 0);
  }

  // ---- Splitting and merging on bits ---------------------------------------------------------

  /** The addresses below a block of a level. */
  function Span(level: nat): bv64 {
    if level == 1 then 0x1F_FFFF else 0x3FFF_FFFF
  }

  lemma SpanIs(level: nat)
    requires 1 <= level <= 2
    ensures Span(level) == LowMask(12 + level * 9) && Size(level) == Pow2(12 + level * 9) && Pow2(12) == 4096
  {
    Masks();
    SizeIsShift(level);
    SizeIsShift(0);
  }

  /** A block's address has none of the bits below the block. */
  lemma BlockAligned(b: bv64, level: nat)
    requires 1 <= level <= 2 && Val(b) % Size(level) == 0
    ensures Clear(b, Span(level))
  {
    hide Val, LowMask, Pow2, Size, Span, Clear;
    SpanIs(level);
    Aligned(b, 12 + level * 9);
  }

  lemma OffsetRange(level: nat, i: nat)
    requires 1 <= level <= 2 && i < PTE_PER_PAGE
    ensures i * Size(level - 1) < Size(level) && (i * Size(level - 1)) % 4096 == 0
  {
    MulMono(i + 1, 512, Size(level - 1));
    MulMono(i, i, Size(level - 1));
    MulDivides(i, Size(level - 1));
    PageMultiple(i * Size(level - 1), level - 1);
  }

  lemma LowBitsOnly(off: bv64, span: bv64)
    requires off & span == off && off & 0xFFF == 0 && (span == 0x1F_FFFF || span == 0x3FFF_FFFF)
    ensures off & 0x0000_FFFF_FFFF_F000 == off
  {
  }

  /** The machine word of a child's offset lies below the block and in the address field. */
  lemma OffsetWord(level: nat, i: nat, off: bv64)
    requires 1 <= level <= 2 && i < PTE_PER_PAGE && off == Word(i * Size(level - 1))
    ensures Val(off) == i * Size(level - 1)
    ensures Only(off, Span(level)) && InField(off)
  {
    hide Val, LowMask, Pow2, Size, Span, Word, Only, Clear, InField;
    SpanIs(level);
    OffsetRange(level, i);
    WordVal(i * Size(level - 1), 12 + level * 9);
    Bounded(off, 12 + level * 9);
    Aligned(off, 12);
    OffsetField(off, level);
  }

  lemma OffsetField(off: bv64, level: nat)
    requires 1 <= level <= 2 && Only(off, Span(level)) && Clear(off, LowMask(12))
    ensures Only(off, Span(level)) && InField(off)
  {
    Masks();
    LowBitsOnly(off, Span(level));
  }

  /** Adding a child's offset to the block's address adds the numbers. */
  lemma ChildAddress(b: bv64, off: bv64, span: bv64)
    requires InField(b) && Clear(b, span) && InField(off) && Only(off, span)
    ensures Val(Add(b, off)) == Val(b) + Val(off) && InField(Add(b, off))
  {
    hide Val, Add, Or, Clear, Only, InField;
    SumIsOr(b, off, span);
    ValOr(b, off);
  }

  lemma SplitBits(bits: bv64, b: bv64, lo: nat, a: Attrs, level: nat, i: nat, off: bv64)
    requires 1 <= level <= 2 && lo % Size(level) == 0 && i < PTE_PER_PAGE && EncodesBlock(bits, b, lo, a, level)
    requires off == Word(i * Size(level - 1))
    ensures EncodesBlock(BlockBits(level - 1, Add(bits, off), AttrBits(a)), Add(b, off), lo + i * Size(level - 1), a,
                         level - 1)
  {
    hide AttrBits, BlockBits, Val, Word, Size, Span, Add, Clear, Only, InField, AttrsOf;
    BlockAligned(b, level);
    OffsetWord(level, i, off);
    ChildAddress(b, off, Span(level));
    AttrsField(a);
    SplitNoCarry(level - 1, b, AttrBits(a), Span(level), off, bits);
  }

  /** Splitting a block: adding child `i`'s offset to the raw block descriptor gives a descriptor of the
      child's own address with the block's attributes. */
  lemma SplitEncodes(bits: bv64, lo: nat, a: Attrs, level: nat, i: nat)
    requires 1 <= level <= 2 && lo % Size(level) == 0 && i < PTE_PER_PAGE && Encodes(bits, Block(lo, a), level)
    ensures Encodes(BlockBits(level - 1, Add(bits, Word(i * Size(level - 1))), AttrsOf(bits)),
                    Block(lo + i * Size(level - 1), a), level - 1)
  {
    hide AttrBits, BlockBits, EncodesBlock, Word, Size, Add, AttrsOf;
    var b :| EncodesBlock(bits, b, lo, a, level);
    BlockFields(bits, b, lo, a, level);
    SplitBits(bits, b, lo, a, level, i, Word(i * Size(level - 1)));
  }

  /** So the words that `populate_table` writes spell out the descriptors the engine fills the table with. */
  lemma SplitTableEncodes(bits: bv64, e: Entry, level: nat, lo: nat, ptes: seq<Pte>, i: nat)
    requires SplitPtes(ptes, e, level, lo) && lo % Size(level) == 0 && i < PTE_PER_PAGE
    requires Encodes(bits, if e.raw.None? then Absent else Block(lo, e.raw.value), level) && WF(e, level)
    ensures Encodes(if BitsBlock(bits, level)
                    then BlockBits(level - 1, Add(bits, Word(i * Size(level - 1))), AttrsOf(bits)) else 0,
                    ptes[i], level - 1)
  {
    hide AttrBits, BlockBits, BitsBlock, EncodesBlock, EncodesTable, Word, Size, BitsValid, BitsPresent, BitsTable;
    ClassifiersAgree(bits, if e.raw.None? then Absent else Block(lo, e.raw.value), level);
    if IsBlock(e, level) { SplitEncodes(bits, lo, e.raw.value, level, i); }
  }

  /** Merging: the address of child 0 with the attributes of the children, combined with those of the table
      descriptor, is a descriptor of the block. */
  lemma MergeEncodes(child: bv64, table: bv64, page: nat, lo: nat, a: Attrs, level: nat)
    requires 1 <= level <= 2 && Encodes(child, Block(lo, a), level - 1) && Encodes(table, Subtable(page), level)
    ensures Encodes(BlockBits(level, AddressOf(child), CombineAttrs(AttrsOf(table), AttrsOf(child))), Block(lo, a),
                    level)
  {
    hide AttrBits, BlockBits, TableBits, CombineAttrs, Val;
    var b :| EncodesBlock(child, b, lo, a, level - 1);
    var t :| EncodesTable(table, t, page);
    BlockFields(child, b, lo, a, level - 1);
    TableFields(level, t, AttrBits(a));
    assert EncodesBlock(BlockBits(level, b, AttrBits(a)), b, lo, a, level);
  }

  /** Every block at an address that fits the address field has a descriptor. */
  lemma EveryBlockEncodes(pa: nat, a: Attrs, level: nat)
    requires pa % 4096 == 0 && pa < 0x1_0000_0000_0000
    ensures exists bits :: Encodes(bits, Block(pa, a), level)
  {
    hide AttrBits, BlockBits, Val, Word, InField;
    AddressWord(pa);
    assert EncodesBlock(BlockBits(level, Word(pa), AttrBits(a)), Word(pa), pa, a, level);
    assert Encodes(BlockBits(level, Word(pa), AttrBits(a)), Block(pa, a), level);
  }

  /** And so has every table there, at every level that has tables. */
  lemma EveryTableEncodes(page: nat, level: nat)
    requires level > 0 && page < 0x10_0000_0000
    ensures exists bits :: Encodes(bits, Subtable(page), level)
  {
    hide TableBits, Val, Word, InField;
    AddressWord(page * 4096);
    assert EncodesTable(TableBits(Word(page * 4096)), Word(page * 4096), page);
    assert Encodes(TableBits(Word(page * 4096)), Subtable(page), level);
  }

  lemma AddressWord(pa: nat)
    requires pa % 4096 == 0 && pa < 0x1_0000_0000_0000
    ensures Val(Word(pa)) == pa && InField(Word(pa))
  {
    hide Val, Word, LowMask, Pow2, InField, Only, Clear;
    AddressBound();
    WordVal(pa, 48);
    Bounded(Word(pa), 48);
    Aligned(Word(pa), 12);
    AddressField(Word(pa));
  }

  lemma AddressBound()
    ensures Pow2(48) == 0x1_0000_0000_0000 && Pow2(12) == 4096
  {
    SizeIsShift(4);
    SizeIsShift(0);
    assert Size(4) == 512 * Size(3) == 512 * (512 * Size(2)) == 512 * (512 * (512 * Size(1)));
  }

  lemma AddressField(w: bv64)
    requires Only(w, LowMask(48)) && Clear(w, LowMask(12))
    ensures InField(w)
  {
    Masks();
    FieldBits(w);
  }

  lemma FieldBits(w: bv64)
    requires w & 0xFFFF_FFFF_FFFF == w && w & 0xFFF == 0
    ensures w & 0x0000_FFFF_FFFF_F000 == w
  {
  }
}
