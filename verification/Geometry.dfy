/** Address arithmetic of the page tables (`mod addr` and `BlockIter`).
    Addresses are byte addresses; shifts and masks by powers of two are written as
    multiplication, division and remainder. */
module Geometry {
  import opened Common

  const PAGE_BITS: nat := 12
  const PAGE_LEVEL_BITS: nat := 9
  const PAGE_SIZE: nat := 4096
  const PTE_PER_PAGE: nat := 512

  function Pow2(k: nat): (r: nat)
    ensures r >= 1
  {
    if k == 0 then 1 else 2 * Pow2(k - 1)
  }

  /** Bytes covered by one entry of a table at `level`. */
  function Size(level: nat): (s: nat)
    ensures s >= 4096
  {
    if level == 0 then 4096 else 512 * Size(level - 1)
  }

  function RoundDownToPage(a: nat): nat {
    a - a % PAGE_SIZE
  }

  function RoundUpToPage(a: nat): nat {
    RoundDownToPage(a + PAGE_SIZE - 1)
  }

  function StartOfNextBlock(a: nat, s: nat): nat
    requires s > 0
  {
    (a + s) - (a + s) % s
  }

  function LevelEnd(a: nat, level: nat): nat {
    (a / Size(level + 1) + 1) * Size(level + 1)
  }

  function Index(a: nat, level: nat): nat {
    (a / Size(level)) % PTE_PER_PAGE
  }

  /** Where entry `i` of a table based at `lo` starts, entries being `s` bytes wide. */
  ghost function EntryLo(lo: nat, i: nat, s: nat): nat {
    if i == 0 then lo else EntryLo(lo, i - 1, s) + s
  }

  /** The entry of a table based at `lo` that holds address `a`. */
  ghost function Which(lo: nat, s: nat, a: nat): (i: nat)
    requires s > 0 && lo <= a
    ensures EntryLo(lo, i, s) <= a < EntryLo(lo, i, s) + s
    decreases a - lo
  {
    if a < lo + s then 0
    else
      var i := Which(lo + s, s, a);
      EntryLoShift(lo, i, s);
      1 + i
  }

  lemma EntryLoShift(lo: nat, i: nat, s: nat)
    ensures EntryLo(lo, i + 1, s) == EntryLo(lo + s, i, s)
  {
    if i > 0 { EntryLoShift(lo, i - 1, s); }
  }

  lemma {:induction false} EntryLoIsMul(lo: nat, i: nat, s: nat)
    ensures EntryLo(lo, i, s) == lo + i * s
  {
    if i > 0 {
      EntryLoIsMul(lo, i - 1, s);
      MulMono(i - 1, i, s);
    }
  }

  /** The addresses yielded by `BlockIter::new(begin, end, s)`. */
  function BlockStarts(begin: nat, end: nat, s: nat): seq<nat>
    requires s > 0
    decreases end - begin
  {
    if begin >= end then []
    else
      NextBlockIsLater(begin, s);
      [begin] + BlockStarts(StartOfNextBlock(begin, s), end, s)
  }

  lemma NextBlockIsLater(a: nat, s: nat)
    requires s > 0
    ensures StartOfNextBlock(a, s) > a
  {
  }

  /** The recursive size agrees with the shift the code computes it by. */
  lemma {:induction false} SizeIsShift(level: nat)
    ensures Size(level) == Pow2(PAGE_BITS + level * PAGE_LEVEL_BITS)
  {
    if level == 0 {
      Pow2Add(12, 0);
      assert Pow2(12) == 4096 by { Pow2Add(6, 6); assert Pow2(6) == 64; }
    } else {
      SizeIsShift(level - 1);
      var k := PAGE_BITS + (level - 1) * PAGE_LEVEL_BITS;
      assert PAGE_BITS + level * PAGE_LEVEL_BITS == k + 9;
      Pow2Add(k, 9);
      assert Pow2(9) == 512 by { Pow2Add(5, 4); assert Pow2(5) == 32 && Pow2(4) == 16; }
    }
  }

  lemma {:induction false} SizeIsPages(level: nat)
    ensures Size(level) % PAGE_SIZE == 0
  {
    if level > 0 { SizeIsPages(level - 1); }
  }

  lemma PageMultiple(a: nat, level: nat)
    requires a % Size(level) == 0
    ensures a % PAGE_SIZE == 0
  {
    SizeIsPages(level);
    var k, n := a / Size(level), Size(level) / PAGE_SIZE;
    assert a == k * Size(level) && Size(level) == n * PAGE_SIZE;
    assert a == (k * n) * PAGE_SIZE;
  }

  lemma {:induction false} Pow2Add(a: nat, b: nat)
    ensures Pow2(a + b) == Pow2(a) * Pow2(b)
    decreases b
  {
    if b > 0 {
      Pow2Add(a, b - 1);
      assert Pow2(a + b) == 2 * Pow2(a + b - 1) == 2 * (Pow2(a) * Pow2(b - 1));
    }
  }

  lemma DivUnique(x: nat, s: nat, i: nat)
    requires s > 0 && i * s <= x < i * s + s
    ensures x / s == i && x % s == x - i * s
  {
    QuotientUnique(x / s, x % s, i, x - i * s, s);
  }

  lemma QuotientUnique(q: nat, r: nat, i: nat, t: nat, s: nat)
    requires r < s && t < s && q * s + r == i * s + t
    ensures q == i && r == t
  {
    if q < i {
      MulMono(q + 1, i, s);
      MulMono(q, q, s);
    } else if i < q {
      MulMono(i + 1, q, s);
      MulMono(i, i, s);
    }
  }

  lemma MulAssoc(k: nat, s: nat)
    ensures k * (512 * s) == (512 * k) * s
  {
  }

  lemma MulAdd(a: nat, b: nat, s: nat)
    ensures (a + b) * s == a * s + b * s
  {
  }

  lemma MulMono(a: nat, b: nat, s: nat)
    requires a <= b
    ensures a * s <= b * s
    ensures (a + 1) * s == a * s + s
  {
  }

  lemma {:induction false} EntryLoOrder(lo: nat, i: nat, j: nat, s: nat)
    ensures i < j ==> EntryLo(lo, i, s) + s <= EntryLo(lo, j, s)
    ensures i <= j ==> lo <= EntryLo(lo, i, s) <= EntryLo(lo, j, s)
  {
    EntryLoIsMul(lo, i, s);
    EntryLoIsMul(lo, j, s);
    if i <= j { MulMono(i, j, s); }
    if i < j { MulMono(i + 1, j, s); MulMono(i, i, s); }
  }

  /** Every address below the end of entry `n - 1` lies in exactly one entry. */
  lemma EntryOf(lo: nat, n: nat, s: nat, a: nat)
    requires s > 0 && lo <= a < EntryLo(lo, n, s)
    ensures Which(lo, s, a) < n
  {
    EntryLoOrder(lo, n, Which(lo, s, a), s);
  }

  lemma EntryUnique(lo: nat, i: nat, s: nat, a: nat)
    requires s > 0 && EntryLo(lo, i, s) <= a < EntryLo(lo, i, s) + s
    ensures a >= lo && Which(lo, s, a) == i
  {
    EntryLoOrder(lo, 0, i, s);
    EntryLoOrder(lo, Which(lo, s, a), i, s);
    EntryLoOrder(lo, i, Which(lo, s, a), s);
  }

  /** A table of 512 entries spans one entry of the level above. */
  lemma TableSpan(lo: nat, level: nat)
    ensures EntryLo(lo, PTE_PER_PAGE, Size(level)) == lo + Size(level + 1)
  {
    EntryLoIsMul(lo, 512, Size(level));
  }

  lemma MulDivides(k: nat, s: nat)
    requires s > 0
    ensures (k * s) % s == 0
  {
    DivUnique(k * s, s, k);
  }

  lemma SumDivides(a: nat, b: nat, s: nat)
    requires s > 0 && a % s == 0 && b % s == 0
    ensures (a + b) % s == 0
  {
    var x, y := a / s, b / s;
    assert a == x * s && b == y * s;
    assert a + b == (x + y) * s;
    MulDivides(x + y, s);
  }

  /** Table bases are aligned to the table's span, so entry bases are aligned to the entry size. */
  lemma EntryAligned(lo: nat, i: nat, level: nat)
    requires lo % Size(level + 1) == 0
    ensures lo % Size(level) == 0
    ensures EntryLo(lo, i, Size(level)) % Size(level) == 0
  {
    var s := Size(level);
    var k := lo / Size(level + 1);
    assert lo == k * (512 * s) == (k * 512) * s;
    MulDivides(k * 512, s);
    MulDivides(i, s);
    EntryLoIsMul(lo, i, s);
    SumDivides(lo, i * s, s);
  }

  /** Within a table based at `lo`, `index` is the position of the address's entry and
      `level_end` is the end of the table. */
  lemma IndexInTable(lo: nat, a: nat, level: nat)
    requires lo % Size(level + 1) == 0
    requires lo <= a < lo + Size(level + 1)
    ensures Index(a, level) == Which(lo, Size(level), a) < PTE_PER_PAGE
    ensures LevelEnd(a, level) == lo + Size(level + 1) == EntryLo(lo, PTE_PER_PAGE, Size(level))
  {
    var s, t := Size(level), Size(level + 1);
    var k := lo / t;
    assert lo == k * t;
    DivUnique(a, t, k);
    MulMono(k, k, t);
    TableSpan(lo, level);
    EntryOf(lo, 512, s, a);
    QuotientInTable(lo, k, a, s, Which(lo, s, a));
  }

  lemma QuotientInTable(lo: nat, k: nat, a: nat, s: nat, i: nat)
    requires s > 0 && lo == k * (512 * s) && i < 512
    requires EntryLo(lo, i, s) <= a < EntryLo(lo, i, s) + s
    ensures (a / s) % 512 == i
  {
    EntryLoIsMul(lo, i, s);
    MulAssoc(k, s);
    MulAdd(512 * k, i, s);
    DivUnique(a, s, 512 * k + i);
  }

  /** The next block starts at the next entry, wherever in the current entry we are. */
  lemma NextBlock(lo: nat, i: nat, s: nat, a: nat)
    requires s > 0 && lo % s == 0
    requires EntryLo(lo, i, s) <= a < EntryLo(lo, i, s) + s
    ensures StartOfNextBlock(a, s) == EntryLo(lo, i + 1, s)
  {
    var q := lo / s;
    EntryLoIsMul(lo, i, s);
    assert lo == q * s;
    assert (q + i + 1) * s == lo + i * s + s;
    DivUnique(a + s, s, q + i + 1);
  }

  /** An address inside an aligned entry is block aligned only at the entry's start. */
  lemma AlignedOnlyAtStart(lo: nat, s: nat, a: nat)
    requires s > 0 && lo % s == 0 && lo <= a < lo + s
    ensures a % s == 0 <==> a == lo
  {
    var q := lo / s;
    assert lo == q * s;
    DivUnique(a, s, q);
  }

  /** Zipping the entries from `index(begin)` with the block iterator visits exactly the entries
      that overlap the range, each paired with the first address of the range inside it. */
  lemma {:induction false} ZipVisitsOverlap(lo: nat, begin: nat, end: nat, level: nat, i: nat)
    requires lo % Size(level + 1) == 0
    requires lo <= begin < lo + Size(level + 1) && begin < end
    requires i < PTE_PER_PAGE
    ensures var s := Size(level);
            var starts := BlockStarts(begin, Min(end, LevelEnd(begin, level)), s);
            var first := Index(begin, level);
            && (first <= i < first + |starts| <==>
                EntryLo(lo, i, s) < end && begin < EntryLo(lo, i, s) + s)
            && (first <= i < first + |starts| ==>
                starts[i - first] == Max(begin, EntryLo(lo, i, s)))
  {
    var s, cap := Size(level), lo + Size(level + 1);
    IndexInTable(lo, begin, level);
    EntryAligned(lo, 0, level);
    EntryOf(lo, 512, s, begin);
    var first := Index(begin, level);
    EntryLoOrder(lo, i, 512, s);
    if i < first {
      EntryLoOrder(lo, i, first, s);
    } else {
      EntryLoOrder(lo, first, i, s);
      StartsFrom(lo, first, begin, Min(end, cap), s, i);
    }
  }

  lemma {:induction false} StartsFrom(lo: nat, first: nat, begin: nat, end: nat, s: nat, i: nat)
    requires s > 0 && lo % s == 0
    requires EntryLo(lo, first, s) <= begin < EntryLo(lo, first, s) + s
    requires first <= i
    ensures var starts := BlockStarts(begin, end, s);
            && (i - first < |starts| <==> Max(begin, EntryLo(lo, i, s)) < end)
            && (i - first < |starts| ==> starts[i - first] == Max(begin, EntryLo(lo, i, s)))
    decreases i - first
  {
    NextBlock(lo, first, s, begin);
    EntryLoOrder(lo, first, i, s);
    if i > first {
      var next := StartOfNextBlock(begin, s);
      EntryLoOrder(lo, first + 1, i, s);
      StartsFrom(lo, first + 1, next, end, s, i);
      if begin < end {
        var rest := BlockStarts(next, end, s);
        assert BlockStarts(begin, end, s) == [begin] + rest;
      }
    }
  }
}
