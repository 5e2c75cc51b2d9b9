/** Reading attributes back (`get_attrs_level`, `get_attrs`): walks the tables in memory along a range
    and returns the attributes of the range if it has the same ones everywhere. */
module Attributes {
  import opened Common
  import opened Geometry
  import opened Entries
  import opened Footprint
  import opened Roots

  function RawOf(pte: Pte): Raw {
    if pte.Block? then Some(pte.attrs) else None
  }

  /** One step of reducing results that must all be equal. */
  function Combine(acc: Option<Raw>, r: Result<Raw>): Result<Raw> {
    if r.Err? || (acc.Some? && acc.value != r.value) then Err else r
  }

  ghost predicate Walkable(store: Store, t: nat, ks: seq<Entry>, level: nat, lo: nat) {
    RepTable(store, t, ks, level, lo) && WFs(ks, level) && |ks| == PTE_PER_PAGE && lo % Size(level + 1) == 0
  }

  function EntryAttrs(store: Store, pte: Pte, begin: nat, end: nat, level: nat, ghost e: Entry,
                      ghost lo: nat): Result<Raw>
    requires Rep(store, pte, e, level, lo) && WF(e, level) && lo % Size(level) == 0
    requires lo <= begin < lo + Size(level) && begin < end
    decreases level, 0, 0
  {
    if pte.Subtable? then LevelAttrs(store, pte.page, begin, end, level - 1, e.kids, lo)
    else Ok(RawOf(pte))
  }

  function LevelAttrs(store: Store, t: nat, begin: nat, end: nat, level: nat, ghost ks: seq<Entry>,
                      ghost lo: nat): Result<Raw>
    requires Walkable(store, t, ks, level, lo)
    requires lo <= begin < lo + Size(level + 1) && begin < end
    decreases level, 2, 0
  {
    IndexInTable(lo, begin, level);
    ScanAttrs(store, t, Index(begin, level), begin, Min(end, LevelEnd(begin, level)), end, level, None, ks, lo)
  }

  function ScanAttrs(store: Store, t: nat, i: nat, b: nat, cap: nat, end: nat, level: nat, acc: Option<Raw>,
                     ghost ks: seq<Entry>, ghost lo: nat): Result<Raw>
    requires Walkable(store, t, ks, level, lo) && cap == Min(end, EntryLo(lo, PTE_PER_PAGE, Size(level)))
    requires i <= PTE_PER_PAGE && (i < PTE_PER_PAGE ==>
                                   EntryLo(lo, i, Size(level)) <= b < EntryLo(lo, i, Size(level)) + Size(level))
    decreases level, 1, PTE_PER_PAGE - i
  {
    if i >= PTE_PER_PAGE || b >= cap then
      if acc.Some? then Ok(acc.value) else Err
    else
      EntryAligned(lo, i, level);
      NextBlock(lo, i, Size(level), b);
      var r := Combine(acc, EntryAttrs(store, store[t][i], b, end, level, ks[i], EntryLo(lo, i, Size(level))));
      if r.Err? then Err
      else ScanAttrs(store, t, i + 1, StartOfNextBlock(b, Size(level)), cap, end, level, Some(r.value), ks, lo)
  }

  /** All of `[b, c)` below this entry has exactly the raw attributes `raw`. */
  ghost predicate AllAt(e: Entry, level: nat, lo: nat, b: nat, c: nat, raw: Raw)
    requires WF(e, level)
  {
    forall x | lo <= x < lo + Size(level) && b <= x < c :: At(e, level, lo, x) == raw
  }

  ghost predicate AllKidsAt(ks: seq<Entry>, level: nat, lo: nat, b: nat, c: nat, raw: Raw)
    requires WFs(ks, level)
  {
    forall x | lo <= x < EntryLo(lo, |ks|, Size(level)) && b <= x < c :: AtKids(ks, level, lo, x) == raw
  }

  lemma {:induction false} EntryAttrsCorrect(store: Store, pte: Pte, begin: nat, end: nat, level: nat, e: Entry,
                                             lo: nat, raw: Raw)
    requires Rep(store, pte, e, level, lo) && WF(e, level) && lo % Size(level) == 0
    requires lo <= begin < lo + Size(level) && begin < end
    ensures EntryAttrs(store, pte, begin, end, level, e, lo) == Ok(raw) <==> AllAt(e, level, lo, begin, end, raw)
    decreases level, 0, 0
  {
    if pte.Subtable? {
      LevelAttrsCorrect(store, pte.page, begin, end, level - 1, e.kids, lo, raw);
      TableSpan(lo, level - 1);
      TableAll(e, level, lo, begin, end, raw);
    } else {
      assert At(e, level, lo, begin) == RawOf(pte);
    }
  }

  lemma TableAll(e: Entry, level: nat, lo: nat, b: nat, c: nat, raw: Raw)
    requires WF(e, level) && e.Table?
    ensures AllAt(e, level, lo, b, c, raw) <==> AllKidsAt(e.kids, level - 1, lo, b, c, raw)
  {
    var below := level - 1;
    TableSpan(lo, below);
    if AllAt(e, level, lo, b, c, raw) {
      forall x | lo <= x < EntryLo(lo, |e.kids|, Size(below)) && b <= x < c
        ensures AtKids(e.kids, below, lo, x) == raw
      {
        assert At(e, level, lo, x) == raw;
      }
    }
    if AllKidsAt(e.kids, below, lo, b, c, raw) {
      forall x | lo <= x < lo + Size(level) && b <= x < c ensures At(e, level, lo, x) == raw {
        assert AtKids(e.kids, below, lo, x) == raw;
      }
    }
  }

  lemma {:induction false} LevelAttrsCorrect(store: Store, t: nat, begin: nat, end: nat, level: nat, ks: seq<Entry>,
                                             lo: nat, raw: Raw)
    requires Walkable(store, t, ks, level, lo)
    requires lo <= begin < lo + Size(level + 1) && begin < end
    ensures LevelAttrs(store, t, begin, end, level, ks, lo) == Ok(raw) <==> AllKidsAt(ks, level, lo, begin, end, raw)
    decreases level, 2, 0
  {
    IndexInTable(lo, begin, level);
    var cap := Min(end, LevelEnd(begin, level));
    ScanAttrsCorrect(store, t, Index(begin, level), begin, cap, end, level, None, ks, lo, raw);
  }

  lemma {:induction false} ScanAttrsCorrect(store: Store, t: nat, i: nat, b: nat, cap: nat, end: nat, level: nat,
                                            acc: Option<Raw>, ks: seq<Entry>, lo: nat, raw: Raw)
    requires Walkable(store, t, ks, level, lo) && cap == Min(end, EntryLo(lo, PTE_PER_PAGE, Size(level)))
    requires i <= PTE_PER_PAGE && (i < PTE_PER_PAGE ==>
                                   EntryLo(lo, i, Size(level)) <= b < EntryLo(lo, i, Size(level)) + Size(level))
    requires i == PTE_PER_PAGE ==> b >= cap
    ensures ScanAttrs(store, t, i, b, cap, end, level, acc, ks, lo) == Ok(raw) <==>
            (if acc.Some? then acc.value == raw else b < cap) && AllKidsAt(ks, level, lo, b, end, raw)
    decreases level, 1, PTE_PER_PAGE - i
  {
    if i < PTE_PER_PAGE && b < cap {
      ScanStep(store, t, i, b, cap, end, level, acc, ks, lo, raw);
    } else {
      NothingLeft(ks, level, lo, b, end, raw);
    }
  }

  lemma NothingLeft(ks: seq<Entry>, level: nat, lo: nat, b: nat, end: nat, raw: Raw)
    requires WFs(ks, level) && b >= Min(end, EntryLo(lo, |ks|, Size(level)))
    ensures AllKidsAt(ks, level, lo, b, end, raw)
  {
  }

  lemma {:induction false} ScanStep(store: Store, t: nat, i: nat, b: nat, cap: nat, end: nat, level: nat,
                                    acc: Option<Raw>, ks: seq<Entry>, lo: nat, raw: Raw)
    requires Walkable(store, t, ks, level, lo) && cap == Min(end, EntryLo(lo, PTE_PER_PAGE, Size(level)))
    requires i < PTE_PER_PAGE && b < cap && EntryLo(lo, i, Size(level)) <= b < EntryLo(lo, i, Size(level)) + Size(level)
    ensures ScanAttrs(store, t, i, b, cap, end, level, acc, ks, lo) == Ok(raw) <==>
            (acc.Some? ==> acc.value == raw) && AllKidsAt(ks, level, lo, b, end, raw)
    decreases level, 1, PTE_PER_PAGE - i, 0
  {
    hide Rep, RepTable, At, AtKids, AllAt, AllKidsAt, WF;
    var s := Size(level);
    var from, next := EntryLo(lo, i, s), StartOfNextBlock(b, s);
    EntryAligned(lo, i, level);
    NextBlock(lo, i, s, b);
    EntryLoOrder(lo, i + 1, 512, s);
    WalkKid(store, t, ks, i, level, lo);
    EntryAttrsCorrect(store, store[t][i], b, end, level, ks[i], from, raw);
    KidThenRest(ks, level, lo, i, b, end, raw);
    var r := EntryAttrs(store, store[t][i], b, end, level, ks[i], from);
    if r.Ok? {
      EntryAttrsCorrect(store, store[t][i], b, end, level, ks[i], from, r.value);
      SameThere(ks[i], level, from, b, end, raw, r.value);
      ScanAttrsCorrect(store, t, i + 1, next, cap, end, level, Some(r.value), ks, lo, raw);
    }
  }

  lemma WalkKid(store: Store, t: nat, ks: seq<Entry>, i: nat, level: nat, lo: nat)
    requires Walkable(store, t, ks, level, lo) && i < PTE_PER_PAGE
    ensures t in store && |store[t]| == PTE_PER_PAGE && WF(ks[i], level)
    ensures Rep(store, store[t][i], ks[i], level, EntryLo(lo, i, Size(level)))
  {
  }

  /** Two attribute values cannot both hold of a non-empty range. */
  lemma SameThere(e: Entry, level: nat, lo: nat, b: nat, end: nat, raw: Raw, raw': Raw)
    requires WF(e, level) && lo <= b < lo + Size(level) && b < end
    ensures AllAt(e, level, lo, b, end, raw) && AllAt(e, level, lo, b, end, raw') ==> raw == raw'
  {
    assert At(e, level, lo, b) == At(e, level, lo, b);
  }

  lemma KidThenRest(ks: seq<Entry>, level: nat, lo: nat, i: nat, b: nat, end: nat, raw: Raw)
    requires WFs(ks, level) && i < |ks|
    requires EntryLo(lo, i, Size(level)) <= b < EntryLo(lo, i, Size(level)) + Size(level)
    ensures AllKidsAt(ks, level, lo, b, end, raw) <==>
            && AllAt(ks[i], level, EntryLo(lo, i, Size(level)), b, end, raw)
            && AllKidsAt(ks, level, lo, EntryLo(lo, i + 1, Size(level)), end, raw)
  {
    var from, next := EntryLo(lo, i, Size(level)), EntryLo(lo, i + 1, Size(level));
    EntryLoOrder(lo, i, |ks|, Size(level));
    EntryLoOrder(lo, i + 1, |ks|, Size(level));
    if AllKidsAt(ks, level, lo, b, end, raw) {
      forall x | from <= x < from + Size(level) && b <= x < end ensures At(ks[i], level, from, x) == raw {
        KidAt(ks, level, lo, i, x);
      }
    }
    if AllAt(ks[i], level, from, b, end, raw) && AllKidsAt(ks, level, lo, next, end, raw) {
      forall x | lo <= x < EntryLo(lo, |ks|, Size(level)) && b <= x < end ensures AtKids(ks, level, lo, x) == raw {
        if x < next {
          KidAt(ks, level, lo, i, x);
        }
      }
    }
  }

  // ---- From the root -------------------------------------------------------------------------

  lemma RootWalkable(store: Store, root: nat, tops: seq<Entry>, level: nat, i: nat)
    requires RootOk(store, root, tops, level) && i < |tops|
    ensures tops[i].Table? && WF(tops[i], level + 1) && Walkable(store, root + i, tops[i].kids, level, RootLo(i, level))
  {
    RootTable(store, root, tops, level, i);
    RootAligned(i, level);
  }

  function RootAttrs(store: Store, root: nat, n: nat, i: nat, b: nat, end: nat, level: nat, acc: Option<Raw>,
                     ghost tops: seq<Entry>): Result<Raw>
    requires RootOk(store, root, tops, level) && |tops| == n
    requires i < n && b < end ==> RootLo(i, level) <= b < RootLo(i, level) + Size(level + 1)
    decreases n - i
  {
    if i >= n || b >= end then
      if acc.Some? then Ok(acc.value) else Err
    else
      RootWalkable(store, root, tops, level, i);
      RootAligned(i, level);
      NextBlock(0, i, Size(level + 1), b);
      var r := Combine(acc, LevelAttrs(store, root + i, b, end, level, tops[i].kids, RootLo(i, level)));
      if r.Err? then Err
      else RootAttrs(store, root, n, i + 1, StartOfNextBlock(b, Size(level + 1)), end, level, Some(r.value), tops)
  }

  /** `PageTable::get_attrs`: fails for ranges outside the address space. */
  function GetAttrs(store: Store, root: nat, n: nat, begin: nat, end: nat, level: nat,
                    ghost tops: seq<Entry>): Result<Raw>
    requires RootOk(store, root, tops, level) && |tops| == n <= 16
  {
    var b, e := RoundDownToPage(begin), RoundUpToPage(end);
    if !(b <= e && e <= n * Size(level + 1)) then Err
    else
      RootIndex(b, level, n);
      RootAttrs(store, root, n, Index(b, level + 1), b, e, level, None, tops)
  }

  lemma RootIndex(b: nat, level: nat, n: nat)
    requires b <= n * Size(level + 1) && n <= 16
    ensures SpaceEnd(n, level) == n * Size(level + 1)
    ensures RootLo(Index(b, level + 1), level) <= b < RootLo(Index(b, level + 1), level) + Size(level + 1)
  {
    EntryLoIsMul(0, n, Size(level + 1));
    TableSpan(0, level + 1);
    EntryLoOrder(0, n, 512, Size(level + 1));
    IndexInTable(0, b, level + 1);
  }

  lemma {:induction false} RootAttrsCorrect(store: Store, root: nat, n: nat, i: nat, b: nat, end: nat, level: nat,
                                            acc: Option<Raw>, tops: seq<Entry>, raw: Raw)
    requires RootOk(store, root, tops, level) && |tops| == n && end <= SpaceEnd(n, level) && WFs(tops, level + 1)
    requires RootLo(i, level) <= b < RootLo(i, level) + Size(level + 1)
    ensures RootAttrs(store, root, n, i, b, end, level, acc, tops) == Ok(raw) <==>
            (if acc.Some? then acc.value == raw else b < end) && AllKidsAt(tops, level + 1, 0, b, end, raw)
    decreases n - i
  {
    hide RootOk, AllKidsAt, AllAt, WF, Walkable, LevelAttrs, At;
    if i < n && b < end {
      RootWalkable(store, root, tops, level, i);
      RootAligned(i, level);
      NextBlock(0, i, Size(level + 1), b);
      var lo, ks := RootLo(i, level), tops[i].kids;
      var r := LevelAttrs(store, root + i, b, end, level, ks, lo);
      LevelAttrsCorrect(store, root + i, b, end, level, ks, lo, raw);
      TableAll(tops[i], level + 1, lo, b, end, raw);
      KidThenRest(tops, level + 1, 0, i, b, end, raw);
      if r.Ok? {
        LevelAttrsCorrect(store, root + i, b, end, level, ks, lo, r.value);
        TableAll(tops[i], level + 1, lo, b, end, r.value);
        SameThere(tops[i], level + 1, lo, b, end, raw, r.value);
        RootAttrsCorrect(store, root, n, i + 1, StartOfNextBlock(b, Size(level + 1)), end, level, Some(r.value), tops,
                         raw);
      }
    } else {
      if i >= n { EntryLoOrder(0, n, i, Size(level + 1)); }
      NothingLeft(tops, level + 1, 0, b, end, raw);
    }
  }

  /** A non-empty range inside the address space whose every address has raw attributes `raw`. */
  ghost predicate UniformRaw(tops: seq<Entry>, level: nat, b: nat, e: nat, raw: Raw)
    requires Tables(tops, level)
  {
    && b < e <= SpaceEnd(|tops|, level)
    && forall x | b <= x < e && x < SpaceEnd(|tops|, level) :: RawAt(tops, level, x) == raw
  }

  /** `get_attrs` returns attributes exactly when the rounded range is not empty, lies inside the
      address space, and every address in it has them. */
  lemma GetAttrsCorrect(store: Store, root: nat, n: nat, begin: nat, end: nat, level: nat, tops: seq<Entry>, raw: Raw)
    requires RootOk(store, root, tops, level) && |tops| == n <= 16
    ensures Tables(tops, level)
    ensures GetAttrs(store, root, n, begin, end, level, tops) == Ok(raw) <==>
            UniformRaw(tops, level, RoundDownToPage(begin), RoundUpToPage(end), raw)
  {
    var b, e := RoundDownToPage(begin), RoundUpToPage(end);
    EntryLoIsMul(0, n, Size(level + 1));
    TopsWF(tops, level);
    if b <= e && e <= n * Size(level + 1) {
      RootIndex(b, level, n);
      RootAttrsCorrect(store, root, n, Index(b, level + 1), b, e, level, None, tops, raw);
      RootAllAt(tops, level, b, e, raw);
    }
  }

  lemma RootAllAt(tops: seq<Entry>, level: nat, b: nat, e: nat, raw: Raw)
    requires Tables(tops, level) && WFs(tops, level + 1)
    ensures AllKidsAt(tops, level + 1, 0, b, e, raw) <==>
            forall x | b <= x < e && x < SpaceEnd(|tops|, level) :: RawAt(tops, level, x) == raw
  {
    var up := level + 1;
    if AllKidsAt(tops, up, 0, b, e, raw) {
      forall x | b <= x < e && x < SpaceEnd(|tops|, level) ensures RawAt(tops, level, x) == raw {
        assert AtKids(tops, up, 0, x) == raw;
      }
    }
    if forall x | b <= x < e && x < SpaceEnd(|tops|, level) :: RawAt(tops, level, x) == raw {
      forall x | 0 <= x < EntryLo(0, |tops|, Size(up)) && b <= x < e ensures AtKids(tops, up, 0, x) == raw {
        assert RawAt(tops, level, x) == raw;
      }
    }
  }
}
