/** The page-table engine of `mm.rs`, working in place on table pages held in memory. Ghost
    parameters carry the tree that each descriptor stands for. */
module PageTable {
  import opened Common
  import opened Geometry
  import opened Entries
  import opened Rollback
  import opened Footprint
  import opened Layout
  import opened Stores
  import opened Tlb
  import opened Passes
  import opened Roots
  import opened Defragment
  import opened Undo
  import opened Lifecycle
  import opened Attributes
  import opened Encoding
  import opened Pool
  import P = MPool

  const UNRELATED := Mode(false, false, false, false, true, true, true)

  const PHYS_END: nat := 0x1_0000_0000_0000

  /** Drops the address bits a descriptor does not hold. */
  function ClearPa(pa: nat): nat {
    RoundDownToPage(pa % PHYS_END)
  }

  class PageTable {
    /** The first of `count` consecutive root tables and the level of their entries. */
    const root: nat
    const count: nat
    const maxLevel: nat

    var store: Store
    ghost var tops: seq<Entry>

    ghost predicate Valid()
      reads this
    {
      && 1 <= count <= 16 && |tops| == count && End() <= PHYS_END
      && RootOk(store, root, tops, maxLevel)
    }

    /** The first address that the table cannot translate. */
    ghost function End(): nat {
      SpaceEnd(count, maxLevel)
    }

    /** What the table says about address `a`, all unrelated modes being the same. */
    ghost function View(a: nat): Raw
      requires Valid() && a < End()
      reads this
    {
      Norm(RawAt(tops, maxLevel, a))
    }

    /** The pool's free pages and the table pages are disjoint. */
    ghost predicate Ready(pool: P.MPool)
      reads this, pool, pool.Repr
    {
      pool.Valid() && this !in pool.Repr && pool.avail !! store.Keys
    }

    ghost function Snap(pool: P.MPool): Mem
      reads this, pool
    {
      Mem(store, pool.own, pool.avail)
    }

    /** A table that maps nothing, in the pages it is given. */
    constructor FromPages(root: nat, count: nat, maxLevel: nat)
      requires root > 0 && 1 <= count <= 16 && SpaceEnd(count, maxLevel) <= PHYS_END
      ensures Valid() && this.root == root && this.count == count && this.maxLevel == maxLevel
      ensures store.Keys == ChunkSet(root, count) && tops == AbsentTops(root, count)
    {
      this.root, this.count, this.maxLevel := root, count, maxLevel;
      store, tops := map[], AbsentTops(root, count);
      new;
      hide RootOk;
      var page := root;
      while page < root + count
        invariant root <= page <= root + count && tops == AbsentTops(root, count)
        invariant store.Keys == ChunkSet(root, page - root)
        invariant forall q | root <= q < page :: q in store && store[q] == AbsentTable()
      {
        store := store[page := AbsentTable()];
        page := page + 1;
      }
      AbsentOk(store, root, count, maxLevel);
    }

    /** Takes the root tables from the pool, contiguous and aligned to their number; fails exactly
        when the pool has no such pages. */
    static method New(count: nat, maxLevel: nat, pool: P.MPool) returns (t: PageTable?)
      requires pool.Valid() && 1 <= count <= 16 && SpaceEnd(count, maxLevel) <= PHYS_END
      modifies pool.Repr
      ensures pool.Valid()
      ensures t == null <==> old(pool.Exhausted(count, count))
      ensures t == null ==> pool.avail == old(pool.avail)
      ensures t != null ==> fresh(t) && t.Valid() && t.Ready(pool) && t.count == count && t.maxLevel == maxLevel
      ensures t != null ==> t.root % count == 0 && t.tops == AbsentTops(t.root, count)
      ensures t != null ==> pool.avail + PagesOf(t.tops) == old(pool.avail) && Total(t.Snap(pool)) == old(pool.avail)
    {
      hide P.MPool.Valid, RootOk;
      var pages := pool.AllocPages(count, count);
      if pages.None? {
        return null;
      }
      t := new PageTable.FromPages(pages.value, count, maxLevel);
      AbsentPages(pages.value, count);
      assert forall q | q in t.store.Keys :: InChunk(q, pages.value, count);
      assert forall q | InChunk(q, pages.value, count) :: q in old(pool.avail);
    }

    /** Returns every page of the table to the pool. */
    method Drop(pool: P.MPool)
      requires Valid() && Ready(pool)
      modifies `store, pool.Repr
      ensures pool.Valid()
      ensures Freed(old(Snap(pool)), Snap(pool), PagesOf(tops))
    {
      hide P.MPool.Valid, RootOk, Total, Tables, PagesOf, Below, Freed;
      var k: nat := 0;
      DropRootStart(Snap(pool), root, tops, maxLevel);
      RootFacts(store, root, tops, maxLevel);
      TablesAreTables(tops, maxLevel);
      while k < count
        invariant k <= count && Ready(pool) && forall i | 0 <= i < |tops| :: tops[i].Table?
        invariant Freed(old(Snap(pool)), Snap(pool), Below(tops, k))
      {
        ghost var m := Snap(pool);
        DropRootNext(old(Snap(pool)), m, root, tops, k, maxLevel);
        DropKids(root + k, maxLevel, pool, tops[k].kids, RootLo(k, maxLevel));
        DropRootStep(old(Snap(pool)), m, Snap(pool), tops, k, maxLevel);
        k := k + 1;
      }
      ghost var m := Snap(pool);
      DropRootEnd(old(Snap(pool)), m, root, tops, maxLevel, ChunkSet(root, count));
      pool.FreePages(root, count);
      store := map q | q in store && !(root <= q < root + count) :: store[q];
      FreedIntro(m, Snap(pool), ChunkSet(root, count));
      FreedTwice(old(Snap(pool)), m, Snap(pool), Below(tops, count), ChunkSet(root, count));
    }

    /** The mode of a range all of whose pages have the same attributes. */
    method GetMode(begin: nat, end: nat) returns (r: Result<Mode>, ghost raw: Raw)
      requires Valid()
      ensures Tables(tops, maxLevel)
      ensures r.Ok? ==>
                r.value == FromRaw(raw) && UniformRaw(tops, maxLevel, RoundDownToPage(begin), RoundUpToPage(end), raw)
      ensures r.Err? ==> forall raw' :: !UniformRaw(tops, maxLevel, RoundDownToPage(begin), RoundUpToPage(end), raw')
    {
      hide RootOk, GetAttrs, Tables;
      RootFacts(store, root, tops, maxLevel);
      var attrs := GetAttrs(store, root, count, begin, end, maxLevel, tops);
      if attrs.Err? {
        forall raw': Raw ensures !UniformRaw(tops, maxLevel, RoundDownToPage(begin), RoundUpToPage(end), raw') {
          GetAttrsCorrect(store, root, count, begin, end, maxLevel, tops, raw');
        }
        return Err, None;
      }
      raw := attrs.value;
      GetAttrsCorrect(store, root, count, begin, end, maxLevel, tops, raw);
      r := Ok(FromRaw(attrs.value));
    }

    /** Frees all tables below a descriptor, children first. */
    method DropPte(pte: Pte, level: nat, pool: P.MPool, ghost e: Entry, ghost lo: nat)
      requires Ready(pool) && Rep(store, pte, e, level, lo) && Unshared(e) && 0 !in Pages(e)
      modifies `store, pool.Repr
      ensures Ready(pool)
      ensures Total(Snap(pool)) == old(Total(Snap(pool)))
      ensures Freed(old(Snap(pool)), Snap(pool), Pages(e))
      decreases level, 0
    {
      hide Total;
      if pte.Subtable? {
        DropTable(pte.page, level - 1, pool, e.kids, lo);
      }
    }

    method DropTable(page: nat, level: nat, pool: P.MPool, ghost ks: seq<Entry>, ghost lo: nat)
      requires Ready(pool) && RepTable(store, page, ks, level, lo) && UnsharedAll(ks)
      requires page !in PagesOf(ks) && 0 !in PagesOf(ks) && page != 0
      modifies `store, pool.Repr
      ensures Ready(pool)
      ensures Total(Snap(pool)) == old(Total(Snap(pool)))
      ensures Freed(old(Snap(pool)), Snap(pool), {page} + PagesOf(ks))
      decreases level, 2
    {
      hide Total, P.MPool.Valid;
      DropKids(page, level, pool, ks, lo);
      ghost var m := Snap(pool);
      pool.Free(page);
      store := store - {page};
      FreedTwice(old(Snap(pool)), m, Snap(pool), PagesOf(ks), {page});
      FreedTotal(m, Snap(pool), {page});
      assert PagesOf(ks) + {page} == {page} + PagesOf(ks);
    }

    method DropKids(page: nat, level: nat, pool: P.MPool, ghost ks: seq<Entry>, ghost lo: nat)
      requires Ready(pool) && RepTable(store, page, ks, level, lo) && UnsharedAll(ks)
      requires page !in PagesOf(ks) && 0 !in PagesOf(ks)
      modifies `store, pool.Repr
      ensures Ready(pool)
      ensures Total(Snap(pool)) == old(Total(Snap(pool)))
      ensures page in store && page !in pool.avail
      ensures Freed(old(Snap(pool)), Snap(pool), PagesOf(ks))
      decreases level, 1
    {
      hide Total, P.MPool.Valid, PagesOf, Pages, Unshared;
      var i := 0;
      assert PagesOf(ks[..0]) == {} by { NoPages(); assert ks[..0] == []; }
      while i < |store[page]|
        invariant i <= |ks| && Ready(pool) && page in store && store[page] == old(store[page])
        invariant Total(Snap(pool)) == old(Total(Snap(pool)))
        invariant Freed(old(Snap(pool)), Snap(pool), PagesOf(ks[..i]))
        decreases |ks| - i
      {
        ghost var m := Snap(pool);
        DropNext(old(Snap(pool)), m, page, ks, i, level, lo);
        DropPte(store[page][i], level, pool, ks[i], EntryLo(lo, i, Size(level)));
        DropStep(old(Snap(pool)), m, Snap(pool), page, ks, i, level, lo);
        i := i + 1;
      }
      assert ks[..i] == ks;
    }

    /** Stores one descriptor and logs the store. */
    method WritePte(p: nat, i: nat, pte: Pte, ghost e': Entry, ghost level: nat, ghost lo: nat)
      returns (ghost ev: Event)
      requires p in store && i < |store[p]| && Rep(store, pte, e', level, lo)
      modifies `store
      ensures store == old(store)[p := old(store)[p][i := pte]]
      ensures ev == Write(lo, level, e')
    {
      store := store[p := store[p][i := pte]];
      ev := Write(lo, level, e');
    }

    /** Overwrites one descriptor. When both the old and the new one are valid the descriptor is
        first made absent and its range invalidated; the value then dropped is that placeholder,
        so a table overwritten by a valid block is not returned to the pool. */
    method Replace(p: nat, i: nat, newPte: Pte, begin: nat, level: nat, pool: P.MPool,
                   ghost e: Entry, ghost e': Entry, ghost lo: nat)
      returns (ghost evs: seq<Event>)
      requires Ready(pool) && SlotOk(store, p, i, e, level, lo)
      requires Rep(store, newPte, e', level, lo) && p !in Pages(e')
      modifies `store, pool.Repr
      ensures Ready(pool)
      ensures Total(Snap(pool)) == old(Total(Snap(pool)))
      ensures Written(old(Snap(pool)), Snap(pool), p, i, newPte, Dropped(e, e'))
      ensures evs == ReplaceEvents(e, e', level, lo, begin)
    {
      hide Total, P.MPool.Valid, Rep, Unshared, Pages, Size, WF, PagesOf, Freed, Written;
      RepValid(store, store[p][i], e, level, lo);
      RepValid(store, newPte, e', level, lo);
      RepPages(store, store[p][i], e, level, lo);
      AbsentRep(store, level, lo);
      ghost var was := store;
      ghost var old' := if IsValid(e) && IsValid(e') then Leaf(None) else e;
      ghost var ev;
      evs := [];
      if ValidPte(store[p][i]) && ValidPte(newPte) {
        ev := WritePte(p, i, Absent, Leaf(None), level, lo);
        evs := [ev, Invalidate(begin, begin + Size(level))];
        RepFrame(was, store, newPte, e', level, lo);
        StoredTwice(was, p, i, Absent, newPte);
      }
      var oldPte := store[p][i];
      ev := WritePte(p, i, newPte, e', level, lo);
      evs := evs + [ev];
      ghost var m := Snap(pool);
      RepFrame(was, store, oldPte, old', level, lo);
      DropPte(oldPte, level, pool, old', lo);
      WrittenFreed(old(Snap(pool)), m, Snap(pool), p, i, newPte, Dropped(e, e'));
      WrittenTotal(old(Snap(pool)), Snap(pool), p, i, newPte, Dropped(e, e'));
    }

    /** Fills a page with the descriptors that mean the same as `pte` did. */
    method NewTable(page: nat, pte: Pte, level: nat, ghost e: Entry, ghost lo: nat)
      requires level > 0 && page !in store && Rep(store, pte, e, level, lo) && e.Leaf?
      modifies `store
      ensures page in store && SplitPtes(store[page], e, level, lo)
      ensures store == old(store)[page := store[page]]
    {
      RepValid(store, pte, e, level, lo);
      var ptes: seq<Pte> := [];
      while |ptes| < PTE_PER_PAGE
        invariant |ptes| <= PTE_PER_PAGE
        invariant forall i | 0 <= i < |ptes| ::
          ptes[i] == if IsBlock(e, level) then Block(lo + i * Size(level - 1), e.raw.value) else Absent
      {
        var i := |ptes|;
        ptes := ptes + [if BlockPte(pte, level) then Block(pte.pa + i * Size(level - 1), pte.attrs) else Absent];
      }
      store := store[page := ptes];
    }

    /** Makes the descriptor point to a table, splitting a block if needed. Fails, changing nothing,
        only when the pool is empty. */
    method PopulateTable(p: nat, i: nat, begin: nat, level: nat, pool: P.MPool, ghost e: Entry, ghost lo: nat)
      returns (ok: bool, ghost e': Entry, ghost evs: seq<Event>)
      requires Ready(pool) && level > 0 && SlotOk(store, p, i, e, level, lo)
      modifies `store, pool.Repr
      ensures Ready(pool)
      ensures Total(Snap(pool)) == old(Total(Snap(pool)))
      ensures !ok ==> e' == e && !e.Table? && pool.avail == {}
      ensures ok ==> e'.Table? && e'.kids == Kids(e, level) && SplitOf(e, e', level)
      ensures |old(pool.avail)| == |pool.avail| + if ok && !e.Table? then 1 else 0
      ensures EntryPost(old(Snap(pool)), Snap(pool), p, i, e, e', level, lo, {})
      ensures evs == if e == e' then [] else ReplaceEvents(e, e', level, lo, begin)
    {
      hide Total, P.MPool.Valid, EntryPost, Written;
      RepValid(store, store[p][i], e, level, lo);
      RepPages(store, store[p][i], e, level, lo);
      EntryUnchanged(Snap(pool), p, i, e, level, lo);
      if store[p][i].Subtable? {
        return true, e, [];
      }
      var page := pool.Alloc();
      if page.None? {
        return false, e, [];
      }
      ok, e' := true, Table(page.value, Split(e, level));
      NewTable(page.value, store[p][i], level, e, lo);
      ghost var m := Snap(pool);
      AllocTotal(old(Snap(pool)), m, page.value);
      SplitWF(e, level);
      SplitRep(store, page.value, e, level, lo);
      RepFrame(old(store), store, store[p][i], e, level, lo);
      evs := Replace(p, i, Subtable(page.value), begin, level, pool, e, e', lo);
      Populated(old(Snap(pool)), m, Snap(pool), p, i, e, page.value, level, lo);
    }

    /** Whether all entries of a table are absent. */
    method IsEmpty(t: nat, ghost ks: seq<Entry>, level: nat, ghost lo: nat) returns (empty: bool)
      requires RepTable(store, t, ks, level, lo)
      ensures empty == AllAbsent(ks)
    {
      var i := 0;
      while i < |store[t]|
        invariant i <= |ks|
        invariant forall j | 0 <= j < i :: !IsPresent(ks[j])
      {
        RepValid(store, store[t][i], ks[i], level, EntryLo(lo, i, Size(level)));
        if PresentPte(store[t][i]) {
          assert ks[i] in ks;
          return false;
        }
        i := i + 1;
      }
      return true;
    }

    /** Writes an entry that lies wholly in the range, if committing. */
    method MapWhole(p: nat, i: nat, begin: nat, level: nat, commit: bool, pool: P.MPool, op: Op,
                    ghost e: Entry, ghost lo: nat)
      returns (ghost e': Entry, ghost evs: seq<Event>)
      requires Ready(pool) && SlotOk(store, p, i, e, level, lo)
      requires begin == lo && Overlaps(op, lo, level) && !Skip(op, e, level) && Whole(op, lo, level)
      modifies `store, pool.Repr
      ensures Ready(pool)
      ensures Total(Snap(pool)) == old(Total(Snap(pool)))
      ensures EntryPost(old(Snap(pool)), Snap(pool), p, i, e, e', level, lo, LostIn(commit, e, level, lo, op))
      ensures PassPost(true, e, e', level, lo, op, commit, |old(pool.avail)|, |pool.avail|)
      ensures Logged(evs, e, e', level, lo, op, commit)
      ensures Gap(evs, Cuts(e, level, lo, op), op, commit, |old(pool.avail)|)
    {
      hide Total, P.MPool.Valid, EntryPost, Written, Logged, Cuts;
      GapNothing(e, level, lo, op, commit, |pool.avail|);
      EntryUnchanged(Snap(pool), p, i, e, level, lo);
      e', evs := e, [];
      if commit {
        var newPte := if op.unmap then Absent else Block(begin, op.attrs);
        ghost var raw := if op.unmap then None else Some(op.attrs);
        e' := Leaf(raw);
        evs := Replace(p, i, newPte, begin, level, pool, e, e', lo);
        LeafWritten(old(Snap(pool)), Snap(pool), p, i, newPte, Dropped(e, e'), e, raw, level, lo);
        LogLeaf(e, raw, level, lo, op);
        assert Lost(e, level, lo, op) == Pages(e) - Dropped(e, e');
      } else {
        LogNothing(e, level, lo, op, commit);
      }
    }

    /** Handles one descriptor of a table (the body of the loop in `map_level`). */
    method MapEntry(p: nat, i: nat, begin: nat, level: nat, commit: bool, pool: P.MPool, op: Op,
                    ghost e: Entry, ghost lo: nat)
      returns (ok: bool, ghost e': Entry, ghost evs: seq<Event>)
      requires Ready(pool) && SlotOk(store, p, i, e, level, lo)
      requires WFOp(op) && lo % Size(level) == 0 && Overlaps(op, lo, level) && begin == Max(op.begin, lo)
      requires commit ==> Need(e, level, lo, op) == 0
      modifies `store, pool.Repr
      ensures Ready(pool)
      ensures Total(Snap(pool)) == old(Total(Snap(pool)))
      ensures EntryPost(old(Snap(pool)), Snap(pool), p, i, e, e', level, lo, LostIn(commit, e, level, lo, op))
      ensures PassPost(ok, e, e', level, lo, op, commit, |old(pool.avail)|, |pool.avail|) && (commit ==> ok)
      ensures Logged(evs, e, e', level, lo, op, commit)
      ensures Gap(evs, Cuts(e, level, lo, op), op, commit, |old(pool.avail)|)
      decreases level, 1
    {
      hide Total, P.MPool.Valid, EntryPost, Logged, Cuts, Gap;
      var pte := store[p][i];
      RepValid(store, pte, e, level, lo);
      WholeTest(op, lo, level, begin);
      if (op.unmap && !PresentPte(pte)) || (!op.unmap && BlockPte(pte, level) && pte.attrs == op.attrs) {
        EntryUnchanged(Snap(pool), p, i, e, level, lo);
        LogNothing(e, level, lo, op, commit);
        GapNothing(e, level, lo, op, commit, |pool.avail|);
        return true, e, [];
      }
      if op.end - begin >= Size(level) && (op.unmap || BlockAllowed(level)) && begin % Size(level) == 0 {
        e', evs := MapWhole(p, i, begin, level, commit, pool, op, e, lo);
        return true, e', evs;
      }
      if level == 0 { PageIsWhole(op, lo); }
      ok, e', evs := MapBelow(p, i, begin, level, commit, pool, op, e, lo);
    }

    /** Handles a descriptor that the range crosses: get or make its table, recurse, and drop the
        table again if unmapping emptied it. */
    method MapBelow(p: nat, i: nat, begin: nat, level: nat, commit: bool, pool: P.MPool, op: Op,
                    ghost e: Entry, ghost lo: nat)
      returns (ok: bool, ghost e': Entry, ghost evs: seq<Event>)
      requires Ready(pool) && SlotOk(store, p, i, e, level, lo)
      requires WFOp(op) && lo % Size(level) == 0 && begin == Max(op.begin, lo) && Partial(op, e, lo, level)
      requires commit ==> Need(e, level, lo, op) == 0
      modifies `store, pool.Repr
      ensures Ready(pool)
      ensures Total(Snap(pool)) == old(Total(Snap(pool)))
      ensures EntryPost(old(Snap(pool)), Snap(pool), p, i, e, e', level, lo, LostIn(commit, e, level, lo, op))
      ensures PassPost(ok, e, e', level, lo, op, commit, |old(pool.avail)|, |pool.avail|) && (commit ==> ok)
      ensures Logged(evs, e, e', level, lo, op, commit)
      ensures Gap(evs, Cuts(e, level, lo, op), op, commit, |old(pool.avail)|)
      decreases level, 0
    {
      hide Total, P.MPool.Valid, EntryPost, TablePost, TableOk, Logged, PassPost, PassPostKids, SplitOf, LostInKids,
        AllAbsent, Lost, Cuts, CutsUpTo, Missed;
      ok, e', evs := PopulateTable(p, i, begin, level, pool, e, lo);
      PopulateFacts(ok, old(Snap(pool)), Snap(pool), p, i, e, e', level, lo, op, commit, evs);
      if !ok {
        return;
      }
      ghost var m, evs0 := Snap(pool), evs;
      var t := store[p][i].page;
      ghost var ks', evs1;
      ok, ks', evs1 := MapLevel(t, begin, level - 1, commit, pool, op, e'.kids, lo);
      ghost var e1 := e';
      e', evs := Table(t, ks'), evs + evs1;
      BelowFacts(ok, old(Snap(pool)), m, Snap(pool), p, i, e, e1, ks', level, lo, op, commit, evs0, evs1);
      if ok && commit && op.unmap {
        var empty := IsEmpty(t, ks', level - 1, lo);
        if empty {
          ghost var m1, evs2, e2 := Snap(pool), evs, e';
          e' := Leaf(None);
          evs1 := Replace(p, i, Absent, begin, level, pool, e2, e', lo);
          evs := evs + evs1;
          CollapseFacts(old(Snap(pool)), m1, Snap(pool), p, i, e, e2, level, lo, op, evs2);
        }
      }
    }

    method MapLevel(t: nat, begin: nat, level: nat, commit: bool, pool: P.MPool, op: Op,
                    ghost ks: seq<Entry>, ghost lo: nat)
      returns (ok: bool, ghost cur: seq<Entry>, ghost evs: seq<Event>)
      requires Ready(pool) && TableOk(store, t, ks, level, lo)
      requires WFOp(op) && lo % Size(level + 1) == 0
      requires begin == Max(op.begin, lo) < lo + Size(level + 1) && begin < op.end
      requires commit ==> NeedFrom(ks, level, lo, op, 0) == 0
      modifies `store, pool.Repr
      ensures Ready(pool)
      ensures Total(Snap(pool)) == old(Total(Snap(pool)))
      ensures TablePost(old(Snap(pool)), Snap(pool), t, ks, cur, level, lo, LostInKids(commit, ks, level, lo, op))
      ensures PassPostKids(ok, ks, cur, level, lo, op, commit, |old(pool.avail)|, |pool.avail|) && (commit ==> ok)
      ensures Gap(evs, CutsUpTo(ks, level, lo, op, |ks|), op, commit, |old(pool.avail)|)
      ensures Logged(evs, Table(t, ks), Table(t, cur), level + 1, lo, op, commit)
      decreases level, 2
    {
      hide Total, P.MPool.Valid, TableOk, SlotOk, EntryPost, TablePost, Logged, PassPost, PassPostKids, Cursor,
        Outside, Run, Need, NeedFrom, Cuts, CutsUpTo, Gap, Overlaps;
      var i: nat, b: nat := Index(begin, level), begin;
      var cap := Min(op.end, LevelEnd(begin, level));
      CursorStart(op, level, lo, begin);
      cur, evs := ks, [];
      RunStart(Snap(pool), t, ks, i, level, lo, op, commit);
      while i < PTE_PER_PAGE && b < cap
        invariant Ready(pool) && Cursor(op, level, lo, begin, i, b) && i <= PTE_PER_PAGE &&
                  Total(Snap(pool)) == old(Total(Snap(pool)))
        invariant Run(old(Snap(pool)), Snap(pool), t, ks, cur, i, level, lo, op, commit, evs)
        decreases PTE_PER_PAGE - i
      {
        ghost var m := Snap(pool);
        CursorNext(op, level, lo, begin, i, b);
        RunNext(old(Snap(pool)), m, t, ks, cur, i, level, lo, op, commit, evs);
        ghost var e, evs1;
        ok, e, evs1 := MapEntry(t, i, b, level, commit, pool, op, ks[i], EntryLo(lo, i, Size(level)));
        RunStep(ok, old(Snap(pool)), m, Snap(pool), t, ks, cur, i, e, level, lo, op, commit, evs, evs1);
        cur, evs := cur[i := e], evs + evs1;
        if !ok {
          return;
        }
        i, b := i + 1, StartOfNextBlock(b, Size(level));
      }
      ok := true;
      CursorEnd(op, level, lo, begin, i, b);
      RunEnd(old(Snap(pool)), Snap(pool), t, ks, cur, i, level, lo, op, commit, evs);
    }

    /** Merges the tables below a descriptor into blocks where possible and returns the attributes of
        the block the descriptor now is. */
    method DefragPte(p: nat, i: nat, level: nat, pool: P.MPool, ghost e: Entry, ghost lo: nat) returns (r: Result<Raw>)
      requires Ready(pool) && SlotOk(store, p, i, e, level, lo)
      modifies `store, pool.Repr
      ensures Ready(pool) && WF(e, level) && r == DefragResult(e, level)
      ensures Total(Snap(pool)) == old(Total(Snap(pool)))
      ensures DefragPost(old(Snap(pool)), Snap(pool), p, i, e, level, lo)
      decreases level, 0
    {
      hide Total, P.MPool.Valid, EntryPost, TablePost, TableOk, KidsResult, Count, CountFrom;
      var pte := store[p][i];
      RepValid(store, pte, e, level, lo);
      EntryUnchanged(Snap(pool), p, i, e, level, lo);
      if BlockPte(pte, level) {
        return Ok(Some(pte.attrs));
      }
      if !pte.Subtable? {
        return Err;
      }
      SlotTable(store, p, i, e, level, lo);
      var all := DefragKids(pte.page, level - 1, pool, e.kids, lo);
      DefragKept(old(Snap(pool)), Snap(pool), p, i, e, level, lo);
      r := Merged(all, level);
      if r.Ok? {
        ghost var m := Snap(pool);
        MergePte(p, i, all.value, level, pool, e, lo);
        DefragMerged(old(Snap(pool)), m, Snap(pool), p, i, e, store[p][i], level, lo);
      }
    }

    /** Replaces a table whose entries are all the same leaf by that leaf. */
    method MergePte(p: nat, i: nat, raw: Raw, level: nat, pool: P.MPool, ghost e: Entry, ghost lo: nat)
      requires Ready(pool) && WF(e, level) && e.Table?
      requires SlotOk(store, p, i, Table(e.page, DefragAll(e.kids, level - 1)), level, lo)
      requires KidsResult(e.kids, level - 1) == Ok(raw) && Defragged(e, level).Leaf?
      modifies `store, pool.Repr
      ensures Ready(pool) && e.page !in old(pool.own)
      ensures Total(Snap(pool)) == old(Total(Snap(pool)))
      ensures p in store && i < |store[p]|
      ensures store[p][i] == if Defragged(e, level).raw.None? then Absent else Block(lo, Defragged(e, level).raw.value)
      ensures Written(old(Snap(pool)), Snap(pool), p, i, store[p][i], {e.page})
    {
      hide Total, P.MPool.Valid, KidsResult, Pages, PagesOf, Unshared, DefragResult;
      MergedFacts(e, level);
      ghost var ds := DefragAll(e.kids, level - 1);
      UniformKids(e.kids, level - 1, raw);
      MergeSlot(store, p, i, e.page, ds, level, lo);
      var t := store[p][i].page;
      pool.OwnAvailable();
      if !IsPresent(Leaf(raw)) {
        pool.Free(t);
        store := (store - {t})[p := store[p][i := Absent]];
      } else {
        FirstChild(store, t, ds, level - 1, lo, raw.value);
        var addr := store[t][0].pa;
        pool.Free(t);
        store := (store - {t})[p := store[p][i := Block(addr, raw.value)]];
      }
      WrittenTotal(old(Snap(pool)), Snap(pool), p, i, store[p][i], {t});
    }

    method DefragKids(t: nat, level: nat, pool: P.MPool, ghost ks: seq<Entry>, ghost lo: nat) returns (all: Result<Raw>)
      requires Ready(pool) && TableOk(store, t, ks, level, lo)
      modifies `store, pool.Repr
      ensures Ready(pool) && WFs(ks, level) && all == KidsResult(ks, level)
      ensures Total(Snap(pool)) == old(Total(Snap(pool)))
      ensures TablePost(old(Snap(pool)), Snap(pool), t, ks, DefragAll(ks, level), level, lo, {})
      ensures |pool.own| + CountFrom(DefragAll(ks, level), 0) == |old(pool.own)| + CountFrom(ks, 0)
      decreases level, 1
    {
      hide Total, P.MPool.Valid, DefragRun, DefragPost, TablePost, TableOk, SlotOk, KidsResult, DefragResult,
        CountFrom, WF;
      var i: nat := 0;
      all := Err;
      ghost var cur := ks;
      TableWF(store, t, ks, level, lo);
      DefragRunStart(Snap(pool), t, ks, level, lo);
      while i < PTE_PER_PAGE
        invariant i <= PTE_PER_PAGE && Ready(pool) && Total(Snap(pool)) == old(Total(Snap(pool)))
        invariant DefragRun(old(Snap(pool)), Snap(pool), t, ks, cur, i, level, lo)
        invariant i > 0 ==> all == KidsResult(ks[..i], level)
      {
        ghost var m := Snap(pool);
        DefragRunNext(old(Snap(pool)), m, t, ks, cur, i, level, lo);
        var r := DefragPte(t, i, level, pool, ks[i], EntryLo(lo, i, Size(level)));
        DefragRunStep(old(Snap(pool)), m, Snap(pool), t, ks, cur, i, level, lo);
        if i == 0 {
          ReduceFirst(ks, level);
          all := r;
        } else {
          ReduceStep(ks, level, i, all);
          all := if all == r then all else Err;
        }
        cur := cur[i := Defragged(ks[i], level)];
        i := i + 1;
      }
      DefragRunEnd(old(Snap(pool)), Snap(pool), t, ks, cur, level, lo);
      assert ks[..i] == ks;
    }

    // ---- From the root -----------------------------------------------------------------------

    /** One pass over all root tables. */
    method MapRoot(op: Op, commit: bool, pool: P.MPool) returns (ok: bool, ghost cur: seq<Entry>, ghost evs: seq<Event>)
      requires Valid() && Ready(pool) && WFOp(op) && op.begin <= End()
      requires commit ==> RootNeed(tops, maxLevel, op, 0) == 0
      modifies `store, pool.Repr
      ensures Ready(pool) && RootOk(store, root, cur, maxLevel)
      ensures Total(Snap(pool)) == old(Total(Snap(pool)))
      ensures RootPost(old(Snap(pool)), Snap(pool), root, tops, cur, maxLevel,
                       if commit then RootLost(tops, maxLevel, op, |tops|) else {})
      ensures RootPass(ok, tops, cur, maxLevel, op, commit, |old(pool.avail)|, |pool.avail|) && (commit ==> ok)
      ensures Gap(evs, CutsUpTo(tops, maxLevel + 1, 0, op, |tops|), op, commit, |old(pool.avail)|)
      ensures RootLogged(evs, tops, cur, maxLevel, op, commit)
    {
      hide Total, P.MPool.Valid, RootRun, RootCursor, RootNeed, RootOk, RootPost, RootPass, RootLogged, RootOutside,
        Logged, TablePost, PassPostKids, TableOk, CutsUpTo, Gap;
      var i: nat, b: nat := Index(op.begin, maxLevel + 1), op.begin;
      RootCursorStart(op, maxLevel, count);
      cur, evs := tops, [];
      RootRunStart(Snap(pool), root, tops, i, maxLevel, op, commit);
      while i < count && b < op.end
        invariant Ready(pool) && i <= count && RootCursor(op, maxLevel, i, b) &&
                  Total(Snap(pool)) == old(Total(Snap(pool)))
        invariant RootRun(old(Snap(pool)), Snap(pool), root, tops, cur, i, maxLevel, op, commit, evs)
        decreases count - i
      {
        ghost var m := Snap(pool);
        RootCursorNext(op, maxLevel, i, b);
        RootRunNext(old(Snap(pool)), m, root, tops, cur, i, maxLevel, op, commit, evs);
        ghost var ks, evs1;
        ok, ks, evs1 := MapLevel(root + i, b, maxLevel, commit, pool, op, tops[i].kids, RootLo(i, maxLevel));
        RootRunStep(ok, old(Snap(pool)), m, Snap(pool), root, tops, cur, i, ks, maxLevel, op, commit, evs, evs1);
        cur, evs := cur[i := Table(root + i, ks)], evs + evs1;
        if !ok {
          return;
        }
        i, b := i + 1, StartOfNextBlock(b, Size(maxLevel + 1));
      }
      ok := true;
      RootCursorEnd(op, maxLevel, i, b, count);
      RootRunEnd(old(Snap(pool)), Snap(pool), root, tops, cur, i, maxLevel, op, commit, evs);
    }

    /** Maps or unmaps `[begin, end)`, rounded out to pages and clamped to the address space, in two
        passes: the first prepares the tables and may fail, the second commits and cannot. */
    method IdentityUpdate(begin: nat, end: nat, attrs: Attrs, unmap: bool, pool: P.MPool)
      returns (ok: bool, ghost mid: seq<Entry>, ghost evs1: seq<Event>, ghost evs2: seq<Event>)
      requires Valid() && Ready(pool) && ClearPa(begin) <= End()
      modifies `store, `tops, pool.Repr
      ensures Valid() && Ready(pool)
      ensures Total(Snap(pool)) == old(Total(Snap(pool)))
      ensures Updated(ok, old(Snap(pool)), Snap(pool), old(tops), mid, tops, maxLevel,
                      Request(begin, end, attrs, unmap), evs1, evs2)
    {
      hide Total, P.MPool.Valid, RootOk, RootPass, RootLogged, RootLost, RootNeed, RootPost, Updated, ClearPa, Request,
        CutsUpTo, Gap, Tables, PagesOf, WF, WFOp;
      var op := MakeRequest(begin, end, attrs, unmap);
      RootFacts(store, root, tops, maxLevel);
      ok, mid, evs1 := MapRoot(op, false, pool);
      RootPostFacts(old(Snap(pool)), Snap(pool), root, tops, mid, maxLevel, {});
      tops, evs2 := mid, [];
      ghost var m := Snap(pool);
      if ok {
        PassNeeds(old(tops), mid, maxLevel, op, |old(pool.avail)|, |pool.avail|);
        ghost var fin;
        ok, fin, evs2 := MapRoot(op, true, pool);
        RootPostFacts(m, Snap(pool), root, tops, fin, maxLevel, RootLost(mid, maxLevel, op, |mid|));
        tops := fin;
        UpdatedIntro(old(Snap(pool)), m, Snap(pool), root, old(tops), mid, fin, maxLevel, op, evs1, evs2);
        evs2 := evs2 + [Invalidate(op.begin, op.end)];
      } else {
        UpdateFailed(old(Snap(pool)), m, root, old(tops), mid, maxLevel, op, evs1);
      }
    }

    /** Maps a range with a mode. */
    method IdentityMap(begin: nat, end: nat, mode: Mode, pool: P.MPool)
      returns (ok: bool, ghost mid: seq<Entry>, ghost evs1: seq<Event>, ghost evs2: seq<Event>)
      requires Valid() && Ready(pool) && ClearPa(begin) <= End()
      modifies `store, `tops, pool.Repr
      ensures Valid() && Ready(pool)
      ensures Total(Snap(pool)) == old(Total(Snap(pool)))
      ensures Updated(ok, old(Snap(pool)), Snap(pool), old(tops), mid, tops, maxLevel,
                      Request(begin, end, ToAttrs(mode), false), evs1, evs2)
    {
      hide *;
      ok, mid, evs1, evs2 := IdentityUpdate(begin, end, ToAttrs(mode), false, pool);
    }

    /** Cuts every connection between a range and the VM. */
    method Unmap(begin: nat, end: nat, pool: P.MPool)
      returns (ok: bool, ghost mid: seq<Entry>, ghost evs1: seq<Event>, ghost evs2: seq<Event>)
      requires Valid() && Ready(pool) && ClearPa(begin) <= End()
      modifies `store, `tops, pool.Repr
      ensures Valid() && Ready(pool)
      ensures Total(Snap(pool)) == old(Total(Snap(pool)))
      ensures Updated(ok, old(Snap(pool)), Snap(pool), old(tops), mid, tops, maxLevel,
                      Request(begin, end, ToAttrs(UNRELATED), true), evs1, evs2)
    {
      hide *;
      ok, mid, evs1, evs2 := IdentityUpdate(begin, end, ToAttrs(UNRELATED), true, pool);
    }

    method MakeRequest(begin: nat, end: nat, attrs: Attrs, unmap: bool) returns (op: Op)
      ensures op == Request(begin, end, attrs, unmap) && WFOp(op) && op.begin == ClearPa(begin)
    {
      EntryLoIsMul(0, count, Size(maxLevel + 1));
      op := Op(ClearPa(begin), Min(RoundUpToPage(end), count * Size(maxLevel + 1)), attrs, unmap);
      RootAligned(count, maxLevel);
      PageMultiple(End(), maxLevel + 1);
    }

    /** The page range an update request stands for. */
    ghost function Request(begin: nat, end: nat, attrs: Attrs, unmap: bool): Op {
      Op(ClearPa(begin), Min(RoundUpToPage(end), End()), attrs, unmap)
    }

    /** Merges tables into blocks wherever possible; every page freed joins the pool's own pages. */
    method Defrag(pool: P.MPool)
      requires Valid() && Ready(pool)
      modifies `store, `tops, pool.Repr
      ensures Valid() && Ready(pool)
      ensures Total(Snap(pool)) == old(Total(Snap(pool)))
      ensures Tables(old(tops), maxLevel) && Tables(tops, maxLevel) && RootDefrag(old(tops), tops, maxLevel)
      ensures Balanced(old(pool.avail), PagesOf(old(tops)), pool.avail, PagesOf(tops), {})
      ensures |pool.own| + CountFrom(tops, 0) == |old(pool.own)| + CountFrom(old(tops), 0)
    {
      hide Total, P.MPool.Valid, RootDefragRun, RootOk, TableOk, TablePost, RootDefrag, Balanced, CountFrom, WFs, WF;
      var k: nat := 0;
      ghost var cur := tops;
      RootDefragStart(Snap(pool), root, tops, maxLevel);
      while k < count
        invariant k <= count && Ready(pool) && Total(Snap(pool)) == old(Total(Snap(pool)))
        invariant RootDefragRun(old(Snap(pool)), Snap(pool), root, old(tops), cur, k, maxLevel)
        invariant tops == old(tops)
      {
        ghost var m := Snap(pool);
        RootDefragNext(old(Snap(pool)), m, root, tops, cur, k, maxLevel);
        var _ := DefragKids(root + k, maxLevel, pool, tops[k].kids, RootLo(k, maxLevel));
        RootDefragStep(old(Snap(pool)), m, Snap(pool), root, tops, cur, k, maxLevel);
        cur := cur[k := Table(root + k, DefragAll(tops[k].kids, maxLevel))];
        k := k + 1;
      }
      RootDefragEnd(old(Snap(pool)), Snap(pool), root, tops, cur, maxLevel);
      tops := cur;
    }
  }
}
