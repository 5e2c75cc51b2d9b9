/** How the steps of one pass of `map_level` add up: from one descriptor to its entry, from the
    entries of a table to the table. */
module Passes {
  import opened Common
  import opened Geometry
  import opened Entries
  import opened Footprint
  import opened Layout
  import opened Stores
  import opened Tlb

  predicate ValidPte(pte: Pte) {
    match pte
    case Absent => false
    case Block(_, a) => Valid(a)
    case Subtable(_) => true
  }

  predicate PresentPte(pte: Pte) {
    match pte
    case Absent => false
    case Block(_, a) => Present(a)
    case Subtable(_) => true
  }

  predicate BlockPte(pte: Pte, level: nat) {
    BlockAllowed(level) && pte.Block? && (level == 0 || Present(pte.attrs))
  }

  /** The pages `replace` returns to the pool. */
  ghost function Dropped(e: Entry, e': Entry): set<nat> {
    if IsValid(e) && IsValid(e') then {} else Pages(e)
  }

  lemma RepValid(store: Store, pte: Pte, e: Entry, level: nat, lo: nat)
    requires Rep(store, pte, e, level, lo)
    ensures ValidPte(pte) == IsValid(e) && PresentPte(pte) == IsPresent(e)
    ensures BlockPte(pte, level) == IsBlock(e, level) && pte.Subtable? == e.Table?
    ensures pte.Block? ==> e == Leaf(Some(pte.attrs)) && pte.pa == lo
    ensures pte.Absent? ==> e == Leaf(None)
  {
  }

  lemma AbsentRep(store: Store, level: nat, lo: nat)
    ensures Rep(store, Absent, Leaf(None), level, lo) && Unshared(Leaf(None)) && Pages(Leaf(None)) == {}
  {
  }

  /** What a pass over the entries of a table has achieved before entry `i`. */
  ghost predicate Run(m: Mem, m1: Mem, t: nat, ks: seq<Entry>, cur: seq<Entry>, i: nat, level: nat, lo: nat, op: Op,
                      commit: bool, evs: seq<Event>) {
    && i <= |ks| == PTE_PER_PAGE
    && TableOk(m.store, t, ks, level, lo) && m.avail !! m.store.Keys
    && TablePost(m, m1, t, ks, cur, level, lo, if commit then LostTo(ks, level, lo, op, i) else {})
    && Progress(ks, cur, i, level, lo, op, commit, |m.avail|, |m1.avail|)
    && Logged(evs, Table(t, ks), Table(t, cur), level + 1, lo, op, commit)
    && Left(evs, EntryLo(lo, i, Size(level)))
    && Gap(evs, CutsUpTo(ks, level, lo, op, i), op, commit, |m.avail|)
  }

  /** Only the first entry that the range overlaps can be crossed by the start of the range. */
  lemma CutsOnce(ks: seq<Entry>, level: nat, lo: nat, op: Op, i: nat)
    requires WFs(ks, level) && i < |ks| && Overlaps(op, EntryLo(lo, i, Size(level)), level)
    ensures CutsUpTo(ks, level, lo, op, i + 1) == CutsUpTo(ks, level, lo, op, |ks|)
  {
    forall j | i < j < |ks| && Cuts(ks[j], level, EntryLo(lo, j, Size(level)), op) ensures false {
      CutsStart(ks[j], level, EntryLo(lo, j, Size(level)), op);
      EntryLoOrder(lo, i, j, Size(level));
    }
  }

  lemma OutsideNotCut(ks: seq<Entry>, level: nat, lo: nat, op: Op, i: nat, j: nat)
    requires WFs(ks, level) && i <= j <= |ks| && Outside(op, level, lo, i, j)
    ensures CutsUpTo(ks, level, lo, op, i) == CutsUpTo(ks, level, lo, op, j)
  {
    forall k | i <= k < j && Cuts(ks[k], level, EntryLo(lo, k, Size(level)), op) ensures false {
      CutsStart(ks[k], level, EntryLo(lo, k, Size(level)), op);
    }
  }

  /** The pool is still as it was when the crossed entry comes. */
  lemma CutFirst(ks: seq<Entry>, cur: seq<Entry>, i: nat, level: nat, lo: nat, op: Op, had: nat, mid: nat)
    requires WFs(ks, level) && i < |ks| && Cuts(ks[i], level, EntryLo(lo, i, Size(level)), op)
    requires Progress(ks, cur, i, level, lo, op, false, had, mid)
    ensures had == mid
  {
    CutsStart(ks[i], level, EntryLo(lo, i, Size(level)), op);
    forall k | 0 <= k < i ensures !Overlaps(op, EntryLo(lo, k, Size(level)), level) {
      EntryLoOrder(lo, k, i, Size(level));
    }
    OutsideNeedsNothing(ks, level, lo, op, 0, i);
  }

  lemma GapNext(xs: seq<Event>, ys: seq<Event>, ks: seq<Entry>, cur: seq<Entry>, i: nat, level: nat, lo: nat, op: Op,
                commit: bool, had: nat, mid: nat)
    requires WFs(ks, level) && i < |ks| && Overlaps(op, EntryLo(lo, i, Size(level)), level)
    requires Progress(ks, cur, i, level, lo, op, commit, had, mid)
    requires Gap(xs, CutsUpTo(ks, level, lo, op, i), op, commit, had)
    requires Gap(ys, Cuts(ks[i], level, EntryLo(lo, i, Size(level)), op), op, commit, mid)
    ensures Gap(xs + ys, CutsUpTo(ks, level, lo, op, i + 1), op, commit, had)
    ensures Gap(xs + ys, CutsUpTo(ks, level, lo, op, |ks|), op, commit, had)
  {
    hide Missed, Cuts, Progress, Overlaps;
    MissedConcat(xs, ys, op);
    CutsOnce(ks, level, lo, op, i);
    if !commit && Cuts(ks[i], level, EntryLo(lo, i, Size(level)), op) {
      CutFirst(ks, cur, i, level, lo, op, had, mid);
    }
  }

  lemma RunStart(m: Mem, t: nat, ks: seq<Entry>, i: nat, level: nat, lo: nat, op: Op, commit: bool)
    requires TableOk(m.store, t, ks, level, lo) && m.avail !! m.store.Keys
    requires i < PTE_PER_PAGE && Outside(op, level, lo, 0, i)
    ensures Run(m, m, t, ks, ks, i, level, lo, op, commit, [])
  {
    hide Progress, TablePost, Outside, LostTo, Cuts, Faithful;
    OutsideNotCut(ks, level, lo, op, 0, i);
    ProgressStart(ks, i, level, lo, op, commit, |m.avail|);
    TableUnchanged(m, t, ks, level, lo);
    assert WF(Table(t, ks), level + 1);
    LogNothing(Table(t, ks), level + 1, lo, op, commit);
  }

  /** The next entry of a table is still as it was before the pass. */
  lemma RunNext(m: Mem, m1: Mem, t: nat, ks: seq<Entry>, cur: seq<Entry>, i: nat, level: nat, lo: nat, op: Op,
                commit: bool, evs: seq<Event>)
    requires i < PTE_PER_PAGE && Run(m, m1, t, ks, cur, i, level, lo, op, commit, evs)
    requires commit ==> NeedFrom(ks, level, lo, op, 0) == 0
    ensures |ks| == PTE_PER_PAGE && WF(ks[i], level)
    ensures SlotOk(m1.store, t, i, ks[i], level, EntryLo(lo, i, Size(level)))
    ensures commit ==> Need(ks[i], level, EntryLo(lo, i, Size(level)), op) == 0
  {
    hide LostTo, Logged, WF;
    TableSlot(m1.store, t, cur, i, level, lo);
    if commit {
      NeedFromZero(ks, level, lo, op, 0, i);
    }
  }

  lemma RunStep(ok: bool, m: Mem, m1: Mem, m2: Mem, t: nat, ks: seq<Entry>, cur: seq<Entry>, i: nat, e: Entry,
                level: nat, lo: nat, op: Op, commit: bool, evs: seq<Event>, evs1: seq<Event>)
    requires i < PTE_PER_PAGE && Run(m, m1, t, ks, cur, i, level, lo, op, commit, evs)
    requires m1.avail !! m1.store.Keys && WF(ks[i], level)
    requires EntryPost(m1, m2, t, i, ks[i], e, level, EntryLo(lo, i, Size(level)),
                       LostIn(commit, ks[i], level, EntryLo(lo, i, Size(level)), op))
    requires PassPost(ok, ks[i], e, level, EntryLo(lo, i, Size(level)), op, commit, |m1.avail|, |m2.avail|)
    requires Logged(evs1, ks[i], e, level, EntryLo(lo, i, Size(level)), op, commit)
    requires Overlaps(op, EntryLo(lo, i, Size(level)), level)
    requires Gap(evs1, Cuts(ks[i], level, EntryLo(lo, i, Size(level)), op), op, commit, |m1.avail|)
    ensures i < |cur|
    ensures !ok ==> Gap(evs + evs1, CutsUpTo(ks, level, lo, op, |ks|), op, commit, |m.avail|)
    ensures Logged(evs + evs1, Table(t, ks), Table(t, cur[i := e]), level + 1, lo, op, commit)
    ensures ok ==> Run(m, m2, t, ks, cur[i := e], i + 1, level, lo, op, commit, evs + evs1)
    ensures !ok ==> PassPostKids(false, ks, cur[i := e], level, lo, op, commit, |m.avail|, |m2.avail|)
    ensures !ok ==> TablePost(m, m2, t, ks, cur[i := e], level, lo, LostInKids(commit, ks, level, lo, op))
  {
    hide TablePost, TableOk, EntryPost, LostTo, Lost, Logged, WF, PassPostKids, PassPost, Gap, Left, Cuts, CutsUpTo,
      Progress, Overlaps;
    var from := EntryLo(lo, i, Size(level));
    ProgressAt(ks, cur, i, level, lo, op, commit, |m.avail|, |m1.avail|);
    TableWF(m.store, t, ks, level, lo);
    LostNext(ks, level, lo, op, i);
    LogNext(evs, evs1, t, ks, cur, i, e, level, lo, op, commit);
    GapNext(evs, evs1, ks, cur, i, level, lo, op, commit, |m.avail|, |m1.avail|);
    ProgressStep(ok, ks, cur, i, e, level, lo, op, commit, |m.avail|, |m1.avail|, |m2.avail|);
    TableNext(m, m1, m2, t, ks, cur, i, e, level, lo,
              if commit then LostTo(ks, level, lo, op, i) else {}, LostIn(commit, ks[i], level, from, op));
    if !ok { FailsEarly(ks[i], e, level, from, op, commit, |m1.avail|, |m2.avail|); }
    ghost var none: set<nat> := {};
    assert none + none == none;
  }

  lemma ProgressAt(ks: seq<Entry>, cur: seq<Entry>, i: nat, level: nat, lo: nat, op: Op, commit: bool, had: nat,
                   has: nat)
    requires Progress(ks, cur, i, level, lo, op, commit, had, has) && i < |ks|
    ensures |cur| == |ks| && cur[i] == ks[i]
  {
    hide Commit, Need, Prepared;
  }

  lemma FailsEarly(e: Entry, e': Entry, level: nat, lo: nat, op: Op, commit: bool, had: nat, has: nat)
    requires PassPost(false, e, e', level, lo, op, commit, had, has)
    ensures !commit
  {
  }

  lemma RunEnd(m: Mem, m1: Mem, t: nat, ks: seq<Entry>, cur: seq<Entry>, i: nat, level: nat, lo: nat, op: Op,
               commit: bool, evs: seq<Event>)
    requires Run(m, m1, t, ks, cur, i, level, lo, op, commit, evs) && Outside(op, level, lo, i, PTE_PER_PAGE)
    ensures TablePost(m, m1, t, ks, cur, level, lo, LostInKids(commit, ks, level, lo, op))
    ensures PassPostKids(true, ks, cur, level, lo, op, commit, |m.avail|, |m1.avail|)
    ensures Logged(evs, Table(t, ks), Table(t, cur), level + 1, lo, op, commit)
    ensures Gap(evs, CutsUpTo(ks, level, lo, op, |ks|), op, commit, |m.avail|)
  {
    hide Progress, TablePost, Outside, LostTo, PassPostKids, Logged, WF, Cuts;
    OutsideNotCut(ks, level, lo, op, i, |ks|);
    ProgressEnd(ks, cur, i, level, lo, op, commit, |m.avail|, |m1.avail|);
  }

  lemma PopulateFacts(ok: bool, m: Mem, m1: Mem, p: nat, i: nat, e: Entry, e': Entry, level: nat, lo: nat, op: Op,
                      commit: bool, evs: seq<Event>)
    requires Partial(op, e, lo, level) && WF(e, level)
    requires EntryPost(m, m1, p, i, e, e', level, lo, {})
    requires commit ==> Need(e, level, lo, op) == 0
    requires !ok ==> e' == e && !e.Table? && m.avail == m1.avail == {}
    requires ok ==> e'.Table? && e'.kids == Kids(e, level) && SplitOf(e, e', level)
    requires |m.avail| == |m1.avail| + if ok && !e.Table? then 1 else 0
    requires evs == if e == e' then [] else ReplaceEvents(e, e', level, lo, Max(op.begin, lo))
    ensures p in m1.store && i < |m1.store[p]| && (ok && e.Table? ==> e' == e)
    ensures ok ==>
              level > 0 && m1.store[p][i] == Subtable(e'.page) && TableOk(m1.store, e'.page, e'.kids, level - 1, lo)
    ensures commit ==> ok && evs == [] && NeedFrom(e'.kids, level - 1, lo, op, 0) == 0
    ensures !ok ==> PassPost(ok, e, e', level, lo, op, commit, |m.avail|, |m1.avail|)
    ensures Logged(evs, e, e', level, lo, op, commit)
    ensures if ok && e.Table? then evs == [] else Gap(evs, Cuts(e, level, lo, op), op, commit, |m.avail|)
  {
    if ok {
      SlotTable(m1.store, p, i, e', level, lo);
    }
    if e == e' {
      LogNothing(e, level, lo, op, commit);
    } else {
      LogSplit(e, e', level, lo, op);
      GapSplit(e, e', level, lo, op, commit, |m.avail|, Max(op.begin, lo));
    }
  }

  lemma BelowFacts(ok: bool, m: Mem, m1: Mem, m2: Mem, p: nat, i: nat, e: Entry, e1: Entry, ks': seq<Entry>,
                   level: nat, lo: nat, op: Op, commit: bool, evs0: seq<Event>, evs1: seq<Event>)
    requires m.avail !! m.store.Keys && m1.avail !! m1.store.Keys
    requires Partial(op, e, lo, level) && WF(e, level) && (commit ==> Need(e, level, lo, op) == 0)
    requires e1.Table? && e1.kids == Kids(e, level) && (e.Table? ==> e1 == e) && WF(e1, level) && SplitOf(e, e1, level)
    requires EntryPost(m, m1, p, i, e, e1, level, lo, {})
    requires TablePost(m1, m2, e1.page, e1.kids, ks', level - 1, lo, LostInKids(commit, e1.kids, level - 1, lo, op))
    requires PassPostKids(ok, e1.kids, ks', level - 1, lo, op, commit, |m1.avail|, |m2.avail|)
    requires |m.avail| == |m1.avail| + if e.Table? then 0 else 1
    requires Logged(evs0, e, e1, level, lo, op, commit) && (commit ==> evs0 == [])
    requires Logged(evs1, e1, Table(e1.page, ks'), level, lo, op, commit)
    requires if e.Table? then evs0 == [] else Gap(evs0, Cuts(e, level, lo, op), op, commit, |m.avail|)
    requires Gap(evs1, CutsUpTo(e1.kids, level - 1, lo, op, |e1.kids|), op, commit, |m1.avail|)
    ensures EntryPost(m, m2, p, i, e, Table(e1.page, ks'), level, lo, LostIn(commit, e, level, lo, op))
    ensures SlotOk(m2.store, p, i, Table(e1.page, ks'), level, lo)
    ensures RepTable(m2.store, e1.page, ks', level - 1, lo)
    ensures PassPost(ok, e, if commit && op.unmap && AllAbsent(ks') then Leaf(None) else Table(e1.page, ks'),
                     level, lo, op, commit, |m.avail|, |m2.avail|)
    ensures Logged(evs0 + evs1, e, Table(e1.page, ks'), level, lo, op, commit)
    ensures Gap(evs0 + evs1, Cuts(e, level, lo, op), op, commit, |m.avail|)
    ensures commit ==> ok
  {
    hide EntryPost, TablePost, PassPost, PassPostKids, Logged, SplitOf, WF, Need, SlotOk, RepTable, Lost, LostTo,
      LostIn, LostInKids, Gap, Cuts, CutsUpTo;
    KidsWF(e, level);
    GapBelow(evs0, evs1, e, e1, level, lo, op, commit, |m.avail|, |m1.avail|);
    BelowPass(ok, e, e1, ks', level, lo, op, commit, |m.avail|, |m1.avail|, |m2.avail|);
    LogBelow(evs0, evs1, e, e1, Table(e1.page, ks'), level, lo, op, commit);
    BelowMem(m, m1, m2, p, i, e, e1, ks', level, lo, LostInKids(commit, e1.kids, level - 1, lo, op));
  }

  lemma BelowMem(m: Mem, m1: Mem, m2: Mem, p: nat, i: nat, e: Entry, e1: Entry, ks': seq<Entry>, level: nat, lo: nat,
                 lost: set<nat>)
    requires m.avail !! m.store.Keys && m1.avail !! m1.store.Keys && e1.Table? && level > 0
    requires EntryPost(m, m1, p, i, e, e1, level, lo, {})
    requires TablePost(m1, m2, e1.page, e1.kids, ks', level - 1, lo, lost)
    ensures EntryPost(m, m2, p, i, e, Table(e1.page, ks'), level, lo, lost)
    ensures SlotOk(m2.store, p, i, Table(e1.page, ks'), level, lo)
    ensures RepTable(m2.store, e1.page, ks', level - 1, lo)
  {
    var e2 := Table(e1.page, ks');
    assert TableOk(m2.store, e1.page, ks', level - 1, lo);
    hide Changed, Balanced, ChangedBelow, Rep, RepTable, Unshared, WF;
    TableBelow(m1, m2, p, i, e1.page, e1.kids, ks', level, lo, lost);
    EntryTwice(m, m1, m2, p, i, e, e1, e2, level, lo, {}, lost);
    assert {} + lost == lost;
  }

  lemma BelowPass(ok: bool, e: Entry, e1: Entry, ks': seq<Entry>, level: nat, lo: nat, op: Op, commit: bool, had: nat,
                  mid: nat, has: nat)
    requires Partial(op, e, lo, level) && WF(e, level) && (commit ==> Need(e, level, lo, op) == 0)
    requires e1.Table? && e1.kids == Kids(e, level) && (e.Table? ==> e1 == e)
    requires PassPostKids(ok, e1.kids, ks', level - 1, lo, op, commit, mid, has)
    requires had == mid + if e.Table? then 0 else 1
    ensures PassPost(ok, e, if commit && op.unmap && AllAbsent(ks') then Leaf(None) else Table(e1.page, ks'),
                     level, lo, op, commit, had, has)
    ensures LostIn(commit, e, level, lo, op) == LostInKids(commit, e1.kids, level - 1, lo, op)
    ensures commit ==> ok
  {
    if commit {
      PreparedPartial(e, level, lo, op);
    } else {
      KidsWF(e, level);
      PassBelow(ok, e, e1.page, ks', level, lo, op, had, mid, has);
    }
    LostBelow(e, level, lo, op, commit);
  }

  lemma CollapseFacts(m: Mem, m1: Mem, m2: Mem, p: nat, i: nat, e: Entry, e2: Entry, level: nat, lo: nat, op: Op,
                      evs: seq<Event>)
    requires m.avail !! m.store.Keys && m1.avail !! m1.store.Keys && WF(e, level)
    requires EntryPost(m, m1, p, i, e, e2, level, lo, LostIn(true, e, level, lo, op)) && op.unmap
    requires Written(m1, m2, p, i, Absent, Dropped(e2, Leaf(None)))
    requires Logged(evs, e, e2, level, lo, op, true)
    requires PassPost(true, e, Leaf(None), level, lo, op, true, |m.avail|, |m1.avail|)
    ensures PassPost(true, e, Leaf(None), level, lo, op, true, |m.avail|, |m2.avail|)
    ensures EntryPost(m, m2, p, i, e, Leaf(None), level, lo, LostIn(true, e, level, lo, op))
    ensures Logged(evs + ReplaceEvents(e2, Leaf(None), level, lo, Max(op.begin, lo)), e, Leaf(None), level, lo, op,
                   true)
  {
    LogCollapse(evs, e, e2, level, lo, op);
    assert SlotOk(m1.store, p, i, e2, level, lo);
    hide Logged, SlotOk, Written;
    LeafWritten(m1, m2, p, i, Absent, Dropped(e2, Leaf(None)), e2, None, level, lo);
    assert Pages(e2) - Dropped(e2, Leaf(None)) == {};
    EntryTwice(m, m1, m2, p, i, e, e2, Leaf(None), level, lo, {}, {});
    assert {} + {} == LostIn(true, e, level, lo, op);
  }

  lemma LostNext(ks: seq<Entry>, level: nat, lo: nat, op: Op, i: nat)
    requires i < |ks|
    ensures LostTo(ks, level, lo, op, i + 1) ==
            LostTo(ks, level, lo, op, i) + Lost(ks[i], level, EntryLo(lo, i, Size(level)), op)
  {
  }

  lemma NoPages()
    ensures PagesOf([]) == {}
  {
  }
}
