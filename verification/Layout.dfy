/** How writing one descriptor, one entry and one table combine: pure facts about memory snapshots
    that the in-place engine chains together. */
module Layout {
  import opened Common
  import opened Geometry
  import opened Entries
  import opened Rollback
  import opened Footprint

  /** Descriptor `i` of table `p` was overwritten and the pages in `x` were returned to the pool. */
  ghost predicate Written(m: Mem, m': Mem, p: nat, i: nat, pte: Pte, x: set<nat>) {
    && p in m.store && i < |m.store[p]|
    && m'.store == (m.store - x)[p := m.store[p][i := pte]]
    && m'.own == m.own + x && m'.avail == m.avail + x
  }

  lemma StoredTwice(store: Store, p: nat, i: nat, x: Pte, y: Pte)
    requires p in store && i < |store[p]|
    ensures var s := store[p := store[p][i := x]]; s[p := s[p][i := y]] == store[p := store[p][i := y]]
  {
    assert store[p][i := x][i := y] == store[p][i := y];
  }

  /** A store followed by freeing other pages. */
  lemma WrittenFreed(m: Mem, m1: Mem, m': Mem, p: nat, i: nat, pte: Pte, x: set<nat>)
    requires p in m.store && i < |m.store[p]| && p !in x
    requires m1 == m.(store := m.store[p := m.store[p][i := pte]]) && Freed(m1, m', x)
    ensures Written(m, m', p, i, pte, x)
  {
    assert m'.store == (m.store - x)[p := m.store[p][i := pte]];
  }

  lemma WrittenTotal(m: Mem, m': Mem, p: nat, i: nat, pte: Pte, x: set<nat>)
    requires Written(m, m', p, i, pte, x) && x <= m.store.Keys
    ensures Total(m') == Total(m)
  {
  }

  /** Entry `i` of table `p` and everything below it went from `e` to `e'`, nothing else changed, and
      every page is accounted for. */
  ghost predicate EntryPost(m: Mem, m': Mem, p: nat, i: nat, e: Entry, e': Entry, level: nat, lo: nat, lost: set<nat>) {
    && Changed(m.store, m'.store, p, i, e, e')
    && SlotOk(m'.store, p, i, e', level, lo)
    && Balanced(m.avail, Pages(e), m'.avail, Pages(e'), lost)
  }

  ghost predicate TablePost(m: Mem, m': Mem, t: nat, ks: seq<Entry>, ks': seq<Entry>, level: nat, lo: nat,
                            lost: set<nat>) {
    && TableOk(m'.store, t, ks', level, lo) && |ks'| == |ks|
    && ChangedBelow(m.store, m'.store, t, PagesOf(ks), PagesOf(ks'))
    && Balanced(m.avail, PagesOf(ks), m'.avail, PagesOf(ks'), lost)
  }

  lemma EntryUnchanged(m: Mem, p: nat, i: nat, e: Entry, level: nat, lo: nat)
    requires SlotOk(m.store, p, i, e, level, lo) && m.avail !! m.store.Keys
    ensures EntryPost(m, m, p, i, e, e, level, lo, {})
  {
    RepPages(m.store, m.store[p][i], e, level, lo);
  }

  lemma TableUnchanged(m: Mem, t: nat, ks: seq<Entry>, level: nat, lo: nat)
    requires TableOk(m.store, t, ks, level, lo) && m.avail !! m.store.Keys
    ensures TablePost(m, m, t, ks, ks, level, lo, {})
  {
    RepTablePages(m.store, t, ks, level, lo);
  }

  /** Overwriting an entry with a leaf loses exactly the tables that were not returned. */
  lemma LeafWritten(m: Mem, m': Mem, p: nat, i: nat, pte: Pte, x: set<nat>, e: Entry, raw: Raw, level: nat, lo: nat)
    requires SlotOk(m.store, p, i, e, level, lo) && m.avail !! m.store.Keys
    requires Written(m, m', p, i, pte, x) && x <= Pages(e)
    requires raw.Some? ==> BlockAllowed(level)
    requires pte == if raw.None? then Absent else Block(lo, raw.value)
    ensures EntryPost(m, m', p, i, e, Leaf(raw), level, lo, Pages(e) - x)
  {
    RepPages(m.store, m.store[p][i], e, level, lo);
    assert m'.avail + {} + (Pages(e) - x) == m.avail + Pages(e);
  }

  lemma BalancedTwice(a: set<nat>, x: set<nat>, a1: set<nat>, y: set<nat>, a2: set<nat>, z: set<nat>, l1: set<nat>,
                      l2: set<nat>)
    requires Balanced(a, x, a1, y, l1) && Balanced(a1, y, a2, z, l2)
    ensures Balanced(a, x, a2, z, l1 + l2)
  {
  }

  lemma EntryTwice(m: Mem, m1: Mem, m2: Mem, p: nat, i: nat, e: Entry, e1: Entry, e2: Entry, level: nat, lo: nat,
                   l1: set<nat>, l2: set<nat>)
    requires m.avail !! m.store.Keys
    requires EntryPost(m, m1, p, i, e, e1, level, lo, l1) && EntryPost(m1, m2, p, i, e1, e2, level, lo, l2)
    ensures EntryPost(m, m2, p, i, e, e2, level, lo, l1 + l2)
  {
    BalancedTwice(m.avail, Pages(e), m1.avail, Pages(e1), m2.avail, Pages(e2), l1, l2);
    forall q | q in m.store && q !in Pages(e) && q != p ensures q in m2.store && m2.store[q] == m.store[q] {
      assert q !in Pages(e1);
    }
  }

  /** Updating the table below an entry updates the entry. */
  lemma TableBelow(m: Mem, m': Mem, p: nat, i: nat, t: nat, ks: seq<Entry>, ks': seq<Entry>, level: nat, lo: nat,
                   lost: set<nat>)
    requires level > 0 && SlotOk(m.store, p, i, Table(t, ks), level, lo)
    requires m.avail !! m.store.Keys
    requires TablePost(m, m', t, ks, ks', level - 1, lo, lost)
    ensures EntryPost(m, m', p, i, Table(t, ks), Table(t, ks'), level, lo, lost)
  {
    RepPages(m.store, m.store[p][i], Table(t, ks), level, lo);
    assert m'.avail + ({t} + PagesOf(ks')) + lost == m.avail + ({t} + PagesOf(ks));
  }

  lemma SlotTable(store: Store, p: nat, i: nat, e: Entry, level: nat, lo: nat)
    requires SlotOk(store, p, i, e, level, lo) && e.Table?
    ensures level > 0 && store[p][i] == Subtable(e.page) && TableOk(store, e.page, e.kids, level - 1, lo)
    ensures e.page != p
  {
  }

  lemma TableSlot(store: Store, t: nat, ks: seq<Entry>, i: nat, level: nat, lo: nat)
    requires TableOk(store, t, ks, level, lo) && i < |ks|
    ensures SlotOk(store, t, i, ks[i], level, EntryLo(lo, i, Size(level)))
  {
  }

  lemma TableWF(store: Store, t: nat, ks: seq<Entry>, level: nat, lo: nat)
    requires TableOk(store, t, ks, level, lo)
    ensures |ks| == PTE_PER_PAGE && WFs(ks, level)
  {
  }

  /** One more entry of a table has been updated. */
  lemma TableNext(m: Mem, m1: Mem, m2: Mem, t: nat, ks: seq<Entry>, cur: seq<Entry>, i: nat, e: Entry, level: nat,
                  lo: nat, l1: set<nat>, l2: set<nat>)
    requires m.avail !! m.store.Keys && m1.avail !! m1.store.Keys
    requires TableOk(m.store, t, ks, level, lo) && i < |cur|
    requires TablePost(m, m1, t, ks, cur, level, lo, l1)
    requires EntryPost(m1, m2, t, i, cur[i], e, level, EntryLo(lo, i, Size(level)), l2)
    ensures TablePost(m, m2, t, ks, cur[i := e], level, lo, l1 + l2)
  {
    hide TableOk, SlotOk;
    TablePages(m1.store, t, cur, level, lo);
    TablePages(m.store, t, ks, level, lo);
    TableStep(m1.store, m2.store, t, cur, i, e, level, lo, m1.avail);
    var old1, new1 := PagesOf(cur), PagesOf(cur[i := e]);
    assert Pages(cur[i]) <= old1;
    assert Balanced(m1.avail, old1, m2.avail, new1, l2) by {
      NextBalanced(m1.avail, old1, Pages(cur[i]), m2.avail, Pages(e), l2);
    }
    BalancedTwice(m.avail, PagesOf(ks), m1.avail, old1, m2.avail, new1, l1, l2);
    forall q | q in m.store && q !in PagesOf(ks) && q != t ensures q in m2.store && m2.store[q] == m.store[q] {
      assert q !in old1;
    }
  }

  lemma NextBalanced(a1: set<nat>, all: set<nat>, was: set<nat>, a2: set<nat>, now: set<nat>, lost: set<nat>)
    requires was <= all && a1 !! all && Balanced(a1, was, a2, now, lost)
    ensures Balanced(a1, all, a2, all - was + now, lost)
  {
  }

  /** The descriptors a fresh table is filled with spell out the split of the old entry. */
  ghost predicate SplitPtes(ptes: seq<Pte>, e: Entry, level: nat, lo: nat) {
    && e.Leaf? && level > 0 && |ptes| == PTE_PER_PAGE
    && forall i | 0 <= i < |ptes| ::
         ptes[i] == if IsBlock(e, level) then Block(lo + i * Size(level - 1), e.raw.value) else Absent
  }

  lemma SplitRep(store: Store, page: nat, e: Entry, level: nat, lo: nat)
    requires page in store && SplitPtes(store[page], e, level, lo)
    ensures RepTable(store, page, Split(e, level), level - 1, lo)
  {
    var ks := Split(e, level);
    forall i | 0 <= i < |ks|
      ensures Rep(store, store[page][i], ks[i], level - 1, EntryLo(lo, i, Size(level - 1)))
    {
      EntryLoIsMul(lo, i, Size(level - 1));
    }
  }

  lemma SplitWF(e: Entry, level: nat)
    requires WF(e, level) && e.Leaf? && level > 0
    ensures WFs(Split(e, level), level - 1) && UnsharedAll(Split(e, level)) && PagesOf(Split(e, level)) == {}
    ensures forall page :: WF(Table(page, Split(e, level)), level) && SplitOf(e, Table(page, Split(e, level)), level)
  {
  }

  /** Linking in a table taken from the pool. */
  lemma Populated(m: Mem, m1: Mem, m': Mem, p: nat, i: nat, e: Entry, page: nat, level: nat, lo: nat)
    requires SlotOk(m.store, p, i, e, level, lo) && m.avail !! m.store.Keys
    requires page in m.avail && page != 0 && page in m1.store && SplitPtes(m1.store[page], e, level, lo)
    requires m1.store == m.store[page := m1.store[page]] && m1.avail == m.avail - {page}
    requires Written(m1, m', p, i, Subtable(page), {})
    ensures m'.avail == m.avail - {page} && |m.avail| == |m'.avail| + 1
    ensures EntryPost(m, m', p, i, e, Table(page, Split(e, level)), level, lo, {})
  {
    var e' := Table(page, Split(e, level));
    assert m'.store == m1.store[p := m1.store[p][i := Subtable(page)]];
    LinkedSlot(m'.store, p, i, e, page, level, lo);
    hide SplitPtes, Rep, SlotOk, Written;
    assert Pages(e) == {} && m'.avail + {page} + {} == m.avail + {};
  }

  lemma LinkedSlot(store: Store, p: nat, i: nat, e: Entry, page: nat, level: nat, lo: nat)
    requires p in store && i < |store[p]| && store[p][i] == Subtable(page) && p != page && page != 0
    requires page in store && SplitPtes(store[page], e, level, lo) && WF(e, level)
    ensures SlotOk(store, p, i, Table(page, Split(e, level)), level, lo)
    ensures Pages(Table(page, Split(e, level))) == {page}
  {
    SplitWF(e, level);
    SplitRep(store, page, e, level, lo);
  }

  // ---- What one pass achieves ----------------------------------------------------------------

  /** The pages of tables that a valid block overwrites; `replace` drops its placeholder instead of
      the table, so the commit pass returns them nowhere. */
  ghost function Lost(e: Entry, level: nat, lo: nat, op: Op): set<nat>
    decreases level, 0
  {
    if op.unmap || !Valid(op.attrs) || !Overlaps(op, lo, level) || Skip(op, e, level) || e.Leaf? then {}
    else if Whole(op, lo, level) || level == 0 then Pages(e)
    else LostTo(e.kids, level - 1, lo, op, |e.kids|)
  }

  ghost function LostTo(ks: seq<Entry>, level: nat, lo: nat, op: Op, n: nat): set<nat>
    requires n <= |ks|
    decreases level, 1, n
  {
    if n == 0 then {}
    else LostTo(ks, level, lo, op, n - 1) + Lost(ks[n - 1], level, EntryLo(lo, n - 1, Size(level)), op)
  }

  /** `e'` is `e` with tables in place of leaves that the range crosses, and of no others. */
  ghost predicate Prepared(e: Entry, e': Entry, level: nat, lo: nat, op: Op)
    decreases e'
  {
    || e == e'
    || (&& Partial(op, e, lo, level) && e'.Table? && |e'.kids| == PTE_PER_PAGE == |Kids(e, level)|
        && (e.Table? ==> e.page == e'.page)
        && forall i | 0 <= i < PTE_PER_PAGE ::
             Prepared(Kids(e, level)[i], e'.kids[i], level - 1, EntryLo(lo, i, Size(level - 1)), op))
  }

  lemma {:induction false} PreparedSplits(e: Entry, e': Entry, level: nat, lo: nat, op: Op)
    requires Prepared(e, e', level, lo, op)
    ensures SplitOf(e, e', level)
    decreases e'
  {
    if e != e' {
      forall i | 0 <= i < PTE_PER_PAGE ensures SplitOf(Kids(e, level)[i], e'.kids[i], level - 1) {
        PreparedSplits(Kids(e, level)[i], e'.kids[i], level - 1, EntryLo(lo, i, Size(level - 1)), op);
      }
    }
  }

  /** The tables that the first pass makes are not among those that the commit pass loses. */
  lemma {:induction false} PreparedLost(e: Entry, e': Entry, level: nat, lo: nat, op: Op)
    requires Prepared(e, e', level, lo, op)
    ensures Lost(e', level, lo, op) == Lost(e, level, lo, op)
    decreases e', 0
  {
    hide LostTo;
    if e != e' {
      PreparedLostTo(Kids(e, level), e'.kids, level - 1, lo, op, PTE_PER_PAGE, e');
      if e.Leaf? { LeavesLoseNothing(Kids(e, level), level - 1, lo, op, PTE_PER_PAGE); }
    }
  }

  lemma {:induction false} PreparedLostTo(ks: seq<Entry>, ks': seq<Entry>, level: nat, lo: nat, op: Op, n: nat,
                                          e': Entry)
    requires n <= |ks| == |ks'| && e'.Table? && e'.kids == ks'
    requires forall i | 0 <= i < |ks| :: Prepared(ks[i], ks'[i], level, EntryLo(lo, i, Size(level)), op)
    ensures LostTo(ks', level, lo, op, n) == LostTo(ks, level, lo, op, n)
    decreases e', 0, n
  {
    if n > 0 {
      PreparedLostTo(ks, ks', level, lo, op, n - 1, e');
      PreparedLost(ks[n - 1], ks'[n - 1], level, EntryLo(lo, n - 1, Size(level)), op);
    }
  }

  lemma {:induction false} LeavesLoseNothing(ks: seq<Entry>, level: nat, lo: nat, op: Op, n: nat)
    requires n <= |ks| && forall i | 0 <= i < |ks| :: ks[i].Leaf?
    ensures LostTo(ks, level, lo, op, n) == {}
    decreases n
  {
    if n > 0 { LeavesLoseNothing(ks, level, lo, op, n - 1); }
  }

  /** The outcome of one pass over an entry: the first pass only splits what the range crosses and accounts for each
      page it takes, failing exactly when the pool holds too few; the commit pass cannot fail. */
  ghost predicate PassPost(ok: bool, e: Entry, e': Entry, level: nat, lo: nat, op: Op, commit: bool, had: nat,
                           has: nat) {
    if commit then ok && e' == Commit(e, level, lo, op)
    else
      && Prepared(e, e', level, lo, op)
      && (ok ==> Need(e', level, lo, op) == 0 && had == has + Need(e, level, lo, op))
      && (!ok ==> had < Need(e, level, lo, op))
  }

  ghost predicate PassPostKids(ok: bool, ks: seq<Entry>, ks': seq<Entry>, level: nat, lo: nat, op: Op, commit: bool,
                               had: nat, has: nat) {
    && |ks'| == |ks|
    && if commit then ok && ks' == CommitKids(ks, level, lo, op)
       else
         && (forall i | 0 <= i < |ks| :: Prepared(ks[i], ks'[i], level, EntryLo(lo, i, Size(level)), op))
         && (ok ==> NeedFrom(ks', level, lo, op, 0) == 0 && had == has + NeedFrom(ks, level, lo, op, 0))
         && (!ok ==> had < NeedFrom(ks, level, lo, op, 0))
  }

  ghost function LostIn(commit: bool, e: Entry, level: nat, lo: nat, op: Op): set<nat> {
    if commit then Lost(e, level, lo, op) else {}
  }

  ghost function LostInKids(commit: bool, ks: seq<Entry>, level: nat, lo: nat, op: Op): set<nat> {
    if commit then LostTo(ks, level, lo, op, |ks|) else {}
  }

  /** The test in the code for writing a whole entry. */
  lemma WholeTest(op: Op, lo: nat, level: nat, begin: nat)
    requires Overlaps(op, lo, level) && lo % Size(level) == 0 && begin == Max(op.begin, lo)
    ensures begin < op.end
    ensures (op.end - begin >= Size(level) && (op.unmap || BlockAllowed(level)) && begin % Size(level) == 0)
            <==> Whole(op, lo, level)
  {
    AlignedOnlyAtStart(lo, Size(level), begin);
  }

  /** From the table below a crossed entry to the entry, first pass. */
  lemma PassBelow(ok: bool, e: Entry, t: nat, ks': seq<Entry>, level: nat, lo: nat, op: Op, had: nat, mid: nat,
                  has: nat)
    requires Partial(op, e, lo, level) && |Kids(e, level)| == PTE_PER_PAGE && (e.Table? ==> e.page == t)
    requires had == mid + if e.Table? then 0 else 1
    requires PassPostKids(ok, Kids(e, level), ks', level - 1, lo, op, false, mid, has)
    ensures PassPost(ok, e, Table(t, ks'), level, lo, op, false, had, has)
  {
  }

  /** The entries before `i` have been handled, the others not yet. */
  ghost predicate Progress(ks: seq<Entry>, cur: seq<Entry>, i: nat, level: nat, lo: nat, op: Op, commit: bool,
                           had: nat, has: nat) {
    && |cur| == |ks| && i <= |ks|
    && (forall j | i <= j < |ks| :: cur[j] == ks[j])
    && if commit then forall j | 0 <= j < i :: cur[j] == Commit(ks[j], level, EntryLo(lo, j, Size(level)), op)
       else
         && (forall j | 0 <= j < |ks| :: Prepared(ks[j], cur[j], level, EntryLo(lo, j, Size(level)), op))
         && (forall j | 0 <= j < i :: Need(cur[j], level, EntryLo(lo, j, Size(level)), op) == 0)
         && had + NeedFrom(ks, level, lo, op, i) == has + NeedFrom(ks, level, lo, op, 0)
  }

  /** No entry from `i` up to `j` overlaps the range. */
  ghost predicate Outside(op: Op, level: nat, lo: nat, i: nat, j: nat) {
    forall k | i <= k < j :: !Overlaps(op, EntryLo(lo, k, Size(level)), level)
  }

  lemma {:induction false} OutsideNeedsNothing(ks: seq<Entry>, level: nat, lo: nat, op: Op, i: nat, j: nat)
    requires i <= j <= |ks| && Outside(op, level, lo, i, j)
    ensures NeedFrom(ks, level, lo, op, i) == NeedFrom(ks, level, lo, op, j)
    ensures LostTo(ks, level, lo, op, i) == LostTo(ks, level, lo, op, j)
    decreases j - i
  {
    if i < j {
      assert !Overlaps(op, EntryLo(lo, i, Size(level)), level);
      OutsideNeedsNothing(ks, level, lo, op, i + 1, j);
    }
  }

  lemma ProgressStart(ks: seq<Entry>, first: nat, level: nat, lo: nat, op: Op, commit: bool, had: nat)
    requires first <= |ks| && Outside(op, level, lo, 0, first)
    ensures Progress(ks, ks, first, level, lo, op, commit, had, had)
    ensures LostTo(ks, level, lo, op, first) == {}
  {
    OutsideNeedsNothing(ks, level, lo, op, 0, first);
    forall j | 0 <= j < first
      ensures Need(ks[j], level, EntryLo(lo, j, Size(level)), op) == 0
      ensures Commit(ks[j], level, EntryLo(lo, j, Size(level)), op) == ks[j]
    {
      assert !Overlaps(op, EntryLo(lo, j, Size(level)), level);
    }
  }

  lemma ProgressStep(ok: bool, ks: seq<Entry>, cur: seq<Entry>, i: nat, e: Entry, level: nat, lo: nat, op: Op,
                     commit: bool, had: nat, mid: nat, has: nat)
    requires i < |ks| && Progress(ks, cur, i, level, lo, op, commit, had, mid)
    requires PassPost(ok, ks[i], e, level, EntryLo(lo, i, Size(level)), op, commit, mid, has)
    ensures ok ==> Progress(ks, cur[i := e], i + 1, level, lo, op, commit, had, has)
    ensures !ok ==> PassPostKids(false, ks, cur[i := e], level, lo, op, commit, had, has)
  {
    hide Commit, Need, Prepared;
  }

  lemma ProgressEnd(ks: seq<Entry>, cur: seq<Entry>, i: nat, level: nat, lo: nat, op: Op, commit: bool, had: nat,
                    has: nat)
    requires Progress(ks, cur, i, level, lo, op, commit, had, has) && Outside(op, level, lo, i, |ks|)
    ensures PassPostKids(true, ks, cur, level, lo, op, commit, had, has)
    ensures LostTo(ks, level, lo, op, i) == LostTo(ks, level, lo, op, |ks|)
  {
    OutsideNeedsNothing(ks, level, lo, op, i, |ks|);
    forall j | i <= j < |ks|
      ensures Need(cur[j], level, EntryLo(lo, j, Size(level)), op) == 0
      ensures Commit(ks[j], level, EntryLo(lo, j, Size(level)), op) == cur[j]
    {
      assert !Overlaps(op, EntryLo(lo, j, Size(level)), level);
    }
    if commit {
      assert cur == CommitKids(ks, level, lo, op);
    } else {
      NeedFromAllZero(cur, level, lo, op, 0);
    }
  }

  /** Iteration state of the zip of entries and block starts: `b` is where the range enters entry `i`. */
  ghost predicate Cursor(op: Op, level: nat, lo: nat, begin: nat, i: nat, b: nat) {
    && i <= PTE_PER_PAGE && b >= begin
    && (i < PTE_PER_PAGE ==> EntryLo(lo, i, Size(level)) <= b < EntryLo(lo, i, Size(level)) + Size(level))
    && (b == begin || b == EntryLo(lo, i, Size(level)))
  }

  lemma CursorStart(op: Op, level: nat, lo: nat, begin: nat)
    requires lo % Size(level + 1) == 0 && begin == Max(op.begin, lo) < lo + Size(level + 1)
    ensures Index(begin, level) < PTE_PER_PAGE
    ensures Cursor(op, level, lo, begin, Index(begin, level), begin)
    ensures Outside(op, level, lo, 0, Index(begin, level))
  {
    IndexInTable(lo, begin, level);
    var first := Index(begin, level);
    forall k | 0 <= k < first ensures !Overlaps(op, EntryLo(lo, k, Size(level)), level) {
      EntryLoOrder(lo, k, first, Size(level));
      EntryLoOrder(lo, 0, first, Size(level));
    }
  }

  lemma CursorNext(op: Op, level: nat, lo: nat, begin: nat, i: nat, b: nat)
    requires lo % Size(level + 1) == 0 && begin == Max(op.begin, lo)
    requires i < PTE_PER_PAGE && b < op.end && Cursor(op, level, lo, begin, i, b)
    ensures EntryLo(lo, i, Size(level)) % Size(level) == 0
    ensures Overlaps(op, EntryLo(lo, i, Size(level)), level)
    ensures b == Max(op.begin, EntryLo(lo, i, Size(level)))
    ensures Cursor(op, level, lo, begin, i + 1, StartOfNextBlock(b, Size(level)))
  {
    EntryAligned(lo, i, level);
    EntryLoOrder(lo, 0, i, Size(level));
    NextBlock(lo, i, Size(level), b);
  }

  lemma CursorEnd(op: Op, level: nat, lo: nat, begin: nat, i: nat, b: nat)
    requires lo % Size(level + 1) == 0 && begin == Max(op.begin, lo) < lo + Size(level + 1) && begin < op.end
    requires Cursor(op, level, lo, begin, i, b)
    requires i == PTE_PER_PAGE || b >= Min(op.end, LevelEnd(begin, level))
    ensures Outside(op, level, lo, i, PTE_PER_PAGE)
  {
    IndexInTable(lo, begin, level);
    EntryLoOrder(lo, i, 512, Size(level));
    forall k | i <= k < PTE_PER_PAGE ensures !Overlaps(op, EntryLo(lo, k, Size(level)), level) {
      EntryLoOrder(lo, i, k, Size(level));
    }
  }

  /** Only a map with valid attributes loses pages. */
  lemma {:induction false} NothingLost(ks: seq<Entry>, level: nat, lo: nat, op: Op, n: nat)
    requires n <= |ks| && (op.unmap || !Valid(op.attrs))
    ensures LostTo(ks, level, lo, op, n) == {}
    decreases n
  {
    if n > 0 { NothingLost(ks, level, lo, op, n - 1); }
  }

  lemma LostBelow(e: Entry, level: nat, lo: nat, op: Op, commit: bool)
    requires Partial(op, e, lo, level) && (commit ==> e.Table?)
    ensures LostIn(commit, e, level, lo, op) == LostInKids(commit, Kids(e, level), level - 1, lo, op)
  {
    if commit && (op.unmap || !Valid(op.attrs)) {
      NothingLost(e.kids, level - 1, lo, op, |e.kids|);
    }
  }
}
