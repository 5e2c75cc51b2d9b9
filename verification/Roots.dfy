/** The concatenated root tables: a row of tables, one level above the highest table level, that are
    never themselves replaced. */
module Roots {
  import opened Common
  import opened Geometry
  import opened Entries
  import opened Footprint
  import opened Layout
  import opened Stores
  import opened Tlb
  import opened Passes

  /** Where root table `k` starts; `level` is the level of the root tables' own entries. */
  ghost function RootLo(k: nat, level: nat): nat {
    EntryLo(0, k, Size(level + 1))
  }

  ghost predicate Tables(tops: seq<Entry>, level: nat) {
    forall k | 0 <= k < |tops| :: tops[k].Table? && WF(tops[k], level + 1)
  }

  ghost predicate RootOk(store: Store, root: nat, tops: seq<Entry>, level: nat) {
    && root > 0 && Tables(tops, level) && UnsharedAll(tops) && 0 !in PagesOf(tops)
    && (forall k | 0 <= k < |tops| :: tops[k].page == root + k)
    && (forall k | 0 <= k < |tops| :: TopRep(store, tops[k], level, RootLo(k, level)))
  }

  ghost predicate TopRep(store: Store, e: Entry, level: nat, lo: nat) {
    e.Table? && Rep(store, Subtable(e.page), e, level + 1, lo)
  }

  ghost predicate RootPost(m: Mem, m': Mem, root: nat, tops: seq<Entry>, tops': seq<Entry>, level: nat,
                           lost: set<nat>) {
    && RootOk(m'.store, root, tops', level) && |tops'| == |tops|
    && Balanced(m.avail, PagesOf(tops), m'.avail, PagesOf(tops'), lost)
  }

  lemma RootPages(store: Store, root: nat, tops: seq<Entry>, level: nat)
    requires RootOk(store, root, tops, level)
    ensures PagesOf(tops) <= store.Keys
  {
    forall k | 0 <= k < |tops| ensures Pages(tops[k]) <= store.Keys {
      assert TopRep(store, tops[k], level, RootLo(k, level));
      RepPages(store, Subtable(tops[k].page), tops[k], level + 1, RootLo(k, level));
    }
  }

  lemma RootUnchanged(m: Mem, root: nat, tops: seq<Entry>, level: nat)
    requires RootOk(m.store, root, tops, level) && m.avail !! m.store.Keys
    ensures RootPost(m, m, root, tops, tops, level, {})
  {
    RootPages(m.store, root, tops, level);
  }

  lemma TopTable(store: Store, e: Entry, level: nat, lo: nat)
    requires WF(e, level + 1) && Unshared(e) && TopRep(store, e, level, lo)
    ensures RepTable(store, e.page, e.kids, level, lo) && WFs(e.kids, level) && |e.kids| == PTE_PER_PAGE
    ensures e.page !in PagesOf(e.kids) && PagesOf(e.kids) <= Pages(e) && UnsharedAll(e.kids)
  {
  }

  lemma TableTop(store: Store, t: nat, ks: seq<Entry>, level: nat, lo: nat)
    requires TableOk(store, t, ks, level, lo)
    ensures TopRep(store, Table(t, ks), level, lo) && WF(Table(t, ks), level + 1)
    ensures Unshared(Table(t, ks)) && 0 !in Pages(Table(t, ks)) && t !in PagesOf(ks)
  {
  }

  lemma RootTable(store: Store, root: nat, tops: seq<Entry>, level: nat, k: nat)
    requires RootOk(store, root, tops, level) && k < |tops|
    ensures tops[k] == Table(root + k, tops[k].kids) && root + k !in PagesOf(tops[k].kids)
    ensures TableOk(store, root + k, tops[k].kids, level, RootLo(k, level))
  {
    hide PagesOf, Pages, TopRep, RepTable, WF, Unshared;
    assert TopRep(store, tops[k], level, RootLo(k, level)) && Unshared(tops[k]);
    TopTable(store, tops[k], level, RootLo(k, level));
    PagesAt(tops, k);
  }

  lemma RootNext(m: Mem, m1: Mem, m2: Mem, root: nat, tops: seq<Entry>, cur: seq<Entry>, k: nat, ks: seq<Entry>,
                 level: nat, l1: set<nat>, l2: set<nat>)
    requires m1.avail !! m1.store.Keys && k < |cur|
    requires RootPost(m, m1, root, tops, cur, level, l1)
    requires TablePost(m1, m2, root + k, cur[k].kids, ks, level, RootLo(k, level), l2)
    ensures RootPost(m, m2, root, tops, cur[k := Table(root + k, ks)], level, l1 + l2)
  {
    hide TableOk, UnsharedAll, Unshared, ChangedBelow, Balanced, Pages, PagesOf;
    var e := Table(root + k, ks);
    NewTop(m1, m2, root, cur, k, ks, level, l2);
    PagesReplace(cur, k, e);
    RootRep(m1, m2, root, cur, k, ks, level);
    BalancedTwice(m.avail, PagesOf(tops), m1.avail, PagesOf(cur), m2.avail, PagesOf(cur[k := e]), l1, l2);
  }

  lemma TopBalanced(a1: set<nat>, page: nat, was: set<nat>, all: set<nat>, a2: set<nat>, now: set<nat>, lost: set<nat>)
    requires {page} + was <= all && a1 !! all && page !in now && page !in was && Balanced(a1, was, a2, now, lost)
    ensures Balanced(a1, all, a2, all - ({page} + was) + ({page} + now), lost)
    ensures ({page} + now) !! all - ({page} + was)
  {
  }

  lemma NewTop(m1: Mem, m2: Mem, root: nat, cur: seq<Entry>, k: nat, ks: seq<Entry>, level: nat, lost: set<nat>)
    requires m1.avail !! m1.store.Keys && k < |cur| && RootOk(m1.store, root, cur, level)
    requires TableOk(m2.store, root + k, ks, level, RootLo(k, level))
    requires Balanced(m1.avail, PagesOf(cur[k].kids), m2.avail, PagesOf(ks), lost)
    ensures Unshared(Table(root + k, ks))
    ensures Pages(Table(root + k, ks)) !! PagesOf(cur) - Pages(cur[k])
    ensures Balanced(m1.avail, PagesOf(cur), m2.avail, PagesOf(cur) - Pages(cur[k]) + Pages(Table(root + k, ks)), lost)
  {
    hide TableOk, Unshared, Balanced, PagesOf, UnsharedAll, WF, TopRep;
    RootTable(m1.store, root, cur, level, k);
    RootPages(m1.store, root, cur, level);
    TableTop(m2.store, root + k, ks, level, RootLo(k, level));
    PagesAt(cur, k);
    TopBalanced(m1.avail, root + k, PagesOf(cur[k].kids), PagesOf(cur), m2.avail, PagesOf(ks), lost);
  }

  lemma PagesAt(ks: seq<Entry>, k: nat)
    requires k < |ks|
    ensures Pages(ks[k]) <= PagesOf(ks)
  {
  }

  lemma RootRep(m1: Mem, m2: Mem, root: nat, cur: seq<Entry>, k: nat, ks: seq<Entry>, level: nat)
    requires RootOk(m1.store, root, cur, level) && k < |cur|
    requires TableOk(m2.store, root + k, ks, level, RootLo(k, level))
    requires ChangedBelow(m1.store, m2.store, root + k, PagesOf(cur[k].kids), PagesOf(ks))
    requires UnsharedAll(cur[k := Table(root + k, ks)])
    requires PagesOf(cur[k := Table(root + k, ks)]) == PagesOf(cur) - Pages(cur[k]) + Pages(Table(root + k, ks))
    ensures RootOk(m2.store, root, cur[k := Table(root + k, ks)], level)
  {
    hide WF, TopRep, TableOk, ChangedBelow, Pages, PagesOf, UnsharedAll, RootLo;
    var cur' := cur[k := Table(root + k, ks)];
    TableTop(m2.store, root + k, ks, level, RootLo(k, level));
    assert 0 !in PagesOf(cur');
    assert Tables(cur', level);
    forall j | 0 <= j < |cur'|
      ensures TopRep(m2.store, cur'[j], level, RootLo(j, level))
    {
      if j != k {
        OtherTop(m1, m2, root, cur, k, ks, j, level);
      }
    }
  }

  lemma OtherTop(m1: Mem, m2: Mem, root: nat, cur: seq<Entry>, k: nat, ks: seq<Entry>, j: nat, level: nat)
    requires RootOk(m1.store, root, cur, level) && k < |cur| && j < |cur| && j != k
    requires ChangedBelow(m1.store, m2.store, root + k, PagesOf(cur[k].kids), PagesOf(ks))
    ensures TopRep(m2.store, cur[j], level, RootLo(j, level))
  {
    assert TopRep(m1.store, cur[j], level, RootLo(j, level));
    assert Pages(cur[j]) !! Pages(cur[k]);
    assert PagesOf(cur[k].kids) <= Pages(cur[k]) && root + k in Pages(cur[k]);
    RepFrame(m1.store, m2.store, Subtable(cur[j].page), cur[j], level + 1, RootLo(j, level));
  }

  // ---- What one pass over all root tables achieves -------------------------------------------

  ghost function RootNeed(tops: seq<Entry>, level: nat, op: Op, k: nat): nat
    requires Tables(tops, level)
    decreases |tops| - k
  {
    if k >= |tops| then 0
    else NeedFrom(tops[k].kids, level, RootLo(k, level), op, 0) + RootNeed(tops, level, op, k + 1)
  }

  ghost function RootLost(tops: seq<Entry>, level: nat, op: Op, n: nat): set<nat>
    requires Tables(tops, level) && n <= |tops|
  {
    if n == 0 then {}
    else
      var ks := tops[n - 1].kids;
      RootLost(tops, level, op, n - 1) + LostTo(ks, level, RootLo(n - 1, level), op, |ks|)
  }

  ghost function CommitTop(tops: seq<Entry>, k: nat, level: nat, op: Op): Entry
    requires Tables(tops, level) && k < |tops|
  {
    Table(tops[k].page, CommitKids(tops[k].kids, level, RootLo(k, level), op))
  }

  ghost predicate SplitKids(e: Entry, e': Entry, level: nat) {
    && e.Table? && e'.Table? && e'.page == e.page && |e.kids| == |e'.kids|
    && forall i | 0 <= i < |e.kids| :: SplitOf(e.kids[i], e'.kids[i], level)
  }

  /** `cur` is `tops` with some entries split. */
  ghost predicate RootSplit(tops: seq<Entry>, cur: seq<Entry>, level: nat) {
    |cur| == |tops| && forall k | 0 <= k < |tops| :: SplitKids(tops[k], cur[k], level)
  }

  ghost predicate PreparedKids(e: Entry, e': Entry, level: nat, lo: nat, op: Op) {
    && e.Table? && e'.Table? && e'.page == e.page && |e.kids| == |e'.kids|
    && forall i | 0 <= i < |e.kids| :: Prepared(e.kids[i], e'.kids[i], level, EntryLo(lo, i, Size(level)), op)
  }

  /** `cur` is `tops` after the first pass split some of the entries that the range crosses. */
  ghost predicate RootPrepared(tops: seq<Entry>, cur: seq<Entry>, level: nat, op: Op) {
    |cur| == |tops| && forall k | 0 <= k < |tops| :: PreparedKids(tops[k], cur[k], level, RootLo(k, level), op)
  }

  lemma RootPreparedSplits(tops: seq<Entry>, cur: seq<Entry>, level: nat, op: Op)
    requires RootPrepared(tops, cur, level, op)
    ensures RootSplit(tops, cur, level)
  {
    hide Prepared, SplitOf;
    forall k | 0 <= k < |tops| ensures SplitKids(tops[k], cur[k], level) {
      assert PreparedKids(tops[k], cur[k], level, RootLo(k, level), op);
      forall i | 0 <= i < |tops[k].kids| ensures SplitOf(tops[k].kids[i], cur[k].kids[i], level) {
        PreparedSplits(tops[k].kids[i], cur[k].kids[i], level, EntryLo(RootLo(k, level), i, Size(level)), op);
      }
    }
  }

  /** The first pass does not change which pages the commit pass will lose. */
  lemma {:induction false} RootPreparedLost(tops: seq<Entry>, cur: seq<Entry>, level: nat, op: Op, n: nat)
    requires Tables(tops, level) && Tables(cur, level) && RootPrepared(tops, cur, level, op) && n <= |tops|
    ensures RootLost(cur, level, op, n) == RootLost(tops, level, op, n)
    decreases n
  {
    hide Prepared, LostTo, WF;
    if n > 0 {
      RootPreparedLost(tops, cur, level, op, n - 1);
      assert PreparedKids(tops[n - 1], cur[n - 1], level, RootLo(n - 1, level), op);
      PreparedLostTo(tops[n - 1].kids, cur[n - 1].kids, level, RootLo(n - 1, level), op, |tops[n - 1].kids|,
                     cur[n - 1]);
    }
  }

  /** `cur` is `tops` after the commit pass. */
  ghost predicate RootCommit(tops: seq<Entry>, cur: seq<Entry>, level: nat, op: Op)
    requires Tables(tops, level)
  {
    |cur| == |tops| && forall k | 0 <= k < |tops| :: cur[k] == CommitTop(tops, k, level, op)
  }

  ghost predicate RootPass(ok: bool, tops: seq<Entry>, cur: seq<Entry>, level: nat, op: Op, commit: bool, had: nat,
                           has: nat)
    requires Tables(tops, level) && Tables(cur, level)
  {
    if commit then ok && RootCommit(tops, cur, level, op)
    else
      && RootPrepared(tops, cur, level, op)
      && (ok ==> RootNeed(cur, level, op, 0) == 0 && had == has + RootNeed(tops, level, op, 0))
      && (!ok ==> had < RootNeed(tops, level, op, 0))
  }

  ghost predicate RootProgress(tops: seq<Entry>, cur: seq<Entry>, k: nat, level: nat, op: Op, commit: bool, had: nat,
                               has: nat)
    requires Tables(tops, level) && Tables(cur, level)
  {
    && |cur| == |tops| && k <= |tops|
    && (forall j | k <= j < |tops| :: cur[j] == tops[j])
    && if commit then forall j | 0 <= j < k :: cur[j] == CommitTop(tops, j, level, op)
       else
         && RootPrepared(tops, cur, level, op)
         && (forall j | 0 <= j < k :: NeedFrom(cur[j].kids, level, RootLo(j, level), op, 0) == 0)
         && had + RootNeed(tops, level, op, k) == has + RootNeed(tops, level, op, 0)
  }

  /** A root table that the range does not touch is left alone by every pass. */
  lemma UntouchedTop(tops: seq<Entry>, k: nat, level: nat, op: Op)
    requires Tables(tops, level) && k < |tops| && !Overlaps(op, RootLo(k, level), level + 1)
    ensures var ks := tops[k].kids;
            && NeedFrom(ks, level, RootLo(k, level), op, 0) == 0
            && LostTo(ks, level, RootLo(k, level), op, |ks|) == {}
            && CommitTop(tops, k, level, op) == tops[k]
  {
    var ks, lo := tops[k].kids, RootLo(k, level);
    TableSpan(lo, level);
    forall i | 0 <= i < 512 ensures !Overlaps(op, EntryLo(lo, i, Size(level)), level) {
      EntryLoOrder(lo, i, 512, Size(level));
      EntryLoOrder(lo, 0, i, Size(level));
    }
    OutsideNeedsNothing(ks, level, lo, op, 0, 512);
    assert CommitKids(ks, level, lo, op) == ks by {
      forall i | 0 <= i < 512 ensures Commit(ks[i], level, EntryLo(lo, i, Size(level)), op) == ks[i] {
        assert !Overlaps(op, EntryLo(lo, i, Size(level)), level);
      }
    }
  }

  ghost predicate RootOutside(op: Op, level: nat, i: nat, j: nat) {
    forall k | i <= k < j :: !Overlaps(op, RootLo(k, level), level + 1)
  }

  lemma {:induction false} RootOutsideNeedsNothing(tops: seq<Entry>, level: nat, op: Op, i: nat, j: nat)
    requires Tables(tops, level) && i <= j <= |tops| && RootOutside(op, level, i, j)
    ensures RootNeed(tops, level, op, i) == RootNeed(tops, level, op, j)
    ensures RootLost(tops, level, op, i) == RootLost(tops, level, op, j)
    decreases j - i
  {
    hide NeedFrom, LostTo, Overlaps, WF, CommitTop;
    if i < j {
      UntouchedTop(tops, i, level, op);
      RootOutsideNeedsNothing(tops, level, op, i + 1, j);
    }
  }

  lemma RootProgressStart(tops: seq<Entry>, k: nat, level: nat, op: Op, commit: bool, had: nat)
    requires Tables(tops, level) && k <= |tops| && RootOutside(op, level, 0, k)
    ensures RootProgress(tops, tops, k, level, op, commit, had, had)
    ensures RootLost(tops, level, op, k) == {}
  {
    RootOutsideNeedsNothing(tops, level, op, 0, k);
    forall j | 0 <= j < k
      ensures NeedFrom(tops[j].kids, level, RootLo(j, level), op, 0) == 0
      ensures CommitTop(tops, j, level, op) == tops[j]
    {
      UntouchedTop(tops, j, level, op);
    }
  }

  lemma RootProgressStep(ok: bool, tops: seq<Entry>, cur: seq<Entry>, k: nat, ks: seq<Entry>, level: nat, op: Op,
                         commit: bool, had: nat, mid: nat, has: nat)
    requires Tables(tops, level) && Tables(cur, level) && k < |tops|
    requires RootProgress(tops, cur, k, level, op, commit, had, mid)
    requires PassPostKids(ok, tops[k].kids, ks, level, RootLo(k, level), op, commit, mid, has)
    requires WF(Table(tops[k].page, ks), level + 1)
    ensures var cur' := cur[k := Table(tops[k].page, ks)];
            && Tables(cur', level)
            && (ok ==> RootProgress(tops, cur', k + 1, level, op, commit, had, has))
            && (!ok ==> RootPass(false, tops, cur', level, op, commit, had, has))
  {
    hide NeedFrom, Prepared, WF;
    var cur' := cur[k := Table(tops[k].page, ks)];
    assert Tables(cur', level);
  }

  lemma RootProgressEnd(tops: seq<Entry>, cur: seq<Entry>, k: nat, level: nat, op: Op, commit: bool, had: nat, has: nat)
    requires Tables(tops, level) && Tables(cur, level)
    requires RootProgress(tops, cur, k, level, op, commit, had, has) && RootOutside(op, level, k, |tops|)
    ensures RootPass(true, tops, cur, level, op, commit, had, has)
    ensures RootLost(tops, level, op, k) == RootLost(tops, level, op, |tops|)
  {
    RootOutsideNeedsNothing(tops, level, op, k, |tops|);
    forall j | k <= j < |tops|
      ensures NeedFrom(cur[j].kids, level, RootLo(j, level), op, 0) == 0
      ensures CommitTop(tops, j, level, op) == cur[j]
    {
      UntouchedTop(tops, j, level, op);
    }
    if !commit { RootNeedZero(cur, level, op, 0); }
  }

  lemma {:induction false} RootNeedZero(tops: seq<Entry>, level: nat, op: Op, k: nat)
    requires Tables(tops, level)
    requires forall j | k <= j < |tops| :: NeedFrom(tops[j].kids, level, RootLo(j, level), op, 0) == 0
    ensures RootNeed(tops, level, op, k) == 0
    decreases |tops| - k
  {
    if k < |tops| { RootNeedZero(tops, level, op, k + 1); }
  }

  lemma {:induction false} RootNeedZeroAt(tops: seq<Entry>, level: nat, op: Op, k: nat, j: nat)
    requires Tables(tops, level) && k <= j < |tops| && RootNeed(tops, level, op, k) == 0
    ensures NeedFrom(tops[j].kids, level, RootLo(j, level), op, 0) == 0
    decreases j - k
  {
    if k < j { RootNeedZeroAt(tops, level, op, k + 1, j); }
  }

  // ---- Meaning of the whole table ------------------------------------------------------------

  lemma TopsWF(tops: seq<Entry>, level: nat)
    requires Tables(tops, level)
    ensures WFs(tops, level + 1)
  {
  }

  /** The end of the address space of `n` root tables. */
  ghost function SpaceEnd(n: nat, level: nat): nat {
    RootLo(n, level)
  }

  /** The raw attributes that translate `a`. */
  ghost function RawAt(tops: seq<Entry>, level: nat, a: nat): Raw
    requires Tables(tops, level) && a < SpaceEnd(|tops|, level)
  {
    AtKids(tops, level + 1, 0, a)
  }

  /** Where address `a` is found: root table `k`, entry `i`. */
  lemma Locate(tops: seq<Entry>, level: nat, a: nat) returns (k: nat, i: nat)
    requires Tables(tops, level) && a < SpaceEnd(|tops|, level)
    ensures k < |tops| && RootLo(k, level) <= a < RootLo(k, level) + Size(level + 1)
    ensures k == Which(0, Size(level + 1), a) && i == Which(RootLo(k, level), Size(level), a)
    ensures i < PTE_PER_PAGE
    ensures var from := EntryLo(RootLo(k, level), i, Size(level));
            && from <= a < from + Size(level)
            && RawAt(tops, level, a) == At(tops[k].kids[i], level, from, a)
  {
    EntryOf(0, |tops|, Size(level + 1), a);
    k := Which(0, Size(level + 1), a);
    var lo := RootLo(k, level);
    TableSpan(lo, level);
    EntryOf(lo, 512, Size(level), a);
    i := Which(lo, Size(level), a);
    KidAt(tops, level + 1, 0, k, a);
    KidAt(tops[k].kids, level, lo, i, a);
  }

  lemma RootAligned(k: nat, level: nat)
    ensures RootLo(k, level) % Size(level + 1) == 0
  {
    EntryAligned(0, k, level + 1);
  }

  /** The first pass changes the meaning of no address. */
  lemma RootSplitView(tops: seq<Entry>, cur: seq<Entry>, level: nat, a: nat)
    requires Tables(tops, level) && Tables(cur, level) && RootSplit(tops, cur, level)
    requires a < SpaceEnd(|tops|, level)
    ensures Norm(RawAt(cur, level, a)) == Norm(RawAt(tops, level, a))
  {
    hide WF, At, AtKids, RawAt;
    var k, i := Locate(tops, level, a);
    var k', i' := Locate(cur, level, a);
    assert SplitKids(tops[k], cur[k], level);
    KidWF(tops[k], level, i);
    KidWF(cur[k], level, i);
    SplitPreservesView(tops[k].kids[i], cur[k].kids[i], level, EntryLo(RootLo(k, level), i, Size(level)));
  }

  lemma KidWF(e: Entry, level: nat, i: nat)
    requires WF(e, level + 1) && e.Table? && i < PTE_PER_PAGE
    ensures |e.kids| == PTE_PER_PAGE && WF(e.kids[i], level)
  {
  }

  /** The commit pass rewrites exactly the requested range. */
  lemma RootCommitView(tops: seq<Entry>, cur: seq<Entry>, level: nat, op: Op, a: nat)
    requires Tables(tops, level) && Tables(cur, level) && WFOp(op)
    requires RootNeed(tops, level, op, 0) == 0 && RootCommit(tops, cur, level, op)
    requires a < SpaceEnd(|tops|, level)
    ensures UpdatedAt(op, RawAt(tops, level, a), RawAt(cur, level, a), a)
  {
    hide WF, At, AtKids, RawAt, CommitKids, UpdatedAt, RootNeed;
    var k, i := Locate(tops, level, a);
    var k', i' := Locate(cur, level, a);
    var lo, ks := RootLo(k, level), tops[k].kids;
    RootAligned(k, level);
    EntryAligned(lo, i, level);
    RootNeedZeroAt(tops, level, op, 0, k);
    KidWF(tops[k], level, i);
    NeedFromZero(ks, level, lo, op, 0, i);
    CommitUpdates(ks[i], level, EntryLo(lo, i, Size(level)), op, a);
    assert cur[k] == CommitTop(tops, k, level, op);
  }

  // ---- The log of a pass over all root tables ------------------------------------------------

  ghost predicate QuietRoot(ev: Event, tops: seq<Entry>, level: nat, op: Op, commit: bool)
    requires Tables(tops, level)
  {
    exists k :: 0 <= k < |tops| && Quiet(ev, tops[k], level + 1, RootLo(k, level), op, commit)
  }

  ghost predicate RootLogged(evs: seq<Event>, tops: seq<Entry>, cur: seq<Entry>, level: nat, op: Op, commit: bool) {
    && Tables(tops, level) && Tables(cur, level) && |cur| == |tops|
    && (forall n | 0 <= n < |evs| :: QuietRoot(evs[n], tops, level, op, commit))
    && (forall a | 0 <= a < SpaceEnd(|tops|, level) :: Replay(RawAt(tops, level, a), evs, a) == RawAt(cur, level, a))
    && Faithful(evs, Root(tops), Root(cur), level + 2, 0, op, commit)
  }

  /** The root tables under one name. */
  ghost function Root(tops: seq<Entry>): Entry {
    Table(0, tops)
  }

  lemma RootLogNothing(tops: seq<Entry>, level: nat, op: Op, commit: bool)
    requires Tables(tops, level)
    ensures RootLogged([], tops, tops, level, op, commit)
  {
  }

  lemma RootLogNext(xs: seq<Event>, ys: seq<Event>, tops: seq<Entry>, cur: seq<Entry>, k: nat, e: Entry, level: nat,
                    op: Op, commit: bool)
    requires k < |tops| == |cur| && RootLogged(xs, tops, cur, level, op, commit) && cur[k] == tops[k]
    requires e.Table? && Logged(ys, tops[k], e, level + 1, RootLo(k, level), op, commit) && Left(xs, RootLo(k, level))
    ensures RootLogged(xs + ys, tops, cur[k := e], level, op, commit) && Left(xs + ys, RootLo(k + 1, level))
  {
    hide WF, At, AtKids, Replay, RawAt, Quiet, Faithful, Left;
    var cur' := cur[k := e];
    FaithfulNext(xs, ys, 0, tops, cur, k, e, level + 1, 0, op, commit);
    assert Tables(cur', level);
    forall n | 0 <= n < |xs + ys| ensures QuietRoot((xs + ys)[n], tops, level, op, commit) {
      if n >= |xs| { assert Quiet(ys[n - |xs|], tops[k], level + 1, RootLo(k, level), op, commit); }
    }
    forall a | 0 <= a < SpaceEnd(|tops|, level)
      ensures Replay(RawAt(tops, level, a), xs + ys, a) == RawAt(cur', level, a)
    {
      ReplayConcat(RawAt(tops, level, a), xs, ys, a);
      RootTraceNext(ys, cur, k, e, level, a);
    }
  }

  lemma RootTraceNext(ys: seq<Event>, cur: seq<Entry>, k: nat, e: Entry, level: nat, a: nat)
    requires Tables(cur, level) && k < |cur| && e.Table? && WF(e, level + 1)
    requires Traces(ys, cur[k], e, level + 1, RootLo(k, level))
    requires a < SpaceEnd(|cur|, level)
    ensures Tables(cur[k := e], level)
    ensures Replay(RawAt(cur, level, a), ys, a) == RawAt(cur[k := e], level, a)
  {
    var cur', s := cur[k := e], Size(level + 1);
    EntryOf(0, |cur|, s, a);
    var j := Which(0, s, a);
    KidAt(cur, level + 1, 0, j, a);
    KidAt(cur', level + 1, 0, j, a);
    if j != k {
      EntryLoOrder(0, j, k, s);
      EntryLoOrder(0, k, j, s);
      ReplayOutside(RawAt(cur, level, a), ys, level + 1, RootLo(k, level), a);
    }
  }

  // ---- The loop over the root tables ---------------------------------------------------------

  ghost predicate RootCursor(op: Op, level: nat, i: nat, b: nat) {
    && b >= op.begin
    && RootLo(i, level) <= b < RootLo(i, level) + Size(level + 1)
    && (b == op.begin || b == RootLo(i, level))
  }

  lemma RootCursorStart(op: Op, level: nat, n: nat)
    requires op.begin <= SpaceEnd(n, level) && n <= 16
    ensures Index(op.begin, level + 1) <= n
    ensures RootCursor(op, level, Index(op.begin, level + 1), op.begin)
    ensures RootOutside(op, level, 0, Index(op.begin, level + 1))
  {
    var s := Size(level + 1);
    TableSpan(0, level + 1);
    EntryLoOrder(0, n, 512, s);
    IndexInTable(0, op.begin, level + 1);
    var i := Index(op.begin, level + 1);
    EntryLoOrder(0, n, i, s);
    forall k | 0 <= k < i ensures !Overlaps(op, RootLo(k, level), level + 1) {
      EntryLoOrder(0, k, i, s);
    }
  }

  lemma RootCursorNext(op: Op, level: nat, i: nat, b: nat)
    requires RootCursor(op, level, i, b) && b < op.end
    ensures RootLo(i, level) % Size(level + 1) == 0
    ensures b == Max(op.begin, RootLo(i, level)) < RootLo(i, level) + Size(level + 1)
    ensures RootCursor(op, level, i + 1, StartOfNextBlock(b, Size(level + 1)))
  {
    RootAligned(i, level);
    NextBlock(0, i, Size(level + 1), b);
  }

  lemma RootCursorEnd(op: Op, level: nat, i: nat, b: nat, n: nat)
    requires RootCursor(op, level, i, b) && (i >= n || b >= op.end)
    ensures RootOutside(op, level, i, n)
  {
    forall k | i <= k < n ensures !Overlaps(op, RootLo(k, level), level + 1) {
      EntryLoOrder(0, i, k, Size(level + 1));
    }
  }

  ghost predicate RootRun(m: Mem, m1: Mem, root: nat, tops: seq<Entry>, cur: seq<Entry>, i: nat, level: nat, op: Op,
                          commit: bool, evs: seq<Event>) {
    && i <= |tops| && RootOk(m.store, root, tops, level)
    && RootPost(m, m1, root, tops, cur, level, if commit then RootLost(tops, level, op, i) else {})
    && RootProgress(tops, cur, i, level, op, commit, |m.avail|, |m1.avail|)
    && RootLogged(evs, tops, cur, level, op, commit)
    && Left(evs, RootLo(i, level))
    && Gap(evs, CutsUpTo(tops, level + 1, 0, op, i), op, commit, |m.avail|)
  }

  /** The pool is still as it was when the crossed root table comes. */
  lemma CutRootFirst(tops: seq<Entry>, cur: seq<Entry>, i: nat, level: nat, op: Op, had: nat, mid: nat)
    requires Tables(tops, level) && Tables(cur, level) && i < |tops| && Cuts(tops[i], level + 1, RootLo(i, level), op)
    requires RootProgress(tops, cur, i, level, op, false, had, mid)
    ensures had == mid
  {
    CutsStart(tops[i], level + 1, RootLo(i, level), op);
    forall k | 0 <= k < i ensures !Overlaps(op, RootLo(k, level), level + 1) {
      EntryLoOrder(0, k, i, Size(level + 1));
    }
    RootOutsideNeedsNothing(tops, level, op, 0, i);
  }

  lemma RootGapNext(xs: seq<Event>, ys: seq<Event>, tops: seq<Entry>, cur: seq<Entry>, i: nat, level: nat, op: Op,
                    commit: bool, had: nat, mid: nat)
    requires Tables(tops, level) && Tables(cur, level) && i < |tops| && Overlaps(op, RootLo(i, level), level + 1)
    requires RootProgress(tops, cur, i, level, op, commit, had, mid)
    requires Gap(xs, CutsUpTo(tops, level + 1, 0, op, i), op, commit, had)
    requires Gap(ys, CutsUpTo(tops[i].kids, level, RootLo(i, level), op, |tops[i].kids|), op, commit, mid)
    ensures Gap(xs + ys, CutsUpTo(tops, level + 1, 0, op, i + 1), op, commit, had)
    ensures Gap(xs + ys, CutsUpTo(tops, level + 1, 0, op, |tops|), op, commit, had)
  {
    assert Cuts(tops[i], level + 1, RootLo(i, level), op) ==
           CutsUpTo(tops[i].kids, level, RootLo(i, level), op, |tops[i].kids|);
    hide Missed, Cuts, RootProgress, Overlaps, WF;
    MissedConcat(xs, ys, op);
    TopsWF(tops, level);
    CutsOnce(tops, level + 1, 0, op, i);
    if !commit && Cuts(tops[i], level + 1, RootLo(i, level), op) {
      CutRootFirst(tops, cur, i, level, op, had, mid);
    }
  }

  lemma RootOutsideNotCut(tops: seq<Entry>, level: nat, op: Op, i: nat, j: nat)
    requires Tables(tops, level) && i <= j <= |tops| && RootOutside(op, level, i, j)
    ensures CutsUpTo(tops, level + 1, 0, op, i) == CutsUpTo(tops, level + 1, 0, op, j)
  {
    TopsWF(tops, level);
    var up := level + 1;
    forall k | i <= k < j ensures !Overlaps(op, EntryLo(0, k, Size(up)), up) {
      assert !Overlaps(op, RootLo(k, level), level + 1);
    }
    OutsideNotCut(tops, level + 1, 0, op, i, j);
  }

  lemma RootRunStart(m: Mem, root: nat, tops: seq<Entry>, i: nat, level: nat, op: Op, commit: bool)
    requires RootOk(m.store, root, tops, level) && m.avail !! m.store.Keys
    requires i <= |tops| && RootOutside(op, level, 0, i)
    ensures Tables(tops, level) && RootRun(m, m, root, tops, tops, i, level, op, commit, [])
  {
    hide RootProgress, RootPost, RootLogged, RootOutside, RootLost, Cuts, WF;
    RootOutsideNotCut(tops, level, op, 0, i);
    RootProgressStart(tops, i, level, op, commit, |m.avail|);
    RootUnchanged(m, root, tops, level);
    RootLogNothing(tops, level, op, commit);
  }

  lemma RootRunNext(m: Mem, m1: Mem, root: nat, tops: seq<Entry>, cur: seq<Entry>, i: nat, level: nat, op: Op,
                    commit: bool, evs: seq<Event>)
    requires i < |tops| && RootRun(m, m1, root, tops, cur, i, level, op, commit, evs)
    requires commit ==> Tables(tops, level) && RootNeed(tops, level, op, 0) == 0
    ensures tops[i].Table? && TableOk(m1.store, root + i, tops[i].kids, level, RootLo(i, level))
    ensures commit ==> NeedFrom(tops[i].kids, level, RootLo(i, level), op, 0) == 0
  {
    hide RootLost, RootNeed, RootLogged, TableOk, TopRep, UnsharedAll, RootPrepared, WF, Balanced;
    RootTable(m1.store, root, cur, level, i);
    if commit { RootNeedZeroAt(tops, level, op, 0, i); }
  }

  lemma RootRunStep(ok: bool, m: Mem, m1: Mem, m2: Mem, root: nat, tops: seq<Entry>, cur: seq<Entry>, i: nat,
                    ks: seq<Entry>, level: nat, op: Op, commit: bool, evs: seq<Event>, evs1: seq<Event>)
    requires i < |tops| && RootRun(m, m1, root, tops, cur, i, level, op, commit, evs)
    requires m1.avail !! m1.store.Keys && tops[i].Table?
    requires TablePost(m1, m2, root + i, tops[i].kids, ks, level, RootLo(i, level),
                       LostInKids(commit, tops[i].kids, level, RootLo(i, level), op))
    requires PassPostKids(ok, tops[i].kids, ks, level, RootLo(i, level), op, commit, |m1.avail|, |m2.avail|)
    requires Logged(evs1, Table(root + i, tops[i].kids), Table(root + i, ks), level + 1, RootLo(i, level), op, commit)
    requires Overlaps(op, RootLo(i, level), level + 1)
    requires Gap(evs1, CutsUpTo(tops[i].kids, level, RootLo(i, level), op, |tops[i].kids|), op, commit, |m1.avail|)
    ensures i < |cur| && Tables(tops, level)
    ensures !ok ==> Gap(evs + evs1, CutsUpTo(tops, level + 1, 0, op, |tops|), op, commit, |m.avail|)
    ensures ok ==> RootRun(m, m2, root, tops, cur[i := Table(root + i, ks)], i + 1, level, op, commit, evs + evs1)
    ensures !ok ==> RootLogged(evs + evs1, tops, cur[i := Table(root + i, ks)], level, op, commit)
    ensures !ok ==> Tables(cur[i := Table(root + i, ks)], level)
                    && RootPass(false, tops, cur[i := Table(root + i, ks)], level, op, commit, |m.avail|, |m2.avail|)
    ensures !ok ==> !commit && RootPost(m, m2, root, tops, cur[i := Table(root + i, ks)], level, {})
    ensures !ok ==> RootOk(m2.store, root, cur[i := Table(root + i, ks)], level)
  {
    hide RootLost, RootOk, RootLogged, RootPass, TablePost, WF, LostTo, RootProgress, PassPostKids, Logged, Gap, Left,
      CutsUpTo, Overlaps;
    RootRunFacts(ok, m, m1, root, tops, cur, i, ks, level, op, commit, evs, |m1.avail|, |m2.avail|);
    LogWF(evs1, Table(root + i, tops[i].kids), Table(root + i, ks), level + 1, RootLo(i, level), op, commit);
    RootProgressStep(ok, tops, cur, i, ks, level, op, commit, |m.avail|, |m1.avail|, |m2.avail|);
    RootNext(m, m1, m2, root, tops, cur, i, ks, level,
             if commit then RootLost(tops, level, op, i) else {},
             LostInKids(commit, tops[i].kids, level, RootLo(i, level), op));
    RootLogNext(evs, evs1, tops, cur, i, Table(root + i, ks), level, op, commit);
    RootGapNext(evs, evs1, tops, cur, i, level, op, commit, |m.avail|, |m1.avail|);
    RootLostNext(tops, level, op, i);
    ghost var none: set<nat> := {};
    assert none + none == none;
  }

  lemma RootRunFacts(ok: bool, m: Mem, m1: Mem, root: nat, tops: seq<Entry>, cur: seq<Entry>, i: nat, ks: seq<Entry>,
                     level: nat, op: Op, commit: bool, evs: seq<Event>, had: nat, has: nat)
    requires i < |tops| && RootRun(m, m1, root, tops, cur, i, level, op, commit, evs) && tops[i].Table?
    requires PassPostKids(ok, tops[i].kids, ks, level, RootLo(i, level), op, commit, had, has)
    ensures i < |cur| == |tops| && cur[i] == tops[i] && tops[i].page == root + i &&
            tops[i] == Table(root + i, tops[i].kids)
    ensures Tables(tops, level) && Tables(cur, level) && (commit ==> ok)
  {
    hide RootLost, RootLogged, WF, TopRep, Balanced, UnsharedAll;
  }

  lemma LogWF(evs: seq<Event>, e: Entry, e': Entry, level: nat, lo: nat, op: Op, commit: bool)
    requires Logged(evs, e, e', level, lo, op, commit)
    ensures WF(e', level)
  {
  }

  lemma RootLostNext(tops: seq<Entry>, level: nat, op: Op, i: nat)
    requires Tables(tops, level) && i < |tops|
    ensures RootLost(tops, level, op, i + 1) ==
            RootLost(tops, level, op, i) + LostInKids(true, tops[i].kids, level, RootLo(i, level), op)
  {
  }

  lemma RootRunEnd(m: Mem, m1: Mem, root: nat, tops: seq<Entry>, cur: seq<Entry>, i: nat, level: nat, op: Op,
                   commit: bool, evs: seq<Event>)
    requires RootRun(m, m1, root, tops, cur, i, level, op, commit, evs) && RootOutside(op, level, i, |tops|)
    ensures Tables(tops, level) && Tables(cur, level) && RootOk(m1.store, root, cur, level)
    ensures RootPost(m, m1, root, tops, cur, level, if commit then RootLost(tops, level, op, |tops|) else {})
    ensures RootPass(true, tops, cur, level, op, commit, |m.avail|, |m1.avail|)
    ensures RootLogged(evs, tops, cur, level, op, commit)
    ensures Gap(evs, CutsUpTo(tops, level + 1, 0, op, |tops|), op, commit, |m.avail|)
  {
    hide RootProgress, RootLogged, RootOutside, RootLost, RootPass, Balanced, TopRep, UnsharedAll, Cuts, WF;
    RootOutsideNotCut(tops, level, op, i, |tops|);
    RootProgressEnd(tops, cur, i, level, op, commit, |m.avail|, |m1.avail|);
  }

  // ---- A whole update ------------------------------------------------------------------------

  /** The outcome of an update: the first pass turned `tops` into `mid`; if it had pages enough the
      commit pass turned that into `fin`, else everything stops there. */
  ghost predicate Outcome(ok: bool, tops: seq<Entry>, mid: seq<Entry>, fin: seq<Entry>, level: nat, op: Op, had: nat) {
    && Tables(tops, level) && Tables(mid, level) && Tables(fin, level)
    && RootPrepared(tops, mid, level, op)
    && (ok <==> RootNeed(tops, level, op, 0) <= had)
    && if ok then RootNeed(mid, level, op, 0) == 0 && RootCommit(mid, fin, level, op) else fin == mid
  }

  lemma RootFacts(store: Store, root: nat, tops: seq<Entry>, level: nat)
    requires RootOk(store, root, tops, level)
    ensures root > 0 && Tables(tops, level)
  {
  }

  lemma RootPostFacts(m: Mem, m': Mem, root: nat, tops: seq<Entry>, tops': seq<Entry>, level: nat, lost: set<nat>)
    requires RootPost(m, m', root, tops, tops', level, lost)
    ensures |tops'| == |tops| && Tables(tops', level) && RootOk(m'.store, root, tops', level)
    ensures Balanced(m.avail, PagesOf(tops), m'.avail, PagesOf(tops'), lost)
  {
  }

  lemma PassNeeds(tops: seq<Entry>, mid: seq<Entry>, level: nat, op: Op, had: nat, has: nat)
    requires Tables(tops, level) && Tables(mid, level) && RootPass(true, tops, mid, level, op, false, had, has)
    ensures RootNeed(mid, level, op, 0) == 0
  {
  }

  /** An update either rewrites exactly the requested range or changes no meaning at all. */
  lemma OutcomeView(ok: bool, tops: seq<Entry>, mid: seq<Entry>, fin: seq<Entry>, level: nat, op: Op, had: nat, a: nat)
    requires Outcome(ok, tops, mid, fin, level, op, had) && WFOp(op) && a < SpaceEnd(|tops|, level)
    ensures |tops| == |fin|
    ensures ok ==> UpdatedAt(op, RawAt(tops, level, a), RawAt(fin, level, a), a)
    ensures !ok ==> Norm(RawAt(fin, level, a)) == Norm(RawAt(tops, level, a))
  {
    RootPreparedSplits(tops, mid, level, op);
    RootSplitView(tops, mid, level, a);
    if ok { RootCommitView(mid, fin, level, op, a); }
  }

  /** Everything a finished update guarantees: what the table means, which pages moved, and what the
      hardware saw. A successful update ends by invalidating its range. */
  ghost predicate Updated(ok: bool, m: Mem, m': Mem, tops: seq<Entry>, mid: seq<Entry>, fin: seq<Entry>, level: nat,
                          op: Op, evs1: seq<Event>, evs2: seq<Event>) {
    && WFOp(op)
    && Outcome(ok, tops, mid, fin, level, op, |m.avail|)
    && Balanced(m.avail, PagesOf(tops), m'.avail, PagesOf(fin), if ok then RootLost(tops, level, op, |tops|) else {})
    && Gap(evs1, CutsUpTo(tops, level + 1, 0, op, |tops|), op, false, |m.avail|)
    && RootLogged(evs1, tops, mid, level, op, false) && (!ok ==> evs2 == [])
    && (ok ==> evs2 != [] && evs2[|evs2| - 1] == Invalidate(op.begin, op.end))
    && (ok ==> RootLogged(evs2[..|evs2| - 1], mid, fin, level, op, true))
  }

  lemma UpdateFailed(m: Mem, m': Mem, root: nat, tops: seq<Entry>, mid: seq<Entry>, level: nat, op: Op,
                     evs1: seq<Event>)
    requires WFOp(op) && Tables(tops, level) && RootPost(m, m', root, tops, mid, level, {}) && Tables(mid, level)
    requires RootPass(false, tops, mid, level, op, false, |m.avail|, |m'.avail|)
    requires RootLogged(evs1, tops, mid, level, op, false)
    requires Gap(evs1, CutsUpTo(tops, level + 1, 0, op, |tops|), op, false, |m.avail|)
    ensures Updated(false, m, m', tops, mid, mid, level, op, evs1, [])
  {
    hide RootLogged, RootNeed, RootPrepared, Balanced, RootOk, CutsUpTo;
  }

  lemma OutcomeIntro(tops: seq<Entry>, mid: seq<Entry>, fin: seq<Entry>, level: nat, op: Op, had: nat, mids: nat,
                     has: nat)
    requires Tables(tops, level) && Tables(mid, level) && Tables(fin, level)
    requires RootPass(true, tops, mid, level, op, false, had, mids) &&
             RootPass(true, mid, fin, level, op, true, mids, has)
    ensures Outcome(true, tops, mid, fin, level, op, had) && |mid| == |tops|
    ensures RootLost(mid, level, op, |mid|) == RootLost(tops, level, op, |tops|)
  {
    hide RootNeed, RootPrepared, RootCommit, RootLost, Tables;
    PreparedLength(tops, mid, level, op);
    RootPreparedLost(tops, mid, level, op, |tops|);
  }

  lemma PreparedLength(tops: seq<Entry>, mid: seq<Entry>, level: nat, op: Op)
    requires RootPrepared(tops, mid, level, op)
    ensures |mid| == |tops|
  {
  }

  lemma UpdatedIntro(m: Mem, m1: Mem, m': Mem, root: nat, tops: seq<Entry>, mid: seq<Entry>, fin: seq<Entry>,
                     level: nat, op: Op, evs1: seq<Event>, evs2: seq<Event>)
    requires WFOp(op) && Tables(tops, level) && Tables(mid, level) && Tables(fin, level)
    requires RootPost(m, m1, root, tops, mid, level, {})
    requires RootPost(m1, m', root, mid, fin, level, RootLost(mid, level, op, |mid|))
    requires RootPass(true, tops, mid, level, op, false, |m.avail|, |m1.avail|)
    requires RootPass(true, mid, fin, level, op, true, |m1.avail|, |m'.avail|)
    requires RootLogged(evs1, tops, mid, level, op, false)
    requires RootLogged(evs2, mid, fin, level, op, true)
    requires Gap(evs1, CutsUpTo(tops, level + 1, 0, op, |tops|), op, false, |m.avail|)
    ensures Updated(true, m, m', tops, mid, fin, level, op, evs1, evs2 + [Invalidate(op.begin, op.end)])
  {
    hide RootLogged, RootPass, Outcome, Balanced, RootOk, RootLost, CutsUpTo, Tables, PagesOf, Gap, WFOp;
    OutcomeIntro(tops, mid, fin, level, op, |m.avail|, |m1.avail|, |m'.avail|);
    var lost := RootLost(mid, level, op, |mid|);
    BalancedTwice(m.avail, PagesOf(tops), m1.avail, PagesOf(mid), m'.avail, PagesOf(fin), {}, lost);
    assert {} + lost == lost;
    assert (evs2 + [Invalidate(op.begin, op.end)])[..|evs2|] == evs2;
  }

  lemma CacheNorm(x: Raw, y: Raw)
    requires Norm(x) == Norm(y)
    ensures CacheOf(x) == CacheOf(y)
  {
  }

  lemma QuietNext(ev: Event, tops: seq<Entry>, level: nat, op: Op, commit: bool, a: nat, c: Raw)
    requires Tables(tops, level) && a < SpaceEnd(|tops|, level) && QuietRoot(ev, tops, level, op, commit)
    requires !Target(op, commit, a) && CacheOf(c) <= CacheOf(RawAt(tops, level, a))
    ensures CacheOf(Next(c, ev, a)) <= CacheOf(RawAt(tops, level, a))
  {
    var k :| 0 <= k < |tops| && Quiet(ev, tops[k], level + 1, RootLo(k, level), op, commit);
    if ev.Write? && ev.lo <= a < ev.lo + Size(ev.level) {
      KidAt(tops, level + 1, 0, k, a);
    }
  }

  /** Quiet writes leave a TLB holding at most what the table said before them. */
  lemma TlbQuiet(evs: seq<Event>, tops: seq<Entry>, cur: seq<Entry>, level: nat, op: Op, commit: bool, a: nat,
                 tlb: set<Attrs>)
    requires RootLogged(evs, tops, cur, level, op, commit) && a < SpaceEnd(|tops|, level) && !Target(op, commit, a)
    requires tlb <= CacheOf(RawAt(tops, level, a))
    ensures TlbAfter(RawAt(tops, level, a), tlb, evs, a) <= CacheOf(RawAt(tops, level, a))
  {
    hide RawAt, Next, CacheOf;
    var raw := RawAt(tops, level, a);
    forall k, c | 0 <= k < |evs| && CacheOf(c) <= CacheOf(raw) ensures CacheOf(Next(c, evs[k], a)) <= CacheOf(raw) {
      QuietNext(evs[k], tops, level, op, commit, a, c);
    }
    TlbStays(raw, tlb, evs, a, raw);
  }

  /** A TLB that may cache any valid translation at any moment still agrees with the table when an
      update returns for lack of memory. */
  lemma TlbAgreesOnFailure(tops: seq<Entry>, mid: seq<Entry>, level: nat, op: Op, evs: seq<Event>, a: nat,
                           tlb: set<Attrs>)
    requires RootLogged(evs, tops, mid, level, op, false) && RootPrepared(tops, mid, level, op) &&
             a < SpaceEnd(|tops|, level)
    requires tlb <= CacheOf(RawAt(tops, level, a))
    ensures TlbAfter(RawAt(tops, level, a), tlb, evs, a) <= CacheOf(RawAt(mid, level, a))
  {
    TlbQuiet(evs, tops, mid, level, op, false, a, tlb);
    RootPreparedSplits(tops, mid, level, op);
    RootSplitView(tops, mid, level, a);
    CacheNorm(RawAt(tops, level, a), RawAt(mid, level, a));
  }

  /** With invalidation enabled, it also agrees again when a successful update returns, although the
      translations of the range have changed. */
  lemma TlbAgrees(m: Mem, m': Mem, tops: seq<Entry>, mid: seq<Entry>, fin: seq<Entry>, level: nat, op: Op,
                  evs1: seq<Event>, evs2: seq<Event>, a: nat, tlb: set<Attrs>)
    requires Updated(true, m, m', tops, mid, fin, level, op, evs1, evs2) && a < SpaceEnd(|tops|, level)
    requires tlb <= CacheOf(RawAt(tops, level, a))
    ensures |fin| == |tops|
    ensures TlbAfter(RawAt(tops, level, a), tlb, evs1 + evs2, a) <= CacheOf(RawAt(fin, level, a))
  {
    hide RootCommit, RootNeed, RootPrepared, QuietRoot, Faithful, Gap, RawAt, CacheOf, UpdatedAt, Balanced;
    var tlb1 := TlbAfter(RawAt(tops, level, a), tlb, evs1, a);
    TlbAgreesOnFailure(tops, mid, level, op, evs1, a, tlb);
    TlbConcat(RawAt(tops, level, a), tlb, evs1, evs2, a);
    var n := |evs2| - 1;
    assert evs2 == evs2[..n] + [Invalidate(op.begin, op.end)];
    TlbCommit(mid, fin, level, op, evs2[..n], a, tlb1);
  }

  lemma TlbCommit(mid: seq<Entry>, fin: seq<Entry>, level: nat, op: Op, evs: seq<Event>, a: nat, tlb: set<Attrs>)
    requires Tables(mid, level) && Tables(fin, level) && RootCommit(mid, fin, level, op) &&
             RootNeed(mid, level, op, 0) == 0
    requires RootLogged(evs, mid, fin, level, op, true) && WFOp(op) && a < SpaceEnd(|mid|, level)
    requires tlb <= CacheOf(RawAt(mid, level, a))
    ensures TlbAfter(RawAt(mid, level, a), tlb, evs + [Invalidate(op.begin, op.end)], a)
            <= CacheOf(RawAt(fin, level, a))
  {
    var ev := Invalidate(op.begin, op.end);
    assert (evs + [ev])[..|evs|] == evs;
    if !Target(op, true, a) {
      TlbQuiet(evs, mid, fin, level, op, true, a, tlb);
      RootCommitView(mid, fin, level, op, a);
      CacheNorm(RawAt(mid, level, a), RawAt(fin, level, a));
    }
  }
}
