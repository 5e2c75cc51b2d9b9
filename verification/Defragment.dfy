/** How the steps of defragmentation add up, from one descriptor to the whole table. */
module Defragment {
  import opened Common
  import opened Geometry
  import opened Entries
  import opened Rollback
  import opened Footprint
  import opened Layout
  import opened Roots
  import opened Undo

  /** What defragmenting an entry achieves, counting the pages it returns to the pool itself. */
  ghost predicate DefragPost(m: Mem, m': Mem, p: nat, i: nat, e: Entry, level: nat, lo: nat)
    requires WF(e, level)
  {
    && EntryPost(m, m', p, i, e, Defragged(e, level), level, lo, {})
    && |m'.own| + Count(Defragged(e, level)) == |m.own| + Count(e)
  }

  /** Defragmenting the entries of a table, the first `i` of which are done. */
  ghost predicate DefragRun(m: Mem, m1: Mem, t: nat, ks: seq<Entry>, cur: seq<Entry>, i: nat, level: nat, lo: nat) {
    && i <= |ks| == PTE_PER_PAGE && TableOk(m.store, t, ks, level, lo) && m.avail !! m.store.Keys
    && TablePost(m, m1, t, ks, cur, level, lo, {})
    && (forall j | i <= j < |ks| :: cur[j] == ks[j])
    && (forall j | 0 <= j < i :: cur[j] == Defragged(ks[j], level))
    && |m1.own| + CountFrom(cur, 0) == |m.own| + CountFrom(ks, 0)
  }

  lemma {:induction false} CountReplace(ks: seq<Entry>, i: nat, e: Entry, n: nat)
    requires i < |ks|
    ensures n <= i ==> CountFrom(ks[i := e], n) == CountFrom(ks, n) - Count(ks[i]) + Count(e)
    ensures n > i ==> CountFrom(ks[i := e], n) == CountFrom(ks, n)
    decreases |ks| - n
  {
    if n < |ks| { CountReplace(ks, i, e, n + 1); }
  }

  lemma DefragRunStart(m: Mem, t: nat, ks: seq<Entry>, level: nat, lo: nat)
    requires TableOk(m.store, t, ks, level, lo) && m.avail !! m.store.Keys
    ensures DefragRun(m, m, t, ks, ks, 0, level, lo)
  {
    TableUnchanged(m, t, ks, level, lo);
  }

  lemma DefragRunNext(m: Mem, m1: Mem, t: nat, ks: seq<Entry>, cur: seq<Entry>, i: nat, level: nat, lo: nat)
    requires DefragRun(m, m1, t, ks, cur, i, level, lo) && i < PTE_PER_PAGE
    ensures i < |ks| && WF(ks[i], level) && SlotOk(m1.store, t, i, ks[i], level, EntryLo(lo, i, Size(level)))
  {
    TableSlot(m1.store, t, cur, i, level, lo);
  }

  lemma DefragRunStep(m: Mem, m1: Mem, m2: Mem, t: nat, ks: seq<Entry>, cur: seq<Entry>, i: nat, level: nat, lo: nat)
    requires DefragRun(m, m1, t, ks, cur, i, level, lo) && i < PTE_PER_PAGE && m1.avail !! m1.store.Keys &&
             WF(ks[i], level)
    requires DefragPost(m1, m2, t, i, ks[i], level, EntryLo(lo, i, Size(level)))
    ensures i < |cur| && DefragRun(m, m2, t, ks, cur[i := Defragged(ks[i], level)], i + 1, level, lo)
  {
    hide TableOk, EntryPost, Defragged, Count, CountFrom, WF, ChangedBelow, Balanced;
    var none: set<nat> := {};
    var e := Defragged(ks[i], level);
    TableNext(m, m1, m2, t, ks, cur, i, e, level, lo, none, none);
    assert none + none == none;
    CountReplace(cur, i, e, 0);
  }

  lemma DefragRunEnd(m: Mem, m1: Mem, t: nat, ks: seq<Entry>, cur: seq<Entry>, level: nat, lo: nat)
    requires DefragRun(m, m1, t, ks, cur, PTE_PER_PAGE, level, lo)
    ensures WFs(ks, level) && cur == DefragAll(ks, level)
    ensures TablePost(m, m1, t, ks, cur, level, lo, {}) && RepTable(m1.store, t, cur, level, lo)
    ensures |m1.own| + CountFrom(cur, 0) == |m.own| + CountFrom(ks, 0)
  {
    assert WFs(ks, level);
    assert cur == DefragAll(ks, level);
  }

  /** Folding the results one by one gives the common result, if there is one. */
  lemma ReduceStep(ks: seq<Entry>, level: nat, i: nat, acc: Result<Raw>)
    requires WFs(ks, level) && 0 < i < |ks|
    requires acc == KidsResult(ks[..i], level)
    ensures KidsResult(ks[..i + 1], level) == if acc == DefragResult(ks[i], level) then acc else Err
  {
    hide DefragResult;
    var a, b := ks[..i], ks[..i + 1];
    assert forall j | 0 <= j < i :: a[j] == b[j];
    assert b[i] == ks[i] && a[0] == b[0] == ks[0];
    if acc == DefragResult(ks[i], level) && acc.Ok? {
      assert forall j | 0 <= j < |b| :: DefragResult(b[j], level) == DefragResult(b[0], level);
    }
    if forall j | 0 <= j < |b| :: DefragResult(b[j], level) == DefragResult(b[0], level) {
      forall j | 0 <= j < |a| ensures DefragResult(a[j], level) == DefragResult(a[0], level) {
        assert a[j] == b[j];
      }
    }
  }

  lemma ReduceFirst(ks: seq<Entry>, level: nat)
    requires WFs(ks, level) && ks != []
    ensures KidsResult(ks[..1], level) == DefragResult(ks[0], level)
  {
    assert ks[..1] == [ks[0]];
  }

  /** A table whose entries all became the same leaf holds no further tables. */
  lemma {:induction false} UniformCount(ks: seq<Entry>, n: nat)
    requires forall j | 0 <= j < |ks| :: ks[j].Leaf?
    ensures CountFrom(ks, n) == 0 && PagesOf(ks) == {}
    decreases |ks| - n
  {
    if n < |ks| { UniformCount(ks, n + 1); }
  }

  lemma UniformKids(ks: seq<Entry>, level: nat, raw: Raw)
    requires WFs(ks, level) && ks != [] && KidsResult(ks, level) == Ok(raw)
    ensures forall j | 0 <= j < |ks| :: DefragAll(ks, level)[j] == Leaf(raw)
    ensures PagesOf(DefragAll(ks, level)) == {} && CountFrom(DefragAll(ks, level), 0) == 0
  {
    hide DefragResult, Defragged;
    forall j | 0 <= j < |ks| ensures DefragAll(ks, level)[j] == Leaf(raw) {
      assert DefragResult(ks[j], level) == DefragResult(ks[0], level);
      DefragOk(ks[j], level);
    }
    UniformCount(DefragAll(ks, level), 0);
  }

  /** The table stays and only its entries were defragmented. */
  lemma DefragKept(m: Mem, m1: Mem, p: nat, i: nat, e: Entry, level: nat, lo: nat)
    requires WF(e, level) && e.Table? && SlotOk(m.store, p, i, e, level, lo) && m.avail !! m.store.Keys
    requires TablePost(m, m1, e.page, e.kids, DefragAll(e.kids, level - 1), level - 1, lo, {})
    requires |m1.own| + CountFrom(DefragAll(e.kids, level - 1), 0) == |m.own| + CountFrom(e.kids, 0)
    ensures EntryPost(m, m1, p, i, e, Table(e.page, DefragAll(e.kids, level - 1)), level, lo, {})
    ensures |m1.own| + Count(Table(e.page, DefragAll(e.kids, level - 1))) == |m.own| + Count(e)
    ensures SlotOk(m1.store, p, i, Table(e.page, DefragAll(e.kids, level - 1)), level, lo)
  {
    hide TablePost, Changed, Balanced, Rep;
    TableBelow(m, m1, p, i, e.page, e.kids, DefragAll(e.kids, level - 1), level, lo, {});
  }

  /** The table was merged into one leaf and its page returned. */
  lemma DefragMerged(m: Mem, m1: Mem, m2: Mem, p: nat, i: nat, e: Entry, pte: Pte, level: nat, lo: nat)
    requires WF(e, level) && e.Table? && m.avail !! m.store.Keys && m1.avail !! m1.store.Keys
    requires EntryPost(m, m1, p, i, e, Table(e.page, DefragAll(e.kids, level - 1)), level, lo, {})
    requires SlotOk(m1.store, p, i, Table(e.page, DefragAll(e.kids, level - 1)), level, lo)
    requires |m1.own| + Count(Table(e.page, DefragAll(e.kids, level - 1))) == |m.own| + Count(e)
    requires Defragged(e, level).Leaf? && e.page !in m1.own
    requires pte == if Defragged(e, level).raw.None? then Absent else Block(lo, Defragged(e, level).raw.value)
    requires Written(m1, m2, p, i, pte, {e.page})
    ensures DefragPost(m, m2, p, i, e, level, lo)
  {
    hide EntryPost, SlotOk, Changed, Balanced;
    var d, e1 := Defragged(e, level), Table(e.page, DefragAll(e.kids, level - 1));
    MergedFacts(e, level);
    LeafWritten(m1, m2, p, i, pte, {e.page}, e1, d.raw, level, lo);
    var none: set<nat> := {};
    assert Pages(e1) - {e.page} == none;
    EntryTwice(m, m1, m2, p, i, e, e1, d, level, lo, none, none);
    assert none + none == none;
  }

  lemma MergedFacts(e: Entry, level: nat)
    requires WF(e, level) && e.Table? && Defragged(e, level).Leaf?
    ensures var e1 := Table(e.page, DefragAll(e.kids, level - 1));
            && Pages(e1) == {e.page} && Count(e1) == 1
    ensures Defragged(e, level).raw.Some? ==> BlockAllowed(level)
  {
    UniformKids(e.kids, level - 1, KidsResult(e.kids, level - 1).value);
  }

  /** Where child 0 of a merged table points is where the block must point. */
  lemma FirstChild(store: Store, t: nat, ks: seq<Entry>, level: nat, lo: nat, a: Attrs)
    requires RepTable(store, t, ks, level, lo) && |ks| > 0 && ks[0] == Leaf(Some(a))
    ensures |store[t]| > 0 && store[t][0] == Block(lo, a)
  {
  }

  lemma MergeSlot(store: Store, p: nat, i: nat, t: nat, ks: seq<Entry>, level: nat, lo: nat)
    requires SlotOk(store, p, i, Table(t, ks), level, lo)
    ensures level > 0 && p in store && i < |store[p]| && store[p][i] == Subtable(t) && t != 0 && t != p
    ensures t in store && RepTable(store, t, ks, level - 1, lo) && |ks| == PTE_PER_PAGE
  {
    assert RepTable(store, t, ks, level - 1, lo);
  }

  // ---- All root tables -----------------------------------------------------------------------

  ghost predicate RootDefragRun(m: Mem, m1: Mem, root: nat, tops: seq<Entry>, cur: seq<Entry>, k: nat, level: nat) {
    && k <= |tops| && RootOk(m.store, root, tops, level) && Tables(tops, level)
    && RootPost(m, m1, root, tops, cur, level, {})
    && (forall j | k <= j < |tops| :: cur[j] == tops[j])
    && (forall j | 0 <= j < k :: cur[j] == Table(tops[j].page, DefragAll(tops[j].kids, level)))
    && |m1.own| + CountFrom(cur, 0) == |m.own| + CountFrom(tops, 0)
  }

  lemma RootDefragStart(m: Mem, root: nat, tops: seq<Entry>, level: nat)
    requires RootOk(m.store, root, tops, level) && m.avail !! m.store.Keys
    ensures RootDefragRun(m, m, root, tops, tops, 0, level)
  {
    RootUnchanged(m, root, tops, level);
  }

  lemma RootDefragNext(m: Mem, m1: Mem, root: nat, tops: seq<Entry>, cur: seq<Entry>, k: nat, level: nat)
    requires k < |tops| && RootDefragRun(m, m1, root, tops, cur, k, level)
    ensures tops[k].Table? && TableOk(m1.store, root + k, tops[k].kids, level, RootLo(k, level))
  {
    hide TableOk, TopRep, WF, Balanced, CountFrom, UnsharedAll;
    RootTable(m1.store, root, cur, level, k);
  }

  lemma RootDefragStep(m: Mem, m1: Mem, m2: Mem, root: nat, tops: seq<Entry>, cur: seq<Entry>, k: nat, level: nat)
    requires k < |tops| && RootDefragRun(m, m1, root, tops, cur, k, level) && m1.avail !! m1.store.Keys
    requires tops[k].Table? && WFs(tops[k].kids, level)
    requires TablePost(m1, m2, root + k, tops[k].kids, DefragAll(tops[k].kids, level), level, RootLo(k, level), {})
    requires |m2.own| + CountFrom(DefragAll(tops[k].kids, level), 0) == |m1.own| + CountFrom(tops[k].kids, 0)
    ensures k < |cur|
    ensures RootDefragRun(m, m2, root, tops, cur[k := Table(root + k, DefragAll(tops[k].kids, level))], k + 1, level)
  {
    hide TableOk, TopRep, WF, WFs, Balanced, CountFrom, UnsharedAll, TablePost, DefragAll;
    var none: set<nat> := {};
    var e := Table(root + k, DefragAll(tops[k].kids, level));
    RootNext(m, m1, m2, root, tops, cur, k, DefragAll(tops[k].kids, level), level, none, none);
    assert none + none == none;
    CountReplace(cur, k, e, 0);
    TopCount(cur[k]);
    TopCount(e);
  }

  lemma TopCount(e: Entry)
    requires e.Table?
    ensures Count(e) == 1 + CountFrom(e.kids, 0)
  {
  }

  lemma RootDefragEnd(m: Mem, m1: Mem, root: nat, tops: seq<Entry>, cur: seq<Entry>, level: nat)
    requires RootDefragRun(m, m1, root, tops, cur, |tops|, level)
    ensures RootOk(m1.store, root, cur, level) && |cur| == |tops|
    ensures Tables(tops, level) && Tables(cur, level) && RootDefrag(tops, cur, level)
    ensures Balanced(m.avail, PagesOf(tops), m1.avail, PagesOf(cur), {})
    ensures |m1.own| + CountFrom(cur, 0) == |m.own| + CountFrom(tops, 0)
  {
  }
}
