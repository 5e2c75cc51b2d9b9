/** Where the page-table engine does less than its comments promise, and exactly when. */
module Limits {
  import opened Common
  import opened Geometry
  import opened Entries
  import opened Rollback
  import opened Footprint
  import opened Layout
  import opened Stores
  import opened Roots

  /** Some table lies wholly inside the range, at a level where a block may take its place. */
  ghost predicate CoversTable(e: Entry, level: nat, lo: nat, op: Op)
    decreases level, 0
  {
    e.Table? && ((Overlaps(op, lo, level) && Whole(op, lo, level)) ||
                 (level > 0 && AnyCovered(e.kids, level - 1, lo, op)))
  }

  ghost predicate AnyCovered(ks: seq<Entry>, level: nat, lo: nat, op: Op)
    decreases level, 1
  {
    exists i :: 0 <= i < |ks| && CoversTable(ks[i], level, EntryLo(lo, i, Size(level)), op)
  }

  lemma {:induction false} CoveredOverlaps(e: Entry, level: nat, lo: nat, op: Op)
    requires WF(e, level) && CoversTable(e, level, lo, op)
    ensures Overlaps(op, lo, level)
    decreases level
  {
    if !(Overlaps(op, lo, level) && Whole(op, lo, level)) {
      var i :| 0 <= i < |e.kids| && CoversTable(e.kids[i], level - 1, EntryLo(lo, i, Size(level - 1)), op);
      CoveredOverlaps(e.kids[i], level - 1, EntryLo(lo, i, Size(level - 1)), op);
      TableSpan(lo, level - 1);
      EntryLoOrder(lo, 0, i, Size(level - 1));
      EntryLoOrder(lo, i + 1, 512, Size(level - 1));
    }
  }

  lemma {:induction false} LostIff(e: Entry, level: nat, lo: nat, op: Op)
    requires WF(e, level)
    ensures Lost(e, level, lo, op) != {} <==> !op.unmap && Valid(op.attrs) && CoversTable(e, level, lo, op)
    decreases level, 0
  {
    hide LostTo, PagesOf, Whole, Overlaps;
    if e.Table? {
      LostToIff(e.kids, level - 1, lo, op, |e.kids|);
      assert e.page in Pages(e);
      if CoversTable(e, level, lo, op) { CoveredOverlaps(e, level, lo, op); }
    }
  }

  lemma {:induction false} LostToIff(ks: seq<Entry>, level: nat, lo: nat, op: Op, n: nat)
    requires WFs(ks, level) && n <= |ks|
    ensures LostTo(ks, level, lo, op, n) != {} <==>
            !op.unmap && Valid(op.attrs) &&
            exists i :: 0 <= i < n && CoversTable(ks[i], level, EntryLo(lo, i, Size(level)), op)
    decreases level, 1, n
  {
    hide Lost, CoversTable, WF;
    if n > 0 {
      LostToIff(ks, level, lo, op, n - 1);
      LostIff(ks[n - 1], level, EntryLo(lo, n - 1, Size(level)), op);
    }
  }

  lemma TopKidsWF(tops: seq<Entry>, level: nat, k: nat)
    requires Tables(tops, level) && k < |tops|
    ensures tops[k].Table? && WFs(tops[k].kids, level)
  {
    assert WF(tops[k], level + 1);
  }

  lemma {:induction false} RootLostIff(tops: seq<Entry>, level: nat, op: Op, n: nat)
    requires Tables(tops, level) && n <= |tops|
    ensures RootLost(tops, level, op, n) != {} <==>
            !op.unmap && Valid(op.attrs) &&
            exists k :: 0 <= k < n && AnyCovered(tops[k].kids, level, RootLo(k, level), op)
    decreases n
  {
    hide LostTo, CoversTable, WF;
    if n > 0 {
      RootLostIff(tops, level, op, n - 1);
      var ks := tops[n - 1].kids;
      TopKidsWF(tops, level, n - 1);
      LostToIff(ks, level, RootLo(n - 1, level), op, |ks|);
    }
  }

  /** The update will succeed and maps a range with valid attributes over a table that lies wholly inside
      the range. */
  ghost predicate WillLose(tops: seq<Entry>, level: nat, op: Op, had: nat)
    requires Tables(tops, level)
  {
    && RootNeed(tops, level, op, 0) <= had && !op.unmap && Valid(op.attrs)
    && exists k :: 0 <= k < |tops| && AnyCovered(tops[k].kids, level, RootLo(k, level), op)
  }

  /** An update loses pages, which are then neither free nor part of the table, exactly in that case. */
  lemma UpdateLosesIff(ok: bool, m: Mem, m': Mem, tops: seq<Entry>, mid: seq<Entry>, fin: seq<Entry>, level: nat,
                       op: Op, evs1: seq<Event>, evs2: seq<Event>)
    requires Updated(ok, m, m', tops, mid, fin, level, op, evs1, evs2)
    ensures Tables(tops, level)
    ensures m'.avail + PagesOf(fin) <= m.avail + PagesOf(tops)
    ensures m'.avail + PagesOf(fin) != m.avail + PagesOf(tops) <==> WillLose(tops, level, op, |m.avail|)
  {
    hide RootLogged, Gap, RootPrepared, RootCommit, RootNeed, PagesOf, AnyCovered, RootLost;
    RootLostIff(tops, level, op, |tops|);
    var lost := if ok then RootLost(tops, level, op, |tops|) else {};
    assert lost == (m.avail + PagesOf(tops)) - (m'.avail + PagesOf(fin));
  }

  /** A table none of whose entries is present is collapsed only if it is a last-level table of
      descriptors that are equal and not all-zero; a table of absent entries stays. */
  lemma EmptyTableCollapses(e: Entry, level: nat)
    requires WF(e, level) && e.Table? && forall i | 0 <= i < |e.kids| :: e.kids[i].Leaf? && !IsPresent(e.kids[i])
    ensures Defragged(e, level).Leaf? <==>
              level == 1 && e.kids[0].raw.Some? && forall i | 0 <= i < |e.kids| :: e.kids[i] == e.kids[0]
  {
    forall i | 0 <= i < |e.kids|
      ensures DefragResult(e.kids[i], level - 1) == if level == 1 && e.kids[i].raw.Some? then Ok(e.kids[i].raw) else Err
    {
    }
    if level == 1 && forall i | 0 <= i < |e.kids| :: DefragResult(e.kids[i], 0) == DefragResult(e.kids[0], 0) {
      if e.kids[0].raw.Some? {
        forall i | 0 <= i < |e.kids| ensures e.kids[i] == e.kids[0] {
          assert DefragResult(e.kids[i], 0) == DefragResult(e.kids[0], 0);
        }
      }
    }
  }
}
