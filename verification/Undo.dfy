/** Why an update of a whole page table can always be undone: lifts the boundary-table argument from
    entries to root tables. */
module Undo {
  import opened Common
  import opened Geometry
  import opened Entries
  import opened Rollback
  import opened Roots

  ghost predicate RootDefrag(tops: seq<Entry>, tops': seq<Entry>, level: nat)
    requires Tables(tops, level)
  {
    |tops'| == |tops| && forall k | 0 <= k < |tops| :: tops'[k] == Table(tops[k].page, DefragAll(tops[k].kids, level))
  }

  ghost predicate RootSolid(tops: seq<Entry>, level: nat, begin: nat, end: nat)
    requires Tables(tops, level)
  {
    forall k | 0 <= k < |tops| :: SolidKids(tops[k].kids, level, RootLo(k, level), begin, end)
  }

  ghost predicate SolidKids(ks: seq<Entry>, level: nat, lo: nat, begin: nat, end: nat) {
    forall i | 0 <= i < |ks| :: Solid(ks[i], level, EntryLo(lo, i, Size(level)), begin, end)
  }

  /** Every address of the range means `attrs`. */
  ghost predicate RootUniform(tops: seq<Entry>, level: nat, begin: nat, end: nat, attrs: Attrs)
    requires Tables(tops, level)
  {
    forall a | begin <= a < end && a < SpaceEnd(|tops|, level) :: Norm(RawAt(tops, level, a)) == Some(attrs)
  }

  /** Merging subtables changes the meaning of no address. */
  lemma RootDefragView(tops: seq<Entry>, tops': seq<Entry>, level: nat, a: nat)
    requires Tables(tops, level) && Tables(tops', level) && RootDefrag(tops, tops', level) &&
             a < SpaceEnd(|tops|, level)
    ensures Norm(RawAt(tops', level, a)) == Norm(RawAt(tops, level, a))
  {
    hide WF, At, AtKids, RawAt, Defragged;
    var k, i := Locate(tops, level, a);
    var k', i' := Locate(tops', level, a);
    KidWF(tops[k], level, i);
    KidWF(tops'[k], level, i);
    AllWF(tops[k], level);
    assert tops'[k] == Table(tops[k].page, DefragAll(tops[k].kids, level));
    DefragPreservesView(tops[k].kids[i], level, EntryLo(RootLo(k, level), i, Size(level)));
  }

  lemma UniformAt(tops: seq<Entry>, level: nat, begin: nat, end: nat, attrs: Attrs, k: nat, i: nat)
    requires Tables(tops, level) && RootUniform(tops, level, begin, end, attrs) && k < |tops| && i < PTE_PER_PAGE
    ensures |tops[k].kids| == PTE_PER_PAGE && WF(tops[k].kids[i], level)
    ensures UniformIn(tops[k].kids[i], level, EntryLo(RootLo(k, level), i, Size(level)), begin, end, attrs)
  {
    hide At, AtKids;
    KidWF(tops[k], level, i);
    var from, kid := EntryLo(RootLo(k, level), i, Size(level)), tops[k].kids[i];
    forall a | from <= a < from + Size(level) && begin <= a < end ensures Norm(At(kid, level, from, a)) == Some(attrs) {
      InTop(tops, level, k, i, a);
    }
  }

  lemma InTop(tops: seq<Entry>, level: nat, k: nat, i: nat, a: nat)
    requires Tables(tops, level) && k < |tops| && i < PTE_PER_PAGE
    requires var from := EntryLo(RootLo(k, level), i, Size(level)); from <= a < from + Size(level)
    ensures a < SpaceEnd(|tops|, level) && |tops[k].kids| == PTE_PER_PAGE && WF(tops[k].kids[i], level)
    ensures RawAt(tops, level, a) == At(tops[k].kids[i], level, EntryLo(RootLo(k, level), i, Size(level)), a)
  {
    var lo := RootLo(k, level);
    KidWF(tops[k], level, i);
    TableSpan(lo, level);
    KidAt(tops[k].kids, level, lo, i, a);
    KidAt(tops, level + 1, 0, k, a);
  }

  /** A range prepared for attributes it does not have yet has all its boundary tables. */
  lemma PreparedRootIsSolid(tops: seq<Entry>, level: nat, op: Op, was: Attrs)
    requires Tables(tops, level) && WFOp(op) && !op.unmap && RootNeed(tops, level, op, 0) == 0
    requires was != op.attrs && RootUniform(tops, level, op.begin, op.end, was)
    ensures RootSolid(tops, level, op.begin, op.end)
  {
    hide Solid, WF, NeedFrom, RootNeed, RawAt, RootUniform, Need;
    forall k | 0 <= k < |tops| ensures SolidKids(tops[k].kids, level, RootLo(k, level), op.begin, op.end) {
      RootNeedZeroAt(tops, level, op, 0, k);
      forall i | 0 <= i < |tops[k].kids|
        ensures Solid(tops[k].kids[i], level, EntryLo(RootLo(k, level), i, Size(level)), op.begin, op.end)
      {
        KidWF(tops[k], level, 0);
        UniformAt(tops, level, op.begin, op.end, was, k, i);
        NeedFromZero(tops[k].kids, level, RootLo(k, level), op, 0, i);
        PreparedIsSolid(tops[k].kids[i], level, EntryLo(RootLo(k, level), i, Size(level)), op, was);
      }
    }
  }

  lemma SplitKeepsRootSolid(tops: seq<Entry>, mid: seq<Entry>, level: nat, begin: nat, end: nat)
    requires Tables(tops, level) && Tables(mid, level) && RootSplit(tops, mid, level) &&
             RootSolid(tops, level, begin, end)
    ensures RootSolid(mid, level, begin, end)
  {
    hide Solid, WF, SplitOf;
    forall k | 0 <= k < |mid| ensures SolidKids(mid[k].kids, level, RootLo(k, level), begin, end) {
      assert SplitKids(tops[k], mid[k], level) && SolidKids(tops[k].kids, level, RootLo(k, level), begin, end);
      forall i | 0 <= i < |mid[k].kids|
        ensures Solid(mid[k].kids[i], level, EntryLo(RootLo(k, level), i, Size(level)), begin, end)
      {
        SplitKeepsSolid(tops[k].kids[i], mid[k].kids[i], level, EntryLo(RootLo(k, level), i, Size(level)), begin, end);
      }
    }
  }

  lemma CommitKeepsRootSolid(mid: seq<Entry>, fin: seq<Entry>, level: nat, op: Op, begin: nat, end: nat)
    requires Tables(mid, level) && Tables(fin, level) && RootCommit(mid, fin, level, op) &&
             RootSolid(mid, level, begin, end)
    requires !op.unmap && ((op.begin == begin && op.end == end) || op.end <= begin || end <= op.begin)
    ensures RootSolid(fin, level, begin, end)
  {
    hide Solid, WF, Commit;
    forall k | 0 <= k < |fin| ensures SolidKids(fin[k].kids, level, RootLo(k, level), begin, end) {
      assert fin[k] == CommitTop(mid, k, level, op) && SolidKids(mid[k].kids, level, RootLo(k, level), begin, end);
      forall i | 0 <= i < |fin[k].kids|
        ensures Solid(fin[k].kids[i], level, EntryLo(RootLo(k, level), i, Size(level)), begin, end)
      {
        CommitKeepsSolid(mid[k].kids[i], level, EntryLo(RootLo(k, level), i, Size(level)), op, begin, end);
      }
    }
  }

  /** Updating one range keeps the boundary tables of every other. */
  lemma OutcomeKeepsSolid(ok: bool, tops: seq<Entry>, mid: seq<Entry>, fin: seq<Entry>, level: nat, op: Op, had: nat,
                          begin: nat, end: nat)
    requires Outcome(ok, tops, mid, fin, level, op, had) && RootSolid(tops, level, begin, end)
    requires !op.unmap && (op.end <= begin || end <= op.begin)
    ensures RootSolid(fin, level, begin, end)
  {
    RootPreparedSplits(tops, mid, level, op);
    SplitKeepsRootSolid(tops, mid, level, begin, end);
    if ok { CommitKeepsRootSolid(mid, fin, level, op, begin, end); }
  }

  /** Mapping a range that already has the attributes needs no page. */
  lemma UniformRootNeedsNothing(tops: seq<Entry>, level: nat, op: Op)
    requires Tables(tops, level) && !op.unmap && RootUniform(tops, level, op.begin, op.end, op.attrs)
    ensures RootNeed(tops, level, op, 0) == 0
  {
    hide WF, NeedFrom, Need, RootUniform, UniformIn;
    forall k | 0 <= k < |tops| ensures NeedFrom(tops[k].kids, level, RootLo(k, level), op, 0) == 0 {
      forall i | 0 <= i < |tops[k].kids|
        ensures Need(tops[k].kids[i], level, EntryLo(RootLo(k, level), i, Size(level)), op) == 0
      {
        KidWF(tops[k], level, 0);
        UniformAt(tops, level, op.begin, op.end, op.attrs, k, i);
        UniformNeedsNothing(tops[k].kids[i], level, EntryLo(RootLo(k, level), i, Size(level)), op);
      }
      NeedFromAllZero(tops[k].kids, level, RootLo(k, level), op, 0);
    }
    RootNeedZero(tops, level, op, 0);
  }

  /** While its boundary tables exist, mapping a range needs no page. */
  lemma {:induction false} SolidNeedsNothing(e: Entry, level: nat, lo: nat, op: Op)
    requires Solid(e, level, lo, op.begin, op.end) && !op.unmap
    ensures Need(e, level, lo, op) == 0
    decreases level
  {
    if Partial(op, e, lo, level) {
      forall i | 0 <= i < |e.kids|
        ensures Need(e.kids[i], level - 1, EntryLo(lo, i, Size(level - 1)), op) == 0
      {
        SolidNeedsNothing(e.kids[i], level - 1, EntryLo(lo, i, Size(level - 1)), op);
      }
      NeedFromAllZero(e.kids, level - 1, lo, op, 0);
    }
  }

  lemma SolidRootNeedsNothing(tops: seq<Entry>, level: nat, op: Op)
    requires Tables(tops, level) && !op.unmap && RootSolid(tops, level, op.begin, op.end)
    ensures RootNeed(tops, level, op, 0) == 0
  {
    hide WF, NeedFrom, Need, Solid;
    forall k | 0 <= k < |tops| ensures NeedFrom(tops[k].kids, level, RootLo(k, level), op, 0) == 0 {
      forall i | 0 <= i < |tops[k].kids|
        ensures Need(tops[k].kids[i], level, EntryLo(RootLo(k, level), i, Size(level)), op) == 0
      {
        SolidNeedsNothing(tops[k].kids[i], level, EntryLo(RootLo(k, level), i, Size(level)), op);
      }
      NeedFromAllZero(tops[k].kids, level, RootLo(k, level), op, 0);
    }
    RootNeedZero(tops, level, op, 0);
  }

  /** After defragmenting, mapping the range again needs at most what defragmentation freed. */
  lemma {:induction false} RootUndoNeeds(tops: seq<Entry>, tops': seq<Entry>, level: nat, op: Op, k: nat)
    requires Tables(tops, level) && Tables(tops', level) && RootDefrag(tops, tops', level) && !op.unmap
    requires RootSolid(tops, level, op.begin, op.end)
    ensures RootNeed(tops', level, op, k) + CountFrom(tops', k) <= CountFrom(tops, k)
    decreases |tops| - k
  {
    hide WF, NeedFrom, Solid, Defragged;
    if k < |tops| {
      RootUndoNeeds(tops, tops', level, op, k + 1);
      KidWF(tops[k], level, 0);
      assert SolidKids(tops[k].kids, level, RootLo(k, level), op.begin, op.end);
      AllWF(tops[k], level);
      UndoNeedsFrom(tops[k].kids, level, RootLo(k, level), op, true, 0);
    }
  }

  lemma AllWF(e: Entry, level: nat)
    requires WF(e, level + 1) && e.Table?
    ensures WFs(e.kids, level)
  {
  }

  lemma {:induction false} RootShrinks(tops: seq<Entry>, tops': seq<Entry>, level: nat, k: nat)
    requires Tables(tops, level) && Tables(tops', level) && RootDefrag(tops, tops', level)
    ensures CountFrom(tops', k) <= CountFrom(tops, k)
    decreases |tops| - k
  {
    hide WF, Defragged;
    if k < |tops| {
      RootShrinks(tops, tops', level, k + 1);
      AllWF(tops[k], level);
      var a := Attrs(false, false, false, false, false, false);
      UndoNeedsFrom(tops[k].kids, level, RootLo(k, level), Op(0, 0, a, false), false, 0);
    }
  }

  /** A successful map of a uniform range can be undone at once: the undo needs no page at all. */
  lemma UndoNeedsNothing(tops: seq<Entry>, mid: seq<Entry>, fin: seq<Entry>, level: nat, op: Op, had: nat, was: Attrs)
    requires Outcome(true, tops, mid, fin, level, op, had) && WFOp(op) && !op.unmap
    requires RootUniform(tops, level, op.begin, op.end, was)
    ensures RootNeed(fin, level, op.(attrs := was), 0) == 0
  {
    hide WF, RootNeed, RootSolid;
    if was == op.attrs {
      UniformAfter(tops, mid, fin, level, op, had);
      UniformRootNeedsNothing(fin, level, op.(attrs := was));
    } else {
      SolidAfter(tops, mid, fin, level, op, had, was);
      SolidRootNeedsNothing(fin, level, op.(attrs := was));
    }
  }

  /** After defragmenting it needs at most as many pages as defragmentation freed. */
  lemma UndoAlwaysFits(tops: seq<Entry>, mid: seq<Entry>, fin: seq<Entry>, defr: seq<Entry>, level: nat, op: Op,
                       had: nat, was: Attrs)
    requires Outcome(true, tops, mid, fin, level, op, had) && WFOp(op) && !op.unmap
    requires RootUniform(tops, level, op.begin, op.end, was)
    requires Tables(defr, level) && RootDefrag(fin, defr, level)
    ensures RootNeed(defr, level, op.(attrs := was), 0) + CountFrom(defr, 0) <= CountFrom(fin, 0)
  {
    hide WF, RootNeed, CountFrom, RootSolid;
    if was == op.attrs {
      UniformAfter(tops, mid, fin, level, op, had);
      UniformDefragged(fin, defr, level, op.begin, op.end, was);
      UniformRootNeedsNothing(defr, level, op.(attrs := was));
      RootShrinks(fin, defr, level, 0);
    } else {
      SolidAfter(tops, mid, fin, level, op, had, was);
      RootUndoNeeds(fin, defr, level, op.(attrs := was), 0);
    }
  }

  /** After a map that changes a uniform range, all boundary tables of the range exist. */
  lemma SolidAfter(tops: seq<Entry>, mid: seq<Entry>, fin: seq<Entry>, level: nat, op: Op, had: nat, was: Attrs)
    requires Outcome(true, tops, mid, fin, level, op, had) && WFOp(op) && !op.unmap
    requires was != op.attrs && RootUniform(tops, level, op.begin, op.end, was)
    ensures RootSolid(fin, level, op.begin, op.end)
  {
    hide WF, RawAt, RootNeed, RootSolid;
    RootPreparedSplits(tops, mid, level, op);
    forall a | op.begin <= a < op.end && a < SpaceEnd(|mid|, level) ensures Norm(RawAt(mid, level, a)) == Some(was) {
      RootSplitView(tops, mid, level, a);
    }
    PreparedRootIsSolid(mid, level, op, was);
    CommitKeepsRootSolid(mid, fin, level, op, op.begin, op.end);
  }

  lemma UniformAfter(tops: seq<Entry>, mid: seq<Entry>, fin: seq<Entry>, level: nat, op: Op, had: nat)
    requires Outcome(true, tops, mid, fin, level, op, had) && WFOp(op) && !op.unmap
    requires RootUniform(tops, level, op.begin, op.end, op.attrs)
    ensures RootUniform(fin, level, op.begin, op.end, op.attrs)
  {
    hide WF, RawAt, RootNeed;
    forall a | op.begin <= a < op.end && a < SpaceEnd(|fin|, level)
      ensures Norm(RawAt(fin, level, a)) == Some(op.attrs)
    {
      OutcomeView(true, tops, mid, fin, level, op, had, a);
    }
  }

  lemma UniformDefragged(fin: seq<Entry>, defr: seq<Entry>, level: nat, begin: nat, end: nat, attrs: Attrs)
    requires Tables(fin, level) && Tables(defr, level) && RootDefrag(fin, defr, level) &&
             RootUniform(fin, level, begin, end, attrs)
    ensures RootUniform(defr, level, begin, end, attrs)
  {
    hide WF, RawAt, RootDefrag;
    DefragSize(fin, defr, level);
    forall a | begin <= a < end && a < SpaceEnd(|defr|, level) ensures Norm(RawAt(defr, level, a)) == Some(attrs) {
      RootDefragView(fin, defr, level, a);
    }
  }

  lemma DefragSize(tops: seq<Entry>, tops': seq<Entry>, level: nat)
    requires Tables(tops, level) && RootDefrag(tops, tops', level)
    ensures |tops'| == |tops|
  {
  }
}
